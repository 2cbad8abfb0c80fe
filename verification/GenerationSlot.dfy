/** The process-wide slot of one description generation (archon_search/description_lifecycle.py,
    class `_GenerationSlot`): one holder, and a bounded queue served by kind rank and then by arrival.

    A ticket is the identity of a `granted` future.  The heap of waiting requests is kept in service
    order, so the heap's pop is the removal of the first entry. */
module GenerationSlots {
  import opened Options

  /** The index of a future in `SlotState.futures`; futures are only ever created, never destroyed. */
  type Ticket = nat

  /** `Pending`: nobody completed it.  `Granted`: `set_result`.  `Cancelled`: the task awaiting it was
      cancelled, or its place in the queue was given up. */
  datatype Fut = Pending | Granted | Cancelled

  datatype Entry = Entry(rank: nat, arrival: nat, ticket: Ticket)

  datatype SlotState = SlotState(holder: Option<Ticket>, waiting: seq<Entry>, arrivals: nat, futures: seq<Fut>)

  const FreeSlot := SlotState(None, [], 0, [])

  /** The order of service: smaller rank first, then earlier arrival. */
  predicate Before(a: Entry, b: Entry) {
    a.rank < b.rank || (a.rank == b.rank && a.arrival < b.arrival)
  }

  ghost predicate InServiceOrder(w: seq<Entry>) {
    forall i, j | 0 <= i < j < |w| :: Before(w[i], w[j])
  }

  ghost predicate HasPlace(w: seq<Entry>, t: Ticket) {
    exists i | 0 <= i < |w| :: w[i].ticket == t
  }

  /** A waiter nobody cancelled. */
  predicate Live(e: Entry, futures: seq<Fut>) {
    e.ticket < |futures| && futures[e.ticket].Pending?
  }

  ghost predicate EntryOk(s: SlotState, e: Entry) {
    e.ticket < |s.futures| && !s.futures[e.ticket].Granted? && e.arrival < s.arrivals
  }

  /** What every operation of the slot keeps.  The fifth clause says that a free slot has nobody waiting,
      the sixth that no waiter is ever lost. */
  ghost predicate Valid(s: SlotState) {
    && InServiceOrder(s.waiting)
    && (forall i | 0 <= i < |s.waiting| :: EntryOk(s, s.waiting[i]))
    && (forall i, j | 0 <= i < j < |s.waiting| :: s.waiting[i].ticket != s.waiting[j].ticket)
    && (s.holder.Some? ==> s.holder.value < |s.futures| && s.futures[s.holder.value].Granted?)
    && (s.holder.None? ==> s.waiting == [])
    && (forall t | 0 <= t < |s.futures| :: s.futures[t].Pending? ==> HasPlace(s.waiting, t))
  }

  // ------------------------------------------------------------------ operations on values

  /** `heapq.heappush`: `e` at its place in the order of service. */
  function Push(w: seq<Entry>, e: Entry): seq<Entry> {
    if w == [] || Before(w[|w| - 1], e) then w + [e] else Push(w[..|w| - 1], e) + [w[|w| - 1]]
  }

  /** `[entry for entry in waiting if entry[2] is not granted]` */
  function Without(w: seq<Entry>, t: Ticket): (r: seq<Entry>)
    ensures |r| <= |w|
  {
    if w == [] then []
    else if w[0].ticket == t then Without(w[1..], t)
    else [w[0]] + Without(w[1..], t)
  }

  /** Index of the first live waiter, `|w|` when there is none. */
  function FirstLive(w: seq<Entry>, futures: seq<Fut>): (k: nat)
    ensures k <= |w|
    ensures forall i | 0 <= i < k :: !Live(w[i], futures)
    ensures k < |w| ==> Live(w[k], futures)
  {
    if w == [] || Live(w[0], futures) then 0
    else
      var k := FirstLive(w[1..], futures) + 1;
      assert forall i | 1 <= i < k :: w[i] == w[1..][i - 1];
      k
  }

  /** `_pass_on`: pop until a live waiter is found and complete its future; nobody live leaves the slot free. */
  function PassOn(s: SlotState): SlotState {
    var k := FirstLive(s.waiting, s.futures);
    if k == |s.waiting| then s.(holder := None, waiting := [])
    else
      var t := s.waiting[k].ticket;
      s.(holder := Some(t), waiting := s.waiting[k + 1..], futures := s.futures[t := Granted])
  }

  predicate IsFull(s: SlotState, maxQueued: nat) {
    s.holder.Some? && |s.waiting| >= maxQueued
  }

  /** `reserve`: the new ticket is `|s.futures|`. */
  function Reserve(s: SlotState, rank: nat): SlotState {
    var t := |s.futures|;
    if s.holder.None? then s.(holder := Some(t), futures := s.futures + [Granted])
    else s.(waiting := Push(s.waiting, Entry(rank, s.arrivals, t)), arrivals := s.arrivals + 1,
            futures := s.futures + [Pending])
  }

  /** `granted.cancel()`: a completed future stays completed. */
  function CancelFuture(s: SlotState, t: Ticket): SlotState
    requires t < |s.futures|
  {
    if s.futures[t].Pending? then s.(futures := s.futures[t := Cancelled]) else s
  }

  function Release(s: SlotState, t: Ticket): SlotState
    requires t < |s.futures|
  {
    if s.holder == Some(t) then PassOn(s)
    else
      var remaining := Without(s.waiting, t);
      if |remaining| != |s.waiting| then CancelFuture(s.(waiting := remaining), t) else s
  }

  // ------------------------------------------------------------------ what they keep

  lemma PushKeeps(w: seq<Entry>, e: Entry)
    requires InServiceOrder(w)
    requires forall i | 0 <= i < |w| :: w[i].arrival < e.arrival && w[i].ticket != e.ticket
    requires forall i, j | 0 <= i < j < |w| :: w[i].ticket != w[j].ticket
    ensures InServiceOrder(Push(w, e)) && |Push(w, e)| == |w| + 1
    ensures forall x :: x in Push(w, e) <==> x == e || x in w
    ensures forall t: Ticket :: HasPlace(Push(w, e), t) <==> t == e.ticket || HasPlace(w, t)
    ensures forall i, j | 0 <= i < j < |Push(w, e)| :: Push(w, e)[i].ticket != Push(w, e)[j].ticket
  {
    PushStaysInOrder(w, e);
    PushAddsOnePlace(w, e);
  }

  lemma {:induction false} PushStaysInOrder(w: seq<Entry>, e: Entry)
    requires InServiceOrder(w)
    requires forall i | 0 <= i < |w| :: w[i].arrival < e.arrival && w[i].ticket != e.ticket
    requires forall i, j | 0 <= i < j < |w| :: w[i].ticket != w[j].ticket
    ensures InServiceOrder(Push(w, e)) && |Push(w, e)| == |w| + 1
    ensures forall x :: x in Push(w, e) <==> x == e || x in w
    ensures forall i, j | 0 <= i < j < |Push(w, e)| :: Push(w, e)[i].ticket != Push(w, e)[j].ticket
  {
    var p := Push(w, e);
    if w == [] || Before(w[|w| - 1], e) {
      assert p == w + [e];
    } else {
      var front, last := w[..|w| - 1], w[|w| - 1];
      PushStaysInOrder(front, e);
      assert w == front + [last];
      assert forall i | 0 <= i < |front| + 1 :: p[i] == Push(front, e)[i];
      assert forall i | 0 <= i < |front| + 1 :: p[i] in Push(front, e);
      assert forall i | 0 <= i < |front| :: front[i] == w[i];
    }
  }

  lemma PushAddsOnePlace(w: seq<Entry>, e: Entry)
    requires forall x :: x in Push(w, e) <==> x == e || x in w
    ensures forall t: Ticket :: HasPlace(Push(w, e), t) <==> t == e.ticket || HasPlace(w, t)
  {
    assert e in Push(w, e);
    forall t: Ticket ensures HasPlace(Push(w, e), t) <==> t == e.ticket || HasPlace(w, t) {
      PlaceIsMembership(Push(w, e), t);
      PlaceIsMembership(w, t);
    }
  }

  lemma PlaceIsMembership(w: seq<Entry>, t: Ticket)
    ensures HasPlace(w, t) <==> exists x :: x in w && x.ticket == t
  {
    if HasPlace(w, t) {
      var i :| 0 <= i < |w| && w[i].ticket == t;
      assert w[i] in w;
    }
  }

  lemma {:induction false} WithoutSelects(w: seq<Entry>, t: Ticket)
    ensures forall x :: x in Without(w, t) <==> x in w && x.ticket != t
    ensures !HasPlace(w, t) ==> Without(w, t) == w
    ensures HasPlace(w, t) ==> |Without(w, t)| < |w|
  {
    if w != [] {
      var rest := w[1..];
      WithoutSelects(rest, t);
      assert w == [w[0]] + rest;
      if !HasPlace(w, t) {
        assert forall i | 0 <= i < |rest| :: rest[i] == w[i + 1];
      } else if w[0].ticket != t {
        var i :| 0 <= i < |w| && w[i].ticket == t;
        assert rest[i - 1].ticket == t;
      }
    }
  }

  lemma {:induction false} WithoutKeepsOrder(w: seq<Entry>, t: Ticket)
    requires InServiceOrder(w)
    requires forall i, j | 0 <= i < j < |w| :: w[i].ticket != w[j].ticket
    ensures InServiceOrder(Without(w, t))
    ensures forall i, j | 0 <= i < j < |Without(w, t)| :: Without(w, t)[i].ticket != Without(w, t)[j].ticket
  {
    if w != [] {
      var first, rest := w[0], w[1..];
      WithoutKeepsOrder(rest, t);
      WithoutSelects(rest, t);
      var r := Without(rest, t);
      assert forall i | 0 <= i < |r| :: r[i] in r;
      if first.ticket != t {
        InFront(first, r);
      }
    }
  }

  lemma InFront(first: Entry, r: seq<Entry>)
    requires InServiceOrder(r) && forall i, j | 0 <= i < j < |r| :: r[i].ticket != r[j].ticket
    requires forall i | 0 <= i < |r| :: Before(first, r[i]) && first.ticket != r[i].ticket
    ensures InServiceOrder([first] + r)
    ensures forall i, j | 0 <= i < j < |[first] + r| :: ([first] + r)[i].ticket != ([first] + r)[j].ticket
  {
  }

  /** Hand-over: the slot goes to the live waiter before every other live waiter, and is freed exactly when
      nobody live waits. */
  lemma HandOverGoesToTheLeastLiveWaiter(s: SlotState)
    requires Valid(s) && s.holder.Some?
    ensures var r := PassOn(s);
            && (r.holder.None? <==> forall e | e in s.waiting :: !Live(e, s.futures))
            && (r.holder.Some? ==>
                  exists next | next in s.waiting ::
                    && next.ticket == r.holder.value
                    && Live(next, s.futures)
                    && forall e | e in s.waiting && Live(e, s.futures) :: e == next || Before(next, e))
  {
    var k := FirstLive(s.waiting, s.futures);
    if k < |s.waiting| {
      var next := s.waiting[k];
      assert next in s.waiting;
      forall e | e in s.waiting && Live(e, s.futures) ensures e == next || Before(next, e) {
        var i :| 0 <= i < |s.waiting| && s.waiting[i] == e;
        assert k <= i;
      }
    }
  }

  lemma ReserveKeepsValid(s: SlotState, rank: nat)
    requires Valid(s)
    ensures Valid(Reserve(s, rank))
    ensures s.holder.Some? ==> |Reserve(s, rank).waiting| == |s.waiting| + 1
    ensures forall u: Ticket :: HasPlace(Reserve(s, rank).waiting, u) ==> HasPlace(s.waiting, u) || u == |s.futures|
  {
    if s.holder.Some? {
      var e := Entry(rank, s.arrivals, |s.futures|);
      PushKeeps(s.waiting, e);
      var r := Reserve(s, rank);
      forall i | 0 <= i < |r.waiting| ensures EntryOk(r, r.waiting[i]) {
        assert r.waiting[i] in r.waiting;
        if r.waiting[i] != e {
          assert r.waiting[i] in s.waiting;
        }
      }
    }
  }

  lemma CancelFutureKeepsValid(s: SlotState, t: Ticket)
    requires Valid(s) && t < |s.futures|
    ensures Valid(CancelFuture(s, t))
  {
    var r := CancelFuture(s, t);
    forall i | 0 <= i < |r.waiting| ensures EntryOk(r, r.waiting[i]) {
      assert EntryOk(s, s.waiting[i]);
    }
  }

  lemma PassOnKeepsValid(s: SlotState)
    requires Valid(s) && s.holder.Some?
    ensures Valid(PassOn(s))
  {
    var r := PassOn(s);
    var k := FirstLive(s.waiting, s.futures);
    forall u | 0 <= u < |s.futures| && s.futures[u].Pending?
      ensures k < |s.waiting| && (s.waiting[k].ticket == u || HasPlace(s.waiting[k + 1..], u))
    {
      var i :| 0 <= i < |s.waiting| && s.waiting[i].ticket == u;
      assert Live(s.waiting[i], s.futures);
      assert k <= i;
      assert k < i ==> s.waiting[k + 1..][i - k - 1].ticket == u;
    }
    if k < |s.waiting| {
      forall i | 0 <= i < |r.waiting| ensures EntryOk(r, r.waiting[i]) {
        assert r.waiting[i] == s.waiting[i + k + 1] && EntryOk(s, s.waiting[i + k + 1]);
      }
    }
  }

  /** What `_pass_on` touches. */
  lemma PassOnFrame(s: SlotState)
    requires Valid(s) && s.holder.Some?
    ensures var r := PassOn(s);
            && r.holder != s.holder && |r.futures| == |s.futures| && |r.waiting| <= |s.waiting|
            && (forall u: Ticket :: HasPlace(r.waiting, u) ==> HasPlace(s.waiting, u))
            && (r.holder.Some? ==> s.futures[r.holder.value].Pending?)
            && (forall u | 0 <= u < |s.futures| :: r.futures[u] != s.futures[u] ==> r.holder == Some(u))
  {
    var r := PassOn(s);
    var k := FirstLive(s.waiting, s.futures);
    if k < |s.waiting| {
      forall u: Ticket | HasPlace(r.waiting, u) ensures HasPlace(s.waiting, u) {
        var i :| 0 <= i < |r.waiting| && r.waiting[i].ticket == u;
        assert r.waiting[i] == s.waiting[i + k + 1];
      }
    }
  }

  /** Giving up the slot or a place keeps the slot valid, ends `t`'s claim, never lengthens the queue and
      touches no future but `t`'s and the next holder's. */
  lemma ReleaseKeepsValid(s: SlotState, t: Ticket)
    requires Valid(s) && t < |s.futures|
    ensures var r := Release(s, t);
            && Valid(r)
            && r.holder != Some(t) && !HasPlace(r.waiting, t)
            && |r.futures| == |s.futures| && |r.waiting| <= |s.waiting|
            && (forall u: Ticket :: HasPlace(r.waiting, u) ==> HasPlace(s.waiting, u))
            && (s.holder != Some(t) ==> r.holder == s.holder)
            && (s.holder == Some(t) && r.holder.Some? ==> s.futures[r.holder.value].Pending?)
            && (forall u | 0 <= u < |s.futures| :: r.futures[u] != s.futures[u] ==> u == t || r.holder == Some(u))
  {
    var r := Release(s, t);
    if s.holder == Some(t) {
      PassOnKeepsValid(s);
      PassOnFrame(s);
    } else {
      WithoutSelects(s.waiting, t);
      WithoutKeepsOrder(s.waiting, t);
      var w := Without(s.waiting, t);
      forall u: Ticket ensures HasPlace(w, u) <==> HasPlace(s.waiting, u) && u != t {
        PlaceIsMembership(w, u);
        PlaceIsMembership(s.waiting, u);
      }
      if |w| != |s.waiting| {
        forall i | 0 <= i < |r.waiting| ensures EntryOk(r, r.waiting[i]) {
          assert w[i] in w && w[i] in s.waiting;
        }
      }
    }
  }

  // ------------------------------------------------------------------ the object

  /** `_GenerationSlot` with the futures it handed out. */
  class GenerationSlot {
    const maxQueued: nat
    var holder: Option<Ticket>
    var waiting: seq<Entry>
    var arrivals: nat
    var futures: seq<Fut>

    ghost function View(): SlotState
      reads this
    {
      SlotState(holder, waiting, arrivals, futures)
    }

    constructor (maxQueued: nat)
      ensures this.maxQueued == maxQueued && View() == FreeSlot && Valid(View())
    {
      this.maxQueued := maxQueued;
      holder, waiting, arrivals, futures := None, [], 0, [];
    }

    method TestFull() returns (full: bool)
      ensures full == IsFull(View(), maxQueued)
    {
      full := holder.Some? && |waiting| >= maxQueued;
    }

    /** The heap push, as an insertion that walks back from the end of the order of service. */
    method PushEntry(e: Entry)
      modifies this`waiting
      ensures waiting == Push(old(waiting), e)
    {
      var i := |waiting|;
      assert waiting[..i] == waiting && Push(waiting, e) + [] == Push(waiting, e);
      while i > 0 && !Before(waiting[i - 1], e)
        invariant 0 <= i <= |waiting| && waiting == old(waiting)
        invariant Push(waiting, e) == Push(waiting[..i], e) + waiting[i..]
      {
        assert waiting[..i][..i - 1] == waiting[..i - 1];
        assert Push(waiting[..i], e) + waiting[i..] == Push(waiting[..i - 1], e) + waiting[i - 1..];
        i := i - 1;
      }
      assert waiting[..i] + [e] + waiting[i..] == Push(waiting, e);
      waiting := waiting[..i] + [e] + waiting[i..];
    }

    method ReservePlace(rank: nat) returns (granted: Ticket)
      requires Valid(View())
      modifies this
      ensures View() == Reserve(old(View()), rank) && granted == |old(futures)|
      ensures Valid(View())
      ensures !IsFull(old(View()), maxQueued) && |old(waiting)| <= maxQueued ==> |waiting| <= maxQueued
    {
      ReserveKeepsValid(View(), rank);
      granted := |futures|;
      if holder.None? {
        holder, futures := Some(granted), futures + [Granted];
      } else {
        futures := futures + [Pending];
        PushEntry(Entry(rank, arrivals, granted));
        arrivals := arrivals + 1;
      }
    }

    /** The comprehension over the queue. */
    method WithoutTicket(granted: Ticket) returns (remaining: seq<Entry>)
      ensures remaining == Without(waiting, granted)
    {
      remaining := [];
      for i := 0 to |waiting|
        invariant Without(waiting, granted) == remaining + Without(waiting[i..], granted)
      {
        assert waiting[i..] == [waiting[i]] + waiting[i + 1..];
        if waiting[i].ticket != granted {
          remaining := remaining + [waiting[i]];
        }
      }
    }

    /** Idempotent, and also removes a place that is still waiting. */
    method ReleaseTicket(granted: Ticket)
      requires Valid(View()) && granted < |futures|
      modifies this
      ensures View() == Release(old(View()), granted)
      ensures Valid(View()) && holder != Some(granted) && !HasPlace(waiting, granted)
    {
      ReleaseKeepsValid(View(), granted);
      if holder == Some(granted) {
        PassTheSlotOn();
        return;
      }
      var remaining := WithoutTicket(granted);
      if |remaining| != |waiting| {
        waiting := remaining;
        if futures[granted].Pending? {
          futures := futures[granted := Cancelled];
        }
      }
    }

    method PassTheSlotOn()
      modifies this
      ensures View() == PassOn(old(View()))
    {
      holder := None;
      ghost var k := FirstLive(waiting, futures);
      ghost var popped := 0;
      while waiting != []
        invariant holder == None && futures == old(futures) && arrivals == old(arrivals)
        invariant popped <= k && waiting == old(waiting)[popped..]
        decreases |waiting|
      {
        var next := waiting[0];
        waiting := waiting[1..];
        if Live(next, futures) {
          holder, futures := Some(next.ticket), futures[next.ticket := Granted];
          return;
        }
        popped := popped + 1;
      }
    }
  }
}
