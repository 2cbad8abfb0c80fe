/** The ordered dictionary of the embedder cache refines a least-recently-used cache over the unpinned names,
    stated with a time stamp per name and no order: a use renews the stamp of its name, and a cache that
    outgrew its size gives up the names with the oldest stamps. */
module LruRefinement {
  import opened Sorting
  import opened EmbedderCache

  datatype Lru = Lru(stamps: map<string, nat>, clock: nat)

  /** What a step of the cache is to its user. */
  datatype Op = Used(name: string) | Loaded(name: string) | Dropped(name: string) | Idle

  function Use(l: Lru, name: string): Lru {
    Lru(l.stamps[name := l.clock], l.clock + 1)
  }

  /** `t` is `l` cut down to `maxSize` names: what is given up is older than everything kept. */
  ghost predicate Trimmed(l: Lru, maxSize: nat, t: Lru) {
    && t.clock == l.clock
    && (forall n | n in t.stamps :: n in l.stamps && t.stamps[n] == l.stamps[n])
    && |t.stamps| == (if |l.stamps| > maxSize then maxSize else |l.stamps|)
    && (forall kept, gone | kept in t.stamps && gone in l.stamps && gone !in t.stamps ::
        l.stamps[gone] < l.stamps[kept])
  }

  ghost predicate LruStep(l: Lru, maxSize: nat, op: Op, t: Lru) {
    match op
    case Used(n) => n in l.stamps && t == Use(l, n)
    case Loaded(n) => n !in l.stamps && Trimmed(Use(l, n), maxSize, t)
    case Dropped(n) => t == l.(stamps := l.stamps - {n})
    case Idle => t == l
  }

  function OpOf(s: Sys, pinned: set<string>, e: Event): Op
    requires Enabled(s, e)
  {
    match e
    case EnterCheck(i) =>
      if s.cos[i].name in s.reg.order && s.cos[i].name !in pinned then Used(s.cos[i].name) else Idle
    case StoreAndEvict(i) => Loaded(s.cos[i].name)
    case WarmUpFails(name, warm) => if name in s.reg.order && !warm && name !in pinned then Dropped(name) else Idle
    case _ => Idle
  }

  ghost predicate Increasing(u: seq<string>, stamps: map<string, nat>) {
    && (forall i | 0 <= i < |u| :: u[i] in stamps)
    && (forall i, j | 0 <= i < j < |u| :: stamps[u[i]] < stamps[u[j]])
  }

  /** The unpinned names of the dictionary are the names of the abstract cache, oldest first. */
  ghost predicate Refines(u: seq<string>, l: Lru) {
    && (forall n :: n in l.stamps <==> n in u)
    && Increasing(u, l.stamps)
    && (forall n | n in l.stamps :: l.stamps[n] < l.clock)
  }

  lemma {:induction false} IncreasingAfterRemove(u: seq<string>, stamps: map<string, nat>, name: string)
    requires Increasing(u, stamps)
    ensures Increasing(Remove(u, name), stamps)
    ensures forall n :: n in Remove(u, name) <==> n in u && n != name
  {
    IncreasingIsDistinct(u, stamps);
    RemoveKeeps(u, name);
    if u != [] {
      var rest := u[1..];
      assert u == [u[0]] + rest;
      assert forall i | 0 <= i < |rest| :: rest[i] == u[i + 1];
      IncreasingAfterRemove(rest, stamps, name);
      IncreasingFrom(u[0], Remove(rest, name), stamps);
    }
  }

  lemma IncreasingFrom(x: string, u: seq<string>, stamps: map<string, nat>)
    requires x in stamps && Increasing(u, stamps) && forall n | n in u :: stamps[x] < stamps[n]
    ensures Increasing([x] + u, stamps)
  {
  }

  lemma IncreasingIsDistinct(u: seq<string>, stamps: map<string, nat>)
    requires Increasing(u, stamps)
    ensures Distinct(u)
  {
    forall i, j | 0 <= i < j < |u| ensures u[i] != u[j] {
      assert stamps[u[i]] < stamps[u[j]];
    }
  }

  lemma UsingRefines(u: seq<string>, l: Lru, name: string)
    requires Refines(u, l)
    ensures Refines(Remove(u, name) + [name], Use(l, name))
  {
    IncreasingAfterRemove(u, l.stamps, name);
    var r := Remove(u, name);
    var t := Use(l, name);
    forall i | 0 <= i < |r| ensures r[i] in l.stamps && t.stamps[r[i]] == l.stamps[r[i]] < l.clock {
      assert r[i] in r;
    }
  }

  function Last(u: seq<string>, maxSize: nat): seq<string> {
    if |u| > maxSize then u[|u| - maxSize..] else u
  }

  function Kept(l: Lru, kept: seq<string>): Lru {
    l.(stamps := map n | n in l.stamps && n in kept :: l.stamps[n])
  }

  lemma TheFrontIsOlder(u: seq<string>, l: Lru, d: nat, old': string, young: string)
    requires Refines(u, l) && d <= |u| && young in u[d..] && old' in u && old' !in u[d..]
    ensures l.stamps[old'] < l.stamps[young]
  {
    var i :| 0 <= i < |u| && u[i] == old';
    var j :| 0 <= j < |u[d..]| && u[d..][j] == young;
    assert u[j + d] == young;
  }

  lemma TheBackRefines(u: seq<string>, l: Lru, d: nat)
    requires Refines(u, l) && d <= |u|
    ensures Refines(u[d..], Kept(l, u[d..])) && |Kept(l, u[d..]).stamps| == |u| - d
  {
    var kept := u[d..];
    assert forall i | 0 <= i < |kept| :: kept[i] == u[i + d] && kept[i] in u;
    IncreasingIsDistinct(u, l.stamps);
    assert Distinct(kept);
    DistinctCount(kept);
    assert Kept(l, kept).stamps.Keys == Members(kept);
  }

  /** Cutting off the front of the order trims the abstract cache. */
  lemma TrimmingRefines(u: seq<string>, l: Lru, maxSize: nat) returns (t: Lru)
    requires Refines(u, l)
    ensures Trimmed(l, maxSize, t)
    ensures Refines(Last(u, maxSize), t)
  {
    IncreasingIsDistinct(u, l.stamps);
    DistinctCount(u);
    assert l.stamps.Keys == Members(u);
    if |u| <= maxSize {
      t := l;
    } else {
      var d := |u| - maxSize;
      t := Kept(l, u[d..]);
      TheBackRefines(u, l, d);
      forall young, old' | young in t.stamps && old' in l.stamps && old' !in t.stamps
        ensures l.stamps[old'] < l.stamps[young]
      {
        TheFrontIsOlder(u, l, d, old', young);
      }
    }
  }

  lemma DroppingRefines(u: seq<string>, l: Lru, name: string)
    requires Refines(u, l)
    ensures Refines(Remove(u, name), l.(stamps := l.stamps - {name}))
  {
    IncreasingAfterRemove(u, l.stamps, name);
    var r := Remove(u, name);
    assert forall i | 0 <= i < |r| :: r[i] in r;
  }

  lemma UnpinnedOfToEnd(order: seq<string>, pinned: set<string>, name: string)
    requires Distinct(order)
    ensures var u := Unpinned(order, pinned);
            Unpinned(ToEnd(order, name), pinned) == if name in pinned then u else Remove(u, name) + [name]
    ensures name in Unpinned(order, pinned) <==> name in order && name !in pinned
  {
    UnpinnedSelects(order, pinned);
    UnpinnedOfRemove(order, pinned, name);
    UnpinnedOfAppend(Remove(order, name), pinned, name);
    if name in pinned {
      AbsentIsNotRemoved(Unpinned(order, pinned), name);
    }
  }

  lemma CheckRefines(order: seq<string>, pinned: set<string>, name: string, l: Lru)
    requires Distinct(order) && name in order && Refines(Unpinned(order, pinned), l)
    ensures Refines(Unpinned(ToEnd(order, name), pinned), if name in pinned then l else Use(l, name))
    ensures name !in pinned ==> name in l.stamps
  {
    UnpinnedOfToEnd(order, pinned, name);
    UsingRefines(Unpinned(order, pinned), l, name);
  }

  lemma UnpinnedOfStored(order: seq<string>, pinned: set<string>, maxSize: nat, name: string)
    requires Distinct(order) && name !in pinned
    ensures var u := Remove(Unpinned(order, pinned), name) + [name];
            Unpinned(Stored(order, pinned, maxSize, name), pinned) == Last(u, maxSize)
  {
    StoredKeepsTheMostRecent(order, pinned, maxSize, name);
  }

  lemma LoadRefines(u: seq<string>, maxSize: nat, name: string, l: Lru) returns (t: Lru)
    requires Refines(u, l) && name !in u
    ensures LruStep(l, maxSize, Loaded(name), t)
    ensures Refines(Last(Remove(u, name) + [name], maxSize), t)
  {
    UsingRefines(u, l, name);
    t := TrimmingRefines(Remove(u, name) + [name], Use(l, name), maxSize);
  }

  lemma StoreRefines(order: seq<string>, pinned: set<string>, maxSize: nat, name: string, l: Lru) returns (t: Lru)
    requires Distinct(order) && name !in order && name !in pinned && Refines(Unpinned(order, pinned), l)
    ensures LruStep(l, maxSize, Loaded(name), t)
    ensures Refines(Unpinned(Stored(order, pinned, maxSize, name), pinned), t)
  {
    var u := Unpinned(order, pinned);
    UnpinnedOfStored(order, pinned, maxSize, name);
    assert name !in u by {
      UnpinnedOfToEnd(order, pinned, name);
    }
    t := LoadRefines(u, maxSize, name, l);
  }

  /** One step of the cache is one step of the abstract cache. */
  lemma StepRefines(s: Sys, pinned: set<string>, maxSize: nat, e: Event, l: Lru) returns (t: Lru)
    requires Inv(s, pinned, maxSize) && Enabled(s, e) && Refines(Unpinned(s.reg.order, pinned), l)
    ensures LruStep(l, maxSize, OpOf(s, pinned, e), t)
    ensures Refines(Unpinned(Step(s, pinned, maxSize, e).reg.order, pinned), t)
  {
    t := l;
    match e {
      case EnterCheck(i) =>
        if s.cos[i].name in s.reg.order {
          CheckRefines(s.reg.order, pinned, s.cos[i].name, l);
          t := if s.cos[i].name in pinned then l else Use(l, s.cos[i].name);
        }
      case StoreAndEvict(i) =>
        assert CoOk(s.reg, s.cos[i]);
        t := StoreRefines(s.reg.order, pinned, maxSize, s.cos[i].name, l);
      case WarmUpFails(name, warm) =>
        if name in s.reg.order && !warm && name !in pinned {
          UnpinnedOfRemove(s.reg.order, pinned, name);
          DroppingRefines(Unpinned(s.reg.order, pinned), l, name);
          t := l.(stamps := l.stamps - {name});
        }
      case _ =>
    }
  }

  /** Every run of the cache is a run of the abstract cache. */
  lemma {:induction false} CacheRefinesLru(run: seq<Sys>, events: seq<Event>, pinned: set<string>, maxSize: nat, k: nat)
    returns (model: seq<Lru>)
    requires IsRun(run, events, pinned, maxSize) && k < |run|
    ensures |model| == k + 1 && model[0].stamps == map[]
    ensures forall i | 0 <= i <= k :: Refines(Unpinned(run[i].reg.order, pinned), model[i])
    ensures forall i | 0 <= i < k :: LruStep(model[i], maxSize, OpOf(run[i], pinned, events[i]), model[i + 1])
  {
    if k == 0 {
      OnlyPinned(run[0].reg.order, pinned);
      model := [Lru(map[], 0)];
    } else {
      var before := k - 1;
      var prefix := CacheRefinesLru(run, events, pinned, maxSize, before);
      RunsKeepInv(run, events, pinned, maxSize, before);
      RunStep(run, events, pinned, maxSize, before);
      var t := StepRefines(run[before], pinned, maxSize, events[before], prefix[before]);
      model := prefix + [t];
    }
  }
}
