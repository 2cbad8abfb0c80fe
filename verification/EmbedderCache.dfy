/** The LRU cache of embedders with deduplicated loads (archon_search/embedder_cache.py).

    A coroutine inside `get_or_load` is parked at one of four awaits: the lock of the check, the event of
    another coroutine's load, its own load thread, the lock of the store.  Every stretch between two of them
    is one event, any number of coroutines interleave, and a cancellation may arrive at every await. */
module EmbedderCache {
  import opened Sorting

  /** `order` is the `OrderedDict`, least recently used first; `loading` the registry of loads in progress;
      `fired` the events that were set.  Events are numbered in the order of their creation. */
  datatype Registry = Registry(order: seq<string>, loading: map<string, nat>, fired: set<nat>, nextEvent: nat)

  // ------------------------------------------------------------------ the ordered dictionary

  function Remove(order: seq<string>, name: string): seq<string> {
    if order == [] then []
    else if order[0] == name then Remove(order[1..], name)
    else [order[0]] + Remove(order[1..], name)
  }

  /** Assignment of a key followed by `move_to_end`, for a new and for a known key. */
  function ToEnd(order: seq<string>, name: string): seq<string> {
    Remove(order, name) + [name]
  }

  /** `[name for name in self._cache if name not in self._pinned]` */
  function Unpinned(order: seq<string>, pinned: set<string>): seq<string> {
    if order == [] then []
    else if order[0] in pinned then Unpinned(order[1..], pinned)
    else [order[0]] + Unpinned(order[1..], pinned)
  }

  /** Pop the `count` least recently used unpinned names. */
  function DropOldest(order: seq<string>, pinned: set<string>, count: nat): seq<string> {
    if order == [] || count == 0 then order
    else if order[0] in pinned then [order[0]] + DropOldest(order[1..], pinned, count)
    else DropOldest(order[1..], pinned, count - 1)
  }

  function Excess(order: seq<string>, pinned: set<string>, maxSize: nat): nat {
    var n := |Unpinned(order, pinned)|;
    if n > maxSize then n - maxSize else 0
  }

  /** The store section: insert as most recently used, then evict down to `maxSize` unpinned names. */
  function Stored(order: seq<string>, pinned: set<string>, maxSize: nat, name: string): seq<string> {
    var o := ToEnd(order, name);
    DropOldest(o, pinned, Excess(o, pinned, maxSize))
  }

  lemma {:induction false} RemoveKeeps(order: seq<string>, name: string)
    requires Distinct(order)
    ensures Distinct(Remove(order, name))
    ensures forall n :: n in Remove(order, name) <==> n in order && n != name
  {
    if order != [] {
      RemoveKeeps(order[1..], name);
      assert order == [order[0]] + order[1..];
      assert forall i | 0 <= i < |order[1..]| :: order[1..][i] == order[i + 1];
      DistinctAround(order[0], Remove(order[1..], name));
    }
  }

  lemma {:induction false} UnpinnedSelects(order: seq<string>, pinned: set<string>)
    requires Distinct(order)
    ensures Distinct(Unpinned(order, pinned))
    ensures forall n :: n in Unpinned(order, pinned) <==> n in order && n !in pinned
  {
    if order != [] {
      UnpinnedSelects(order[1..], pinned);
      assert order == [order[0]] + order[1..];
      assert forall i | 0 <= i < |order[1..]| :: order[1..][i] == order[i + 1];
    }
  }

  lemma {:induction false} UnpinnedOfRemove(order: seq<string>, pinned: set<string>, name: string)
    ensures Unpinned(Remove(order, name), pinned) == Remove(Unpinned(order, pinned), name)
  {
    if order != [] {
      UnpinnedOfRemove(order[1..], pinned, name);
      var rest := Unpinned(order[1..], pinned);
      assert order[0] !in pinned ==> ([order[0]] + rest)[1..] == rest;
      if order[0] != name {
        assert ([order[0]] + Remove(order[1..], name))[1..] == Remove(order[1..], name);
      }
    }
  }

  lemma {:induction false} UnpinnedOfAppend(order: seq<string>, pinned: set<string>, name: string)
    ensures Unpinned(order + [name], pinned) == Unpinned(order, pinned) + (if name in pinned then [] else [name])
  {
    if order != [] {
      UnpinnedOfAppend(order[1..], pinned, name);
      assert (order + [name])[1..] == order[1..] + [name];
    }
  }

  lemma {:induction false} DropOldestKeeps(order: seq<string>, pinned: set<string>, count: nat)
    requires Distinct(order)
    ensures Distinct(DropOldest(order, pinned, count))
    ensures forall n :: n in DropOldest(order, pinned, count) ==> n in order
    ensures forall n :: n in order && n in pinned ==> n in DropOldest(order, pinned, count)
  {
    if order != [] && count > 0 {
      var rest := order[1..];
      assert order == [order[0]] + rest;
      assert forall i | 0 <= i < |rest| :: rest[i] == order[i + 1];
      if order[0] in pinned {
        DropOldestKeeps(rest, pinned, count);
        DistinctAround(order[0], DropOldest(rest, pinned, count));
      } else {
        DropOldestKeeps(rest, pinned, count - 1);
      }
    }
  }

  lemma {:induction false} DropOldestDrops(order: seq<string>, pinned: set<string>, count: nat)
    requires count <= |Unpinned(order, pinned)|
    ensures Unpinned(DropOldest(order, pinned, count), pinned) == Unpinned(order, pinned)[count..]
  {
    if order != [] && count > 0 {
      var rest := order[1..];
      if order[0] in pinned {
        DropOldestDrops(rest, pinned, count);
        assert ([order[0]] + DropOldest(rest, pinned, count))[1..] == DropOldest(rest, pinned, count);
      } else {
        DropOldestDrops(rest, pinned, count - 1);
        assert ([order[0]] + Unpinned(rest, pinned))[count..] == Unpinned(rest, pinned)[count - 1..];
      }
    }
  }

  /** The store section in terms of the unpinned names alone: append, then keep the last `maxSize`. */
  lemma StoredKeepsTheMostRecent(order: seq<string>, pinned: set<string>, maxSize: nat, name: string)
    requires Distinct(order) && name !in pinned
    ensures var u := Remove(Unpinned(order, pinned), name) + [name];
            Unpinned(Stored(order, pinned, maxSize, name), pinned) == (if |u| > maxSize then u[|u| - maxSize..] else u)
    ensures Distinct(Stored(order, pinned, maxSize, name))
    ensures forall n :: n in Stored(order, pinned, maxSize, name) ==> n in order || n == name
    ensures forall n :: n in order && n in pinned ==> n in Stored(order, pinned, maxSize, name)
  {
    RemoveKeeps(order, name);
    DistinctAround(name, Remove(order, name));
    UnpinnedOfRemove(order, pinned, name);
    UnpinnedOfAppend(Remove(order, name), pinned, name);
    DropOldestDrops(ToEnd(order, name), pinned, Excess(ToEnd(order, name), pinned, maxSize));
    DropOldestKeeps(ToEnd(order, name), pinned, Excess(ToEnd(order, name), pinned, maxSize));
  }

  // ------------------------------------------------------------------ the registry

  /** What the check section tells a coroutine. */
  datatype Verdict = Hit | Wait(event: nat) | Load(event: nat)

  /** The check section of `get_or_load`, under the lock. */
  function Check(r: Registry, name: string): (Registry, Verdict) {
    if name in r.order then (r.(order := ToEnd(r.order, name)), Hit)
    else if name in r.loading then (r, Wait(r.loading[name]))
    else (r.(loading := r.loading[name := r.nextEvent], nextEvent := r.nextEvent + 1), Load(r.nextEvent))
  }

  /** The `finally` of the loader region: drop whatever is registered under the name and wake its waiters. */
  function Unregister(r: Registry, name: string): Registry {
    if name in r.loading then r.(loading := r.loading - {name}, fired := r.fired + {r.loading[name]}) else r
  }

  /** `preload` after a failed warm-up: a cold, unpinned embedder is not left in the cache. */
  function AfterFailedWarmUp(r: Registry, pinned: set<string>, name: string, warm: bool): Registry {
    if name in r.order && !warm && name !in pinned then r.(order := Remove(r.order, name)) else r
  }

  // ------------------------------------------------------------------ coroutines

  /** `Loading` and `Storing` are the loader region. */
  datatype Pc = AtLock | Waiting(event: nat) | Loading(event: nat) | Storing(event: nat) | Left

  datatype Co = Co(name: string, pc: Pc)

  datatype Sys = Sys(reg: Registry, cos: seq<Co>)

  datatype Event =
    | Call(name: string)
    | EnterCheck(co: nat)
    | Wake(co: nat)
    | TimeOut(co: nat)
    | LoadDone(co: nat)
    | LoadFails(co: nat)
    | StoreAndEvict(co: nat)
    | Cancel(co: nat)
    | WarmUpFails(name: string, warm: bool)

  predicate InLoaderRegion(pc: Pc) {
    pc.Loading? || pc.Storing?
  }

  predicate Enabled(s: Sys, e: Event) {
    && (!e.Call? && !e.WarmUpFails? ==> e.co < |s.cos|)
    && match e
       case Call(_) => true
       case EnterCheck(i) => s.cos[i].pc.AtLock?
       case Wake(i) => s.cos[i].pc.Waiting? && s.cos[i].pc.event in s.reg.fired
       case TimeOut(i) => s.cos[i].pc.Waiting?
       case LoadDone(i) => s.cos[i].pc.Loading?
       case LoadFails(i) => s.cos[i].pc.Loading?
       case StoreAndEvict(i) => s.cos[i].pc.Storing?
       case Cancel(i) => !s.cos[i].pc.Left?
       case WarmUpFails(_, _) => true
  }

  function Move(s: Sys, i: nat, pc: Pc): Sys
    requires i < |s.cos|
  {
    s.(cos := s.cos[i := s.cos[i].(pc := pc)])
  }

  function LeaveLoader(s: Sys, i: nat): Sys
    requires i < |s.cos|
  {
    Move(s, i, Left).(reg := Unregister(s.reg, s.cos[i].name))
  }

  function Step(s: Sys, pinned: set<string>, maxSize: nat, e: Event): Sys
    requires Enabled(s, e)
  {
    match e
    case Call(name) => s.(cos := s.cos + [Co(name, AtLock)])
    case EnterCheck(i) =>
      var (reg, verdict) := Check(s.reg, s.cos[i].name);
      Move(s, i, match verdict case Hit => Left case Wait(ev) => Waiting(ev) case Load(ev) => Loading(ev)).(reg := reg)
    case Wake(i) => Move(s, i, AtLock)
    case TimeOut(i) => Move(s, i, Left)
    case LoadDone(i) => Move(s, i, Storing(s.cos[i].pc.event))
    case LoadFails(i) => LeaveLoader(s, i)
    case StoreAndEvict(i) =>
      LeaveLoader(s.(reg := s.reg.(order := Stored(s.reg.order, pinned, maxSize, s.cos[i].name))), i)
    case Cancel(i) => if InLoaderRegion(s.cos[i].pc) then LeaveLoader(s, i) else Move(s, i, Left)
    case WarmUpFails(name, warm) => s.(reg := AfterFailedWarmUp(s.reg, pinned, name, warm))
  }

  // ------------------------------------------------------------------ the invariant

  predicate IsLoader(cos: seq<Co>, i: nat, name: string) {
    i < |cos| && cos[i].name == name && InLoaderRegion(cos[i].pc)
  }

  /** A coroutine in the loader region owns the registration of its name, which is not cached meanwhile; a
      waiter's event is the registered one or was set. */
  ghost predicate CoOk(reg: Registry, co: Co) {
    && (InLoaderRegion(co.pc) ==>
        co.name in reg.loading && reg.loading[co.name] == co.pc.event && co.name !in reg.order)
    && (co.pc.Waiting? ==> co.pc.event in reg.fired || (co.name in reg.loading && reg.loading[co.name] == co.pc.event))
  }

  ghost predicate EventsOk(reg: Registry) {
    && (forall n | n in reg.loading :: reg.loading[n] < reg.nextEvent && reg.loading[n] !in reg.fired)
    && (forall m, n | m in reg.loading && n in reg.loading && reg.loading[m] == reg.loading[n] :: m == n)
    && (forall ev | ev in reg.fired :: ev < reg.nextEvent)
  }

  ghost predicate OrderOk(order: seq<string>, pinned: set<string>, maxSize: nat) {
    && Distinct(order)
    && (forall n | n in pinned :: n in order)
    && |Unpinned(order, pinned)| <= maxSize
  }

  ghost predicate Inv(s: Sys, pinned: set<string>, maxSize: nat) {
    && OrderOk(s.reg.order, pinned, maxSize)
    && EventsOk(s.reg)
    && (forall i | 0 <= i < |s.cos| :: CoOk(s.reg, s.cos[i]))
    && (forall n | n in s.reg.loading :: exists i: nat :: IsLoader(s.cos, i, n))
    && (forall i: nat, j: nat, n: string :: IsLoader(s.cos, i, n) && IsLoader(s.cos, j, n) ==> i == j)
  }

  /** `__init__`: the preloaded names, pinned, in the given order. */
  ghost predicate Start(s: Sys, pinned: set<string>) {
    && s.cos == [] && s.reg.loading == map[] && s.reg.fired == {}
    && Distinct(s.reg.order) && forall n :: n in s.reg.order <==> n in pinned
  }

  // ------------------------------------------------------------------ every event keeps it

  lemma {:induction false} OnlyPinned(order: seq<string>, pinned: set<string>)
    requires forall n | n in order :: n in pinned
    ensures Unpinned(order, pinned) == []
  {
    if order != [] {
      assert forall n | n in order[1..] :: n in order;
      OnlyPinned(order[1..], pinned);
    }
  }

  lemma TouchKeepsOrder(order: seq<string>, pinned: set<string>, maxSize: nat, name: string)
    requires OrderOk(order, pinned, maxSize) && name in order
    ensures OrderOk(ToEnd(order, name), pinned, maxSize)
    ensures forall n :: n in ToEnd(order, name) <==> n in order
  {
    RemoveKeeps(order, name);
    UnpinnedSelects(order, pinned);
    UnpinnedOfRemove(order, pinned, name);
    UnpinnedOfAppend(Remove(order, name), pinned, name);
    RemoveShortens(Unpinned(order, pinned), name);
  }

  lemma {:induction false} RemoveShortens(order: seq<string>, name: string)
    ensures |Remove(order, name)| <= |order|
    ensures name in order ==> |Remove(order, name)| < |order|
  {
    if order != [] {
      RemoveShortens(order[1..], name);
    }
  }

  lemma WarmUpKeepsOrder(order: seq<string>, pinned: set<string>, maxSize: nat, name: string)
    requires OrderOk(order, pinned, maxSize) && name !in pinned
    ensures OrderOk(Remove(order, name), pinned, maxSize)
    ensures forall n :: n in Remove(order, name) ==> n in order
  {
    RemoveKeeps(order, name);
    UnpinnedOfRemove(order, pinned, name);
    RemoveShortens(Unpinned(order, pinned), name);
  }

  lemma StoreKeepsOrder(order: seq<string>, pinned: set<string>, maxSize: nat, name: string)
    requires OrderOk(order, pinned, maxSize) && name !in order
    ensures OrderOk(Stored(order, pinned, maxSize, name), pinned, maxSize)
    ensures forall n :: n in Stored(order, pinned, maxSize, name) ==> n in order || n == name
  {
    StoredKeepsTheMostRecent(order, pinned, maxSize, name);
  }

  /** Leaving the loader region by any exit: the registration goes, its waiters are woken, nobody else's is touched. */
  lemma LeavingKeepsInv(s: Sys, pinned: set<string>, maxSize: nat, i: nat, order': seq<string>)
    requires Inv(s, pinned, maxSize) && i < |s.cos| && InLoaderRegion(s.cos[i].pc)
    requires OrderOk(order', pinned, maxSize) && forall n :: n in order' ==> n in s.reg.order || n == s.cos[i].name
    ensures Inv(LeaveLoader(s.(reg := s.reg.(order := order')), i), pinned, maxSize)
  {
    var name := s.cos[i].name;
    var s' := LeaveLoader(s.(reg := s.reg.(order := order')), i);
    assert CoOk(s.reg, s.cos[i]) && IsLoader(s.cos, i, name);
    forall j | 0 <= j < |s'.cos| ensures CoOk(s'.reg, s'.cos[j]) {
      assert CoOk(s.reg, s.cos[j]);
      if j != i && InLoaderRegion(s.cos[j].pc) {
        assert IsLoader(s.cos, j, s.cos[j].name);
      }
    }
    forall n | n in s'.reg.loading ensures exists j: nat :: IsLoader(s'.cos, j, n) {
      var j: nat :| IsLoader(s.cos, j, n);
      assert IsLoader(s'.cos, j, n);
    }
    LoadersStayUnique(s, s', i);
  }

  lemma LoadersStayUnique(s: Sys, s': Sys, i: nat)
    requires forall a: nat, b: nat, n: string :: IsLoader(s.cos, a, n) && IsLoader(s.cos, b, n) ==> a == b
    requires i < |s.cos| && |s'.cos| == |s.cos| && s'.cos[i].name == s.cos[i].name
    requires InLoaderRegion(s'.cos[i].pc) ==> InLoaderRegion(s.cos[i].pc) || s.cos[i].name !in s.reg.loading
    requires forall a: nat, n: string :: IsLoader(s.cos, a, n) ==> n in s.reg.loading
    requires forall j | 0 <= j < |s.cos| && j != i :: s'.cos[j] == s.cos[j]
    ensures forall a: nat, b: nat, n: string :: IsLoader(s'.cos, a, n) && IsLoader(s'.cos, b, n) ==> a == b
  {
    forall a: nat, b: nat, n: string | IsLoader(s'.cos, a, n) && IsLoader(s'.cos, b, n) ensures a == b {
      assert a != i ==> IsLoader(s.cos, a, n);
      assert b != i ==> IsLoader(s.cos, b, n);
      if InLoaderRegion(s.cos[i].pc) {
        assert IsLoader(s.cos, i, s.cos[i].name);
      }
    }
  }

  /** A coroutine moves and the registry keeps its registrations; a newly registered name is not cached. */
  lemma MovingKeepsInv(s: Sys, pinned: set<string>, maxSize: nat, i: nat, pc': Pc, reg': Registry)
    requires Inv(s, pinned, maxSize) && i < |s.cos|
    requires OrderOk(reg'.order, pinned, maxSize) && (forall n :: n in reg'.order ==> n in s.reg.order)
    requires reg'.fired == s.reg.fired
    requires CoOk(reg', s.cos[i].(pc := pc'))
    requires || (reg'.loading == s.reg.loading && reg'.nextEvent == s.reg.nextEvent
                 && (InLoaderRegion(pc') <==> InLoaderRegion(s.cos[i].pc)))
             || (s.cos[i].name !in s.reg.loading && reg'.nextEvent == s.reg.nextEvent + 1
                 && reg'.loading == s.reg.loading[s.cos[i].name := s.reg.nextEvent] && InLoaderRegion(pc'))
    ensures Inv(Move(s, i, pc').(reg := reg'), pinned, maxSize)
  {
    var s' := Move(s, i, pc').(reg := reg');
    forall j | 0 <= j < |s'.cos| ensures CoOk(s'.reg, s'.cos[j]) {
      assert CoOk(s.reg, s.cos[j]);
    }
    forall a: nat, n: string | IsLoader(s.cos, a, n) ensures n in s.reg.loading {
      assert CoOk(s.reg, s.cos[a]);
    }
    forall n | n in s'.reg.loading ensures exists j: nat :: IsLoader(s'.cos, j, n) {
      if n in s.reg.loading {
        var j: nat :| IsLoader(s.cos, j, n);
        assert IsLoader(s'.cos, j, n);
      } else {
        assert IsLoader(s'.cos, i, n);
      }
    }
    LoadersStayUnique(s, s', i);
  }

  lemma CallKeepsInv(s: Sys, pinned: set<string>, maxSize: nat, name: string)
    requires Inv(s, pinned, maxSize)
    ensures Inv(s.(cos := s.cos + [Co(name, AtLock)]), pinned, maxSize)
  {
    var s' := s.(cos := s.cos + [Co(name, AtLock)]);
    forall j | 0 <= j < |s'.cos| ensures CoOk(s'.reg, s'.cos[j]) {
      if j < |s.cos| {
        assert CoOk(s.reg, s.cos[j]);
      }
    }
    forall j: nat, n: string ensures IsLoader(s'.cos, j, n) <==> IsLoader(s.cos, j, n) {
    }
    forall n | n in s'.reg.loading ensures exists j: nat :: IsLoader(s'.cos, j, n) {
      var j: nat :| IsLoader(s.cos, j, n);
      assert IsLoader(s'.cos, j, n);
    }
  }

  lemma WarmUpKeepsInv(s: Sys, pinned: set<string>, maxSize: nat, name: string, warm: bool)
    requires Inv(s, pinned, maxSize)
    ensures Inv(s.(reg := AfterFailedWarmUp(s.reg, pinned, name, warm)), pinned, maxSize)
  {
    var s' := s.(reg := AfterFailedWarmUp(s.reg, pinned, name, warm));
    if name !in pinned {
      WarmUpKeepsOrder(s.reg.order, pinned, maxSize, name);
    }
    forall j | 0 <= j < |s'.cos| ensures CoOk(s'.reg, s'.cos[j]) {
      assert CoOk(s.reg, s.cos[j]);
    }
  }

  lemma StepKeepsInv(s: Sys, pinned: set<string>, maxSize: nat, e: Event)
    requires Inv(s, pinned, maxSize) && Enabled(s, e)
    ensures Inv(Step(s, pinned, maxSize, e), pinned, maxSize)
  {
    match e {
      case Call(name) => CallKeepsInv(s, pinned, maxSize, name);
      case WarmUpFails(name, warm) => WarmUpKeepsInv(s, pinned, maxSize, name, warm);
      case EnterCheck(i) =>
        var name := s.cos[i].name;
        var (reg, verdict) := Check(s.reg, name);
        if name in s.reg.order {
          TouchKeepsOrder(s.reg.order, pinned, maxSize, name);
        }
        var pc := match verdict case Hit => Left case Wait(ev) => Waiting(ev) case Load(ev) => Loading(ev);
        MovingKeepsInv(s, pinned, maxSize, i, pc, reg);
      case LoadFails(i) => LeavingKeepsInv(s, pinned, maxSize, i, s.reg.order);
      case StoreAndEvict(i) =>
        assert CoOk(s.reg, s.cos[i]);
        StoreKeepsOrder(s.reg.order, pinned, maxSize, s.cos[i].name);
        LeavingKeepsInv(s, pinned, maxSize, i, Stored(s.reg.order, pinned, maxSize, s.cos[i].name));
      case Cancel(i) =>
        if InLoaderRegion(s.cos[i].pc) {
          LeavingKeepsInv(s, pinned, maxSize, i, s.reg.order);
        } else {
          MovingKeepsInv(s, pinned, maxSize, i, Left, s.reg);
        }
      case Wake(i) => MovingKeepsInv(s, pinned, maxSize, i, AtLock, s.reg);
      case TimeOut(i) => MovingKeepsInv(s, pinned, maxSize, i, Left, s.reg);
      case LoadDone(i) =>
        assert CoOk(s.reg, s.cos[i]);
        MovingKeepsInv(s, pinned, maxSize, i, Storing(s.cos[i].pc.event), s.reg);
    }
  }

  // ------------------------------------------------------------------ whole runs

  ghost predicate IsRun(run: seq<Sys>, events: seq<Event>, pinned: set<string>, maxSize: nat) {
    && |run| == |events| + 1
    && Start(run[0], pinned)
    && forall i | 0 <= i < |events| ::
        Enabled(run[i], events[i]) && run[i + 1] == Step(run[i], pinned, maxSize, events[i])
  }

  lemma RunStep(run: seq<Sys>, events: seq<Event>, pinned: set<string>, maxSize: nat, k: nat)
    requires IsRun(run, events, pinned, maxSize) && k < |events|
    ensures Enabled(run[k], events[k]) && run[k + 1] == Step(run[k], pinned, maxSize, events[k])
  {
  }

  lemma {:induction false} RunsKeepInv(run: seq<Sys>, events: seq<Event>, pinned: set<string>, maxSize: nat, k: nat)
    requires IsRun(run, events, pinned, maxSize) && k < |run|
    ensures Inv(run[k], pinned, maxSize)
  {
    if k == 0 {
      OnlyPinned(run[0].reg.order, pinned);
    } else {
      var before := k - 1;
      RunsKeepInv(run, events, pinned, maxSize, before);
      RunStep(run, events, pinned, maxSize, before);
      StepKeepsInv(run[before], pinned, maxSize, events[before]);
    }
  }

  /** In every state of every run: a name is registered exactly when one coroutine, and no second one, is in
      its loader region; every waiter's event is the registered one or already set, so no waiter is left
      behind by a loader that is gone; pinned embedders stay cached, and at most `maxSize` others are. */
  lemma LoadsAreDeduplicatedAndNeverPoisoned(run: seq<Sys>, events: seq<Event>, pinned: set<string>, maxSize: nat,
                                             k: nat)
    requires IsRun(run, events, pinned, maxSize) && k < |run|
    ensures var s := run[k];
            && (forall n :: n in s.reg.loading <==> exists i: nat :: IsLoader(s.cos, i, n))
            && (forall i: nat, j: nat, n: string :: IsLoader(s.cos, i, n) && IsLoader(s.cos, j, n) ==> i == j)
            && (forall i | 0 <= i < |s.cos| && s.cos[i].pc.Waiting? ::
                  || s.cos[i].pc.event in s.reg.fired
                  || (s.cos[i].name in s.reg.loading && s.reg.loading[s.cos[i].name] == s.cos[i].pc.event))
            && (forall n | n in pinned :: n in s.reg.order)
            && |Unpinned(s.reg.order, pinned)| <= maxSize
  {
    RunsKeepInv(run, events, pinned, maxSize, k);
    var s := run[k];
    forall n ensures n in s.reg.loading <==> exists i: nat :: IsLoader(s.cos, i, n) {
      if i: nat :| IsLoader(s.cos, i, n) {
        assert CoOk(s.reg, s.cos[i]);
      }
    }
    forall i | 0 <= i < |s.cos| && s.cos[i].pc.Waiting?
      ensures s.cos[i].pc.event in s.reg.fired
                || (s.cos[i].name in s.reg.loading && s.reg.loading[s.cos[i].name] == s.cos[i].pc.event)
    {
      assert CoOk(s.reg, s.cos[i]);
    }
  }

  /** A name that some caller asked for before state `k`. */
  ghost predicate AskedFor(events: seq<Event>, k: nat, name: string) {
    exists j | 0 <= j < k && j < |events| :: events[j] == Call(name)
  }

  /** The names of a state, cached or wanted by a coroutine, are pinned or were asked for. */
  ghost predicate NamesOk(s: Sys, pinned: set<string>, events: seq<Event>, k: nat) {
    && (forall n | n in s.reg.order :: n in pinned || AskedFor(events, k, n))
    && (forall i | 0 <= i < |s.cos| :: AskedFor(events, k, s.cos[i].name))
  }

  lemma {:induction false} DroppedIsPart(order: seq<string>, pinned: set<string>, count: nat)
    ensures forall n | n in DropOldest(order, pinned, count) :: n in order
  {
    if order != [] && count > 0 {
      assert order == [order[0]] + order[1..];
      DroppedIsPart(order[1..], pinned, if order[0] in pinned then count else count - 1);
    }
  }

  lemma {:induction false} RemovedIsPart(order: seq<string>, name: string)
    ensures forall n | n in Remove(order, name) :: n in order
  {
    if order != [] {
      assert order == [order[0]] + order[1..];
      RemovedIsPart(order[1..], name);
    }
  }

  /** A step caches or wants no name but those there were and the one it is called with. */
  lemma StepBringsNoName(s: Sys, pinned: set<string>, maxSize: nat, e: Event)
    requires Enabled(s, e)
    ensures var s' := Step(s, pinned, maxSize, e);
            && (forall n | n in s'.reg.order :: n in s.reg.order || exists i | 0 <= i < |s.cos| :: s.cos[i].name == n)
            && |s.cos| <= |s'.cos|
            && (forall i | 0 <= i < |s'.cos| ::
                if i < |s.cos| then s'.cos[i].name == s.cos[i].name else e == Call(s'.cos[i].name))
  {
    match e {
      case EnterCheck(i) => RemovedIsPart(s.reg.order, s.cos[i].name);
      case WarmUpFails(name, _) => RemovedIsPart(s.reg.order, name);
      case StoreAndEvict(i) =>
        var o := ToEnd(s.reg.order, s.cos[i].name);
        RemovedIsPart(s.reg.order, s.cos[i].name);
        DroppedIsPart(o, pinned, Excess(o, pinned, maxSize));
      case _ =>
    }
  }

  /** Every cached name is pinned or some caller asked for it. */
  lemma {:induction false} CachedNamesWereAskedFor(run: seq<Sys>, events: seq<Event>, pinned: set<string>, maxSize: nat,
                                                   k: nat)
    requires IsRun(run, events, pinned, maxSize) && k < |run|
    ensures NamesOk(run[k], pinned, events, k)
  {
    if k > 0 {
      var before := k - 1;
      CachedNamesWereAskedFor(run, events, pinned, maxSize, before);
      RunStep(run, events, pinned, maxSize, before);
      StepBringsNoName(run[before], pinned, maxSize, events[before]);
      AskedForStays(events, before);
      assert forall i | 0 <= i < |run[before].cos| :: AskedFor(events, before, run[before].cos[i].name);
    }
  }

  lemma AskedForStays(events: seq<Event>, k: nat)
    requires k < |events|
    ensures forall n | AskedFor(events, k, n) || events[k] == Call(n) :: AskedFor(events, k + 1, n)
  {
  }

  // ------------------------------------------------------------------ what a caller is told

  /** `after` is `before` with the name taken from its place and put last. */
  ghost predicate MovedLast(before: seq<string>, after: seq<string>, name: string) {
    exists i | 0 <= i < |before| :: before[i] == name && after == before[..i] + before[i + 1..] + [name]
  }

  lemma {:induction false} RemovedFromItsPlace(order: seq<string>, name: string, i: nat)
    requires Distinct(order) && i < |order| && order[i] == name
    ensures Remove(order, name) == order[..i] + order[i + 1..]
  {
    var rest := order[1..];
    assert order == [order[0]] + rest && forall j | 0 <= j < |rest| :: rest[j] == order[j + 1];
    if i == 0 {
      AbsentIsNotRemoved(rest, name);
    } else {
      RemovedFromItsPlace(rest, name, i - 1);
      assert order[..i] == [order[0]] + rest[..i - 1] && order[i + 1..] == rest[i..];
    }
  }

  lemma ToEndMovesLast(order: seq<string>, name: string)
    requires Distinct(order) && name in order
    ensures MovedLast(order, ToEnd(order, name), name)
  {
    var i :| 0 <= i < |order| && order[i] == name;
    RemovedFromItsPlace(order, name, i);
  }

  /** In every run, a caller that enters the check leaves with an embedder exactly when its name is cached, waits
      exactly when another caller is loading the name, for the event of that load, and loads it itself otherwise. */
  lemma CallersAreToldTheTruth(run: seq<Sys>, events: seq<Event>, pinned: set<string>, maxSize: nat, k: nat, i: nat)
    requires IsRun(run, events, pinned, maxSize) && k < |events| && events[k] == EnterCheck(i)
    ensures i < |run[k].cos| && |run[k + 1].cos| == |run[k].cos|
    ensures var s, s', name := run[k], run[k + 1], run[k].cos[i].name;
            var loaders := exists j: nat :: IsLoader(s.cos, j, name);
            && (s'.cos[i].pc.Left? <==> name in s.reg.order)
            && (s'.cos[i].pc.Waiting? <==> name !in s.reg.order && loaders)
            && (s'.cos[i].pc.Loading? <==> name !in s.reg.order && !loaders)
            && (s'.cos[i].pc.Left? ==> MovedLast(s.reg.order, s'.reg.order, name))
            && (!s'.cos[i].pc.Left? ==> s'.reg.order == s.reg.order)
            && (s'.cos[i].pc.Waiting? ==>
                  exists j: nat :: IsLoader(s.cos, j, name) && s.cos[j].pc.event == s'.cos[i].pc.event)
  {
    RunsKeepInv(run, events, pinned, maxSize, k);
    RunStep(run, events, pinned, maxSize, k);
    var s, name := run[k], run[k].cos[i].name;
    if name in s.reg.order {
      ToEndMovesLast(s.reg.order, name);
    }
    if name in s.reg.loading {
      var j: nat :| IsLoader(s.cos, j, name);
      assert CoOk(s.reg, s.cos[j]);
    }
    forall j: nat | IsLoader(s.cos, j, name) ensures name in s.reg.loading && name !in s.reg.order {
      assert CoOk(s.reg, s.cos[j]);
    }
  }

  /** A caller leaves with an embedder that was cached when it checked or that it loaded and stored itself, or without
      one because its load failed, its wait timed out or it was cancelled; a woken waiter checks again; and no step
      moves any other caller. */
  lemma CallersLeaveForAReason(s: Sys, pinned: set<string>, maxSize: nat, e: Event, i: nat)
    requires Enabled(s, e) && i < |s.cos|
    ensures var s' := Step(s, pinned, maxSize, e);
            && i < |s'.cos| && s'.cos[i].name == s.cos[i].name
            && (s'.cos[i].pc != s.cos[i].pc ==> !e.Call? && !e.WarmUpFails? && e.co == i)
            && (e == Wake(i) ==> s'.cos[i].pc == AtLock)
            && (s.cos[i].pc != Left && s'.cos[i].pc == Left ==>
                  || (e == EnterCheck(i) && s.cos[i].name in s.reg.order)
                  || (e == StoreAndEvict(i) && s.cos[i].pc.Storing?)
                  || e == LoadFails(i) || e == TimeOut(i) || e == Cancel(i))
            && (s'.cos[i].pc.Storing? && !s.cos[i].pc.Storing? ==> e == LoadDone(i) && s.cos[i].pc.Loading?)
  {
  }

  // ------------------------------------------------------------------ the object

  lemma {:induction false} DroppingOneMore(order: seq<string>, pinned: set<string>, k: nat)
    requires Distinct(order) && k < |Unpinned(order, pinned)|
    ensures Remove(DropOldest(order, pinned, k), Unpinned(order, pinned)[k]) == DropOldest(order, pinned, k + 1)
  {
    var rest := order[1..];
    assert order == [order[0]] + rest;
    assert forall i | 0 <= i < |rest| :: rest[i] == order[i + 1];
    UnpinnedSelects(rest, pinned);
    UnpinnedSelects(order, pinned);
    if order[0] in pinned {
      DroppingOneMore(rest, pinned, k);
      assert Unpinned(order, pinned)[k] in Unpinned(order, pinned);
      var d := DropOldest(rest, pinned, k);
      assert k > 0 ==> ([order[0]] + d)[1..] == d;
    } else if k == 0 {
      AbsentIsNotRemoved(rest, order[0]);
    } else {
      assert Unpinned(order, pinned)[k] == Unpinned(rest, pinned)[k - 1];
      DroppingOneMore(rest, pinned, k - 1);
    }
  }

  lemma {:induction false} AbsentIsNotRemoved(order: seq<string>, name: string)
    requires name !in order
    ensures Remove(order, name) == order
  {
    if order != [] {
      assert order == [order[0]] + order[1..];
      AbsentIsNotRemoved(order[1..], name);
    }
  }

  /** `EmbedderCache`: each method is a stretch of `get_or_load` or `preload` between awaits. */
  class EmbedderCache {
    const maxSize: nat
    const pinned: set<string>
    var order: seq<string>
    var loading: map<string, nat>
    var fired: set<nat>
    var nextEvent: nat

    ghost function View(): Registry
      reads this
    {
      Registry(order, loading, fired, nextEvent)
    }

    constructor (maxSize: nat, preloaded: seq<string>)
      requires Distinct(preloaded)
      ensures this.maxSize == maxSize && pinned == (set n | n in preloaded)
      ensures Start(Sys(View(), []), pinned)
    {
      this.maxSize := maxSize;
      pinned := set n | n in preloaded;
      order, loading, fired, nextEvent := preloaded, map[], {}, 0;
    }

    /** The section under the lock: a hit renews the name, a load in progress is joined, else the caller loads. */
    method CheckSection(name: string) returns (verdict: Verdict)
      modifies this
      ensures (View(), verdict) == Check(old(View()), name)
      ensures verdict == Hit <==> name in old(order)
      ensures verdict == Hit ==> loading == old(loading) && nextEvent == old(nextEvent)
      ensures verdict == Hit && Distinct(old(order)) ==> MovedLast(old(order), order, name)
      ensures verdict.Wait? <==> name !in old(order) && name in old(loading)
      ensures verdict.Wait? ==> verdict.event == old(loading)[name] && View() == old(View())
      ensures verdict.Load? ==> verdict.event == old(nextEvent) < nextEvent
      ensures verdict.Load? ==> loading == old(loading)[name := verdict.event] && order == old(order)
      ensures fired == old(fired)
    {
      if name in order && Distinct(order) {
        ToEndMovesLast(order, name);
      }
      if name in order {
        order := ToEnd(order, name);
        return Hit;
      }
      if name in loading {
        return Wait(loading[name]);
      }
      verdict := Load(nextEvent);
      loading := loading[name := nextEvent];
      nextEvent := nextEvent + 1;
    }

    method ListUnpinned() returns (names: seq<string>)
      ensures names == Unpinned(order, pinned)
    {
      names := [];
      for i := 0 to |order|
        invariant Unpinned(order, pinned) == names + Unpinned(order[i..], pinned)
      {
        assert order[i..][1..] == order[i + 1..];
        if order[i] !in pinned {
          names := names + [order[i]];
        }
      }
    }

    /** The store section under the lock; `evicted` are the names that were popped, oldest first. */
    method StoreSection(name: string) returns (evicted: seq<string>)
      requires Distinct(order)
      modifies this`order
      ensures order == Stored(old(order), pinned, maxSize, name)
      ensures evicted == Unpinned(ToEnd(old(order), name), pinned)[..Excess(ToEnd(old(order), name), pinned, maxSize)]
    {
      RemoveKeeps(order, name);
      DistinctAround(name, Remove(order, name));
      order := ToEnd(order, name);
      ghost var o := order;
      var unpinned := ListUnpinned();
      var excess := if |unpinned| > maxSize then |unpinned| - maxSize else 0;
      evicted := [];
      for i := 0 to excess
        invariant order == DropOldest(o, pinned, i) && evicted == unpinned[..i]
      {
        DroppingOneMore(o, pinned, i);
        order := Remove(order, unpinned[i]);
        evicted := evicted + [unpinned[i]];
      }
    }

    /** The `finally` of the loader region. */
    method ClearRegistration(name: string)
      modifies this
      ensures View() == Unregister(old(View()), name)
      ensures loading == old(loading) - {name} && order == old(order)
      ensures fired == old(fired) + if name in old(loading) then {old(loading)[name]} else {}
    {
      if name in loading {
        fired := fired + {loading[name]};
        loading := loading - {name};
      }
    }

    method EvictAfterFailedWarmUp(name: string, warm: bool) returns (evicted: bool)
      modifies this`order
      ensures View() == AfterFailedWarmUp(old(View()), pinned, name, warm)
      ensures evicted <==> name in old(order) && !warm && name !in pinned
      ensures !evicted ==> order == old(order)
      ensures evicted && Distinct(old(order)) ==> MovedLast(old(order), order + [name], name)
    {
      evicted := name in order && !warm && name !in pinned;
      if evicted && Distinct(order) {
        ToEndMovesLast(order, name);
      }
      if evicted {
        order := Remove(order, name);
      }
    }
  }
}
