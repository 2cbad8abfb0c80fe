/** The description lifecycle service (archon_search/description_lifecycle.py, class `DescriptionLifecycle`):
    single-flight requests, the process-wide slot, cancellation, shutdown.

    Every stretch of code between two awaits is one event.  What the store, the generator and the writer
    answer is a parameter of the event, so a run below is any interleaving of requests, task steps,
    cancellations at any await, tickets cancelled by their caller, task-done callbacks and `close`. */
module Lifecycle {
  import opened Options
  import opened GenerationSlots
  import DW = DescriptionWrite

  datatype Result =
    | Generated | Failed | AlreadyRunning | RefusedManual | Superseded | ShuttingDown | NotRequired | Dropped

  datatype RequestOutcome = Accepted | AlreadyInFlight | IsManual | NothingToDo | QueueFull | Closed

  /** The ticket's future. */
  datatype Settled = Unsettled | SettledAs(result: Result) | CancelledByCaller

  /** Where a task stands.  `Fresh`: created, never stepped.  `Awaiting`: parked on its `granted` future.
      `Drafting`: inside `_draft`, holding the slot.  `Landing`: inside `_land`, the slot given back.
      `Stillborn`: cancelled before its first step, so no `finally` of it ever runs.  `Ended`: the task is
      over, its done callback is due.  `Gone`: the callback ran. */
  datatype Phase = Fresh | Awaiting | Drafting | Landing | Stillborn | Ended | Gone

  /** `cleanups` counts how often `_finish` took effect; the code has no such counter. */
  datatype Job = Job(collection: string, kind: DW.Kind, phase: Phase, cancelled: bool, finished: bool,
                     settled: Settled, cleanups: nat)

  /** Job `j` holds ticket `j`: `_admit` reserves exactly one place per job. */
  datatype Sched = Sched(slot: SlotState, jobs: seq<Job>, inFlight: set<string>, tasks: set<nat>, closed: bool,
                         lastAttempt: Option<bool>)

  const Initial := Sched(FreeSlot, [], {}, {}, false, None)

  // ------------------------------------------------------------------ the stretches, on values

  function SetPhase(s: Sched, j: nat, p: Phase): Sched
    requires j < |s.jobs|
  {
    s.(jobs := s.jobs[j := s.jobs[j].(phase := p)])
  }

  function Settle(was: Settled, r: Result): Settled {
    if was.Unsettled? then SettledAs(r) else was
  }

  /** `_finish` */
  function Finish(s: Sched, j: nat, r: Result): Sched
    requires j < |s.jobs| && |s.jobs| == |s.slot.futures|
  {
    var job := s.jobs[j];
    if job.finished then s
    else
      s.(jobs := s.jobs[j := job.(finished := true, settled := Settle(job.settled, r), cleanups := job.cleanups + 1)],
         inFlight := s.inFlight - {job.collection},
         slot := Release(s.slot, j),
         lastAttempt := if r.Generated? || r.Failed? then Some(r.Generated?) else s.lastAttempt)
  }

  function ReleaseSlot(s: Sched, j: nat): Sched
    requires j < |s.slot.futures|
  {
    s.(slot := Release(s.slot, j))
  }

  /** The second stretch of `request_generation`, after the row was read (`row`), with `_admit`.  The first
      stretch makes the first two tests and changes nothing. */
  function Request(s: Sched, maxQueued: nat, collection: string, kind: DW.Kind,
                   row: Option<DW.Meta>): (Sched, RequestOutcome) {
    if s.closed then (s, Closed)
    else if collection in s.inFlight then (s, AlreadyInFlight)
    else if row.None? then (s, NothingToDo)
    else
      match DW.GenerationRefused(kind, row.value)
      case Some(ManualWins) => (s, IsManual)
      case Some(NotRequired) => (s, NothingToDo)
      case None =>
        if IsFull(s.slot, maxQueued) then (s, QueueFull)
        else (Admit(s, collection, kind), Accepted)
  }

  function Admit(s: Sched, collection: string, kind: DW.Kind): Sched {
    s.(slot := Reserve(s.slot, DW.Rank(kind)),
       jobs := s.jobs + [Job(collection, kind, Fresh, false, false, Unsettled, 0)],
       inFlight := s.inFlight + {collection},
       tasks := s.tasks + {|s.jobs|})
  }

  datatype Event =
    | RequestEvent(collection: string, kind: DW.Kind, row: Option<DW.Meta>)
    | Start(job: nat)
    | Resume(job: nat)
      /** `_draft` returns: `verdict` is the settlement it decided, `None` a draft to land. */
    | DraftEnds(job: nat, verdict: Option<Result>)
    | LandEnds(job: nat, verdict': Result)
      /** `task.cancel()`, by `drain` or by anyone else. */
    | CancelTask(job: nat)
      /** The cancellation is raised at the await the task is parked on. */
    | DeliverCancel(job: nat)
    | CancelTicket(job: nat)
    | TaskDone(job: nat)
    | Close

  predicate Runnable(p: Phase) {
    p.Fresh? || p.Awaiting? || p.Drafting? || p.Landing?
  }

  predicate Enabled(s: Sched, e: Event) {
    && |s.jobs| == |s.slot.futures|
    && (!e.RequestEvent? && !e.Close? ==> e.job < |s.jobs|)
    && match e
       case RequestEvent(_, _, _) => true
       case Start(j) => s.jobs[j].phase.Fresh?
       case Resume(j) => s.jobs[j].phase.Awaiting? && s.slot.futures[j].Granted?
       case DraftEnds(j, _) => s.jobs[j].phase.Drafting?
       case LandEnds(j, _) => s.jobs[j].phase.Landing?
       case CancelTask(j) => Runnable(s.jobs[j].phase)
       case DeliverCancel(j) => Runnable(s.jobs[j].phase) && s.jobs[j].cancelled
       case CancelTicket(j) => true
       case TaskDone(j) => s.jobs[j].phase.Ended? || s.jobs[j].phase.Stillborn?
       case Close => true
  }

  function DraftStep(s: Sched, j: nat, verdict: Option<Result>): Sched
    requires j < |s.jobs| == |s.slot.futures|
  {
    var released := ReleaseSlot(s, j);
    if verdict.None? then SetPhase(released, j, Landing)
    else SetPhase(Finish(released, j, verdict.value), j, Ended)
  }

  function CancelTaskStep(s: Sched, j: nat): Sched
    requires j < |s.jobs| == |s.slot.futures|
  {
    var job := s.jobs[j];
    s.(jobs := s.jobs[j := job.(cancelled := true)],
       slot := if job.phase.Awaiting? then CancelFuture(s.slot, j) else s.slot)
  }

  function DeliverCancelStep(s: Sched, j: nat): Sched
    requires j < |s.jobs| == |s.slot.futures|
  {
    match s.jobs[j].phase
    case Fresh => SetPhase(s, j, Stillborn)
    case Landing => SetPhase(Finish(s, j, ShuttingDown), j, Ended)
    case _ => SetPhase(Finish(ReleaseSlot(s, j), j, ShuttingDown), j, Ended)
  }

  function Step(s: Sched, maxQueued: nat, e: Event): Sched
    requires Enabled(s, e)
  {
    match e
    case RequestEvent(c, kind, row) => Request(s, maxQueued, c, kind, row).0
    case Start(j) => SetPhase(s, j, Awaiting)
    case Resume(j) => SetPhase(s, j, Drafting)
    case DraftEnds(j, verdict) => DraftStep(s, j, verdict)
    case LandEnds(j, r) => SetPhase(Finish(s, j, r), j, Ended)
    case CancelTask(j) => CancelTaskStep(s, j)
    case DeliverCancel(j) => DeliverCancelStep(s, j)
    case CancelTicket(j) =>
      var settled := s.jobs[j].settled;
      s.(jobs := s.jobs[j := s.jobs[j].(settled := if settled.Unsettled? then CancelledByCaller else settled)])
    case TaskDone(j) => SetPhase(Finish(s.(tasks := s.tasks - {j}), j, ShuttingDown), j, Gone)
    case Close => s.(closed := true)
  }

  // ------------------------------------------------------------------ the invariant

  /** Phases in which a job may own the slot or a place in the queue. */
  predicate BeforeRelease(p: Phase) {
    p.Fresh? || p.Awaiting? || p.Drafting? || p.Stillborn?
  }

  /** A job drafts only as the holder; a granted job that did not give the slot back yet is the holder, and
      nobody else is; only jobs that did not start drafting queue. */
  ghost predicate SlotOk(s: Sched, j: nat)
    requires j < |s.jobs| == |s.slot.futures|
  {
    var p := s.jobs[j].phase;
    && (p.Drafting? ==> s.slot.futures[j].Granted?)
    && (s.slot.holder == Some(j) <==> BeforeRelease(p) && s.slot.futures[j].Granted?)
    && (HasPlace(s.slot.waiting, j) ==> BeforeRelease(p))
  }

  /** `_finish` took effect exactly once when the task is over and not before; until its callback ran the
      service tracks the task. */
  ghost predicate LifeOk(s: Sched, j: nat)
    requires j < |s.jobs|
  {
    var job := s.jobs[j];
    && (job.finished <==> job.phase.Ended? || job.phase.Gone?)
    && job.cleanups == (if job.finished then 1 else 0)
    && (job.finished ==> !job.settled.Unsettled?)
    && (j in s.tasks <==> !job.phase.Gone?)
    && (!job.finished ==> job.collection in s.inFlight)
  }

  predicate Pending(s: Sched, j: nat, collection: string) {
    j < |s.jobs| && !s.jobs[j].finished && s.jobs[j].collection == collection
  }

  ghost predicate SlotInv(s: Sched, maxQueued: nat) {
    && |s.jobs| == |s.slot.futures|
    && Valid(s.slot)
    && |s.slot.waiting| <= maxQueued
    && (forall j | 0 <= j < |s.jobs| :: SlotOk(s, j))
  }

  ghost predicate FlightInv(s: Sched) {
    && (forall j | 0 <= j < |s.jobs| :: LifeOk(s, j))
    && (forall j | j in s.tasks :: j < |s.jobs|)
    && (forall c | c in s.inFlight :: exists j: nat :: Pending(s, j, c))
    && (forall i: nat, j: nat, c: string :: Pending(s, i, c) && Pending(s, j, c) ==> i == j)
  }

  ghost predicate Inv(s: Sched, maxQueued: nat) {
    SlotInv(s, maxQueued) && FlightInv(s)
  }

  // ------------------------------------------------------------------ every event keeps it

  /** Giving back the slot, or the place, and leaving the phases that may own one. */
  lemma RetiringKeepsSlotInv(s: Sched, maxQueued: nat, j: nat, s': Sched)
    requires SlotInv(s, maxQueued) && j < |s.jobs|
    requires s'.slot == Release(s.slot, j) && |s'.jobs| == |s.jobs|
    requires forall i | 0 <= i < |s.jobs| && i != j :: s'.jobs[i].phase == s.jobs[i].phase
    requires !BeforeRelease(s'.jobs[j].phase)
    ensures SlotInv(s', maxQueued)
  {
    ReleaseKeepsValid(s.slot, j);
    forall i | 0 <= i < |s'.jobs| ensures SlotOk(s', i) {
      assert SlotOk(s, i);
      if i != j && s'.slot.holder == Some(i) && s.slot.holder != Some(i) {
        assert HasPlace(s.slot.waiting, i);
      }
    }
  }

  lemma ReleasingAgainChangesNothing(s: SlotState, t: Ticket)
    requires Valid(s) && t < |s.futures|
    requires s.holder != Some(t) && !HasPlace(s.waiting, t)
    ensures Release(s, t) == s
  {
    WithoutSelects(s.waiting, t);
  }

  lemma DoubleReleaseIsOne(s: SlotState, t: Ticket)
    requires Valid(s) && t < |s.futures|
    ensures Release(Release(s, t), t) == Release(s, t) && |Release(s, t).futures| == |s.futures|
  {
    ReleaseKeepsValid(s, t);
    ReleasingAgainChangesNothing(Release(s, t), t);
  }

  /** A finished job changed phase (`Ended` or `Gone`) and nothing else moved. */
  lemma FinishingKeepsFlightInv(s: Sched, j: nat, r: Result, tasks': set<nat>, p: Phase, slot': SlotState)
    requires FlightInv(s) && j < |s.jobs| == |s.slot.futures|
    requires (p == Ended && tasks' == s.tasks && !s.jobs[j].phase.Gone?) || (p == Gone && tasks' == s.tasks - {j})
    ensures var f := Finish(s.(tasks := tasks'), j, r);
            FlightInv(SetPhase(f, j, p).(slot := slot'))
  {
    var f := Finish(s.(tasks := tasks'), j, r);
    var s' := SetPhase(f, j, p).(slot := slot');
    var c := s.jobs[j].collection;
    forall i | 0 <= i < |s'.jobs| ensures LifeOk(s', i) {
      assert LifeOk(s, i);
      if i != j && !s.jobs[i].finished && !s.jobs[j].finished {
        assert Pending(s, i, s.jobs[i].collection) && Pending(s, j, c);
      }
    }
    forall d | d in s'.inFlight ensures exists i: nat :: Pending(s', i, d) {
      var i :| Pending(s, i, d);
      assert Pending(s', i, d);
    }
    forall a: nat, b: nat, d: string | Pending(s', a, d) && Pending(s', b, d) ensures a == b {
      assert Pending(s, a, d) && Pending(s, b, d);
    }
  }

  /** Events that neither finish a job nor admit one. */
  lemma QuietStepsKeepFlightInv(s: Sched, s': Sched)
    requires FlightInv(s)
    requires |s'.jobs| == |s.jobs| && s'.inFlight == s.inFlight && s'.tasks == s.tasks
    requires forall i | 0 <= i < |s.jobs| ::
               && s'.jobs[i].collection == s.jobs[i].collection
               && s'.jobs[i].finished == s.jobs[i].finished
               && s'.jobs[i].cleanups == s.jobs[i].cleanups
               && (s.jobs[i].settled.Unsettled? || s'.jobs[i].settled == s.jobs[i].settled)
               && (s'.jobs[i].phase == s.jobs[i].phase
                   || (!s.jobs[i].finished && !s'.jobs[i].phase.Ended? && !s'.jobs[i].phase.Gone?))
    ensures FlightInv(s')
  {
    forall i | 0 <= i < |s'.jobs| ensures LifeOk(s', i) {
      assert LifeOk(s, i);
    }
    forall i: nat, c: string ensures Pending(s', i, c) <==> Pending(s, i, c) {
    }
    forall d | d in s'.inFlight ensures exists i: nat :: Pending(s', i, d) {
      var i :| Pending(s, i, d);
      assert Pending(s', i, d);
    }
  }

  lemma AdmittingKeepsInv(s: Sched, maxQueued: nat, collection: string, kind: DW.Kind)
    requires Inv(s, maxQueued) && collection !in s.inFlight && !IsFull(s.slot, maxQueued)
    ensures Inv(Admit(s, collection, kind), maxQueued)
  {
    var s' := Admit(s, collection, kind);
    ReserveKeepsValid(s.slot, DW.Rank(kind));
    var n := |s.jobs|;
    forall j | 0 <= j < |s'.jobs| ensures SlotOk(s', j) && LifeOk(s', j) {
      if j < n {
        assert SlotOk(s, j) && LifeOk(s, j);
      }
    }
    forall c | c in s'.inFlight ensures exists j: nat :: Pending(s', j, c) {
      if c == collection {
        assert Pending(s', n, c);
      } else {
        var j :| Pending(s, j, c);
        assert Pending(s', j, c);
      }
    }
    forall i: nat, j: nat, c: string | Pending(s', i, c) && Pending(s', j, c) ensures i == j {
      assert i < n ==> LifeOk(s, i) && Pending(s, i, c);
      assert j < n ==> LifeOk(s, j) && Pending(s, j, c);
    }
  }

  lemma CancellingKeepsSlotInv(s: Sched, maxQueued: nat, j: nat)
    requires SlotInv(s, maxQueued) && j < |s.jobs|
    ensures SlotInv(CancelTaskStep(s, j), maxQueued)
  {
    var s' := CancelTaskStep(s, j);
    CancelFutureKeepsValid(s.slot, j);
    forall i | 0 <= i < |s'.jobs| ensures SlotOk(s', i) {
      assert SlotOk(s, i);
    }
  }

  /** A job that ends inside its own task: `_draft` released the slot already, and `_finish` releases it again. */
  lemma EndingKeepsInv(s: Sched, maxQueued: nat, j: nat, r: Result, releasedFirst: bool)
    requires Inv(s, maxQueued) && j < |s.jobs| && Runnable(s.jobs[j].phase)
    ensures Inv(SetPhase(Finish(if releasedFirst then ReleaseSlot(s, j) else s, j, r), j, Ended), maxQueued)
  {
    assert LifeOk(s, j);
    DoubleReleaseIsOne(s.slot, j);
    var s' := SetPhase(Finish(if releasedFirst then ReleaseSlot(s, j) else s, j, r), j, Ended);
    RetiringKeepsSlotInv(s, maxQueued, j, s');
    FinishingKeepsFlightInv(s, j, r, s.tasks, Ended, s'.slot);
  }

  lemma TaskDoneKeepsInv(s: Sched, maxQueued: nat, j: nat)
    requires Inv(s, maxQueued) && Enabled(s, TaskDone(j))
    ensures Inv(Step(s, maxQueued, TaskDone(j)), maxQueued)
  {
    var s' := Step(s, maxQueued, TaskDone(j));
    assert LifeOk(s, j) && SlotOk(s, j);
    FinishingKeepsFlightInv(s, j, ShuttingDown, s.tasks - {j}, Gone, s'.slot);
    if s.jobs[j].finished {
      ReleasingAgainChangesNothing(s.slot, j);
    }
    RetiringKeepsSlotInv(s, maxQueued, j, s');
  }

  lemma StepKeepsInv(s: Sched, maxQueued: nat, e: Event)
    requires Inv(s, maxQueued) && Enabled(s, e)
    ensures Inv(Step(s, maxQueued, e), maxQueued)
  {
    var s' := Step(s, maxQueued, e);
    match e {
      case RequestEvent(c, kind, row) =>
        if Request(s, maxQueued, c, kind, row).1 == Accepted {
          AdmittingKeepsInv(s, maxQueued, c, kind);
        }
      case DraftEnds(j, verdict) =>
        if verdict.Some? {
          EndingKeepsInv(s, maxQueued, j, verdict.value, true);
        } else {
          assert LifeOk(s, j);
          RetiringKeepsSlotInv(s, maxQueued, j, s');
          QuietStepsKeepFlightInv(s, s');
        }
      case LandEnds(j, r) => EndingKeepsInv(s, maxQueued, j, r, false);
      case DeliverCancel(j) =>
        if s.jobs[j].phase.Fresh? {
          PhaseChangeKeepsInv(s, maxQueued, j, s');
        } else {
          EndingKeepsInv(s, maxQueued, j, ShuttingDown, !s.jobs[j].phase.Landing?);
        }
      case TaskDone(j) => TaskDoneKeepsInv(s, maxQueued, j);
      case CancelTask(j) =>
        CancellingKeepsSlotInv(s, maxQueued, j);
        QuietStepsKeepFlightInv(s, s');
      case Close => QuietStepsKeepFlightInv(s, s');
        forall i | 0 <= i < |s'.jobs| ensures SlotOk(s', i) { assert SlotOk(s, i); }
      case _ =>
        assert SlotOk(s, e.job);
        PhaseChangeKeepsInv(s, maxQueued, e.job, s');
    }
  }

  /** A task moves on before it gives the slot back, or its ticket is cancelled. */
  lemma PhaseChangeKeepsInv(s: Sched, maxQueued: nat, j: nat, s': Sched)
    requires Inv(s, maxQueued) && j < |s.jobs|
    requires exists p, st, c :: s' == s.(jobs := s.jobs[j := s.jobs[j].(phase := p, settled := st, cancelled := c)])
    requires s.jobs[j].settled.Unsettled? || s'.jobs[j].settled == s.jobs[j].settled
    requires s'.jobs[j].phase == s.jobs[j].phase || (BeforeRelease(s'.jobs[j].phase) && BeforeRelease(s.jobs[j].phase))
    requires s'.jobs[j].phase.Drafting? ==> s.slot.futures[j].Granted?
    ensures Inv(s', maxQueued)
  {
    assert LifeOk(s, j);
    QuietStepsKeepFlightInv(s, s');
    forall i | 0 <= i < |s'.jobs| ensures SlotOk(s', i) {
      assert SlotOk(s, i);
    }
  }

  // ------------------------------------------------------------------ whole runs

  /** A run: states joined by events, from the service's construction. */
  ghost predicate IsRun(run: seq<Sched>, events: seq<Event>, maxQueued: nat) {
    && |run| == |events| + 1
    && run[0] == Initial
    && forall i | 0 <= i < |events| :: Enabled(run[i], events[i]) && run[i + 1] == Step(run[i], maxQueued, events[i])
  }

  lemma {:induction false} RunsKeepInv(run: seq<Sched>, events: seq<Event>, maxQueued: nat, k: nat)
    requires IsRun(run, events, maxQueued) && k < |run|
    ensures Inv(run[k], maxQueued)
  {
    if k > 0 {
      RunsKeepInv(run, events, maxQueued, k - 1);
      StepKeepsInv(run[k - 1], maxQueued, events[k - 1]);
      assert run[k] == Step(run[k - 1], maxQueued, events[k - 1]);
    }
  }

  /** In every state of every run: single-flight is exact, one job at most drafts and it is the holder, the
      queue keeps its bound, a free slot has no waiter, every live waiter keeps its place, and the cleanup of
      a job took effect exactly once iff its task is over. */
  lemma EveryReachableStateIsSafe(run: seq<Sched>, events: seq<Event>, maxQueued: nat, k: nat)
    requires IsRun(run, events, maxQueued) && k < |run|
    ensures var s := run[k];
            && |s.jobs| == |s.slot.futures|
            && (forall c :: c in s.inFlight <==> exists j: nat :: Pending(s, j, c))
            && (forall i: nat, j: nat, c: string :: Pending(s, i, c) && Pending(s, j, c) ==> i == j)
            && (forall j | 0 <= j < |s.jobs| && s.jobs[j].phase.Drafting? :: s.slot.holder == Some(j))
            && |s.slot.waiting| <= maxQueued
            && (s.slot.holder.None? ==> s.slot.waiting == [])
            && (forall j | 0 <= j < |s.jobs| && s.slot.futures[j].Pending? :: HasPlace(s.slot.waiting, j))
            && (forall j | 0 <= j < |s.jobs| ::
                  && s.jobs[j].cleanups == (if s.jobs[j].phase.Ended? || s.jobs[j].phase.Gone? then 1 else 0)
                  && (s.jobs[j].cleanups == 1 ==> !s.jobs[j].settled.Unsettled?))
  {
    RunsKeepInv(run, events, maxQueued, k);
    var s := run[k];
    forall j | 0 <= j < |s.jobs|
      ensures s.jobs[j].phase.Drafting? ==> s.slot.holder == Some(j)
      ensures s.jobs[j].cleanups == (if s.jobs[j].phase.Ended? || s.jobs[j].phase.Gone? then 1 else 0)
      ensures s.jobs[j].cleanups == 1 ==> !s.jobs[j].settled.Unsettled?
    {
      assert LifeOk(s, j) && SlotOk(s, j);
    }
    forall c ensures c in s.inFlight <==> exists j: nat :: Pending(s, j, c) {
      if j :| Pending(s, j, c) {
        assert LifeOk(s, j);
      }
    }
  }

  lemma TheSlotLeavesItsHolderByPassOn(s: Sched, maxQueued: nat, e: Event)
    requires Inv(s, maxQueued) && Enabled(s, e) && s.slot.holder.Some?
    requires Step(s, maxQueued, e).slot.holder != s.slot.holder
    ensures Step(s, maxQueued, e).slot == PassOn(s.slot)
  {
    if !e.RequestEvent? && !e.Close? {
      DoubleReleaseIsOne(s.slot, e.job);
      KeepingTheHolder(s.slot, e.job);
    }
  }

  lemma KeepingTheHolder(s: SlotState, t: Ticket)
    requires t < |s.futures|
    ensures s.holder != Some(t) ==> Release(s, t).holder == s.holder
    ensures CancelFuture(s, t).holder == s.holder
    ensures |Release(s, t).futures| == |s.futures|
  {
  }

  /** Whenever the slot leaves its holder in a run, it goes to the live waiter least by (kind rank, arrival),
      and it becomes free exactly when nobody live waits. */
  lemma EveryHandOverIsInOrder(run: seq<Sched>, events: seq<Event>, maxQueued: nat, k: nat)
    requires IsRun(run, events, maxQueued) && k + 1 < |run|
    requires run[k].slot.holder.Some? && run[k + 1].slot.holder != run[k].slot.holder
    ensures var s := run[k].slot; var r := run[k + 1].slot;
            && (r.holder.None? <==> forall e | e in s.waiting :: !Live(e, s.futures))
            && (r.holder.Some? ==>
                  exists next | next in s.waiting ::
                    && next.ticket == r.holder.value
                    && Live(next, s.futures)
                    && forall e | e in s.waiting && Live(e, s.futures) :: e == next || Before(next, e))
  {
    RunsKeepInv(run, events, maxQueued, k);
    assert Enabled(run[k], events[k]) && run[k + 1] == Step(run[k], maxQueued, events[k]);
    TheSlotLeavesItsHolderByPassOn(run[k], maxQueued, events[k]);
    HandOverGoesToTheLeastLiveWaiter(run[k].slot);
  }

  /** `s'` undoes nothing of `s`: a settled ticket keeps its settlement, a job that is gone stays gone, a
      cleanup is not taken back, and a closed service stays closed and takes no job. */
  ghost predicate UndoesNothing(s: Sched, s': Sched) {
    && |s.jobs| <= |s'.jobs|
    && (s.closed ==> s'.closed && |s'.jobs| == |s.jobs|)
    && forall j | 0 <= j < |s.jobs| :: JobUndoesNothing(s.jobs[j], s'.jobs[j])
  }

  predicate JobUndoesNothing(a: Job, b: Job) {
    && (a.phase.Gone? ==> b.phase.Gone?)
    && (!a.settled.Unsettled? ==> b.settled == a.settled)
    && a.cleanups <= b.cleanups
  }

  /** Only job `j` differs, and it undoes nothing. */
  ghost predicate TouchesOnly(s: Sched, s': Sched, j: nat)
    requires j < |s.jobs|
  {
    && s'.closed == s.closed && |s'.jobs| == |s.jobs|
    && s'.jobs == s.jobs[j := s'.jobs[j]]
    && JobUndoesNothing(s.jobs[j], s'.jobs[j])
  }

  lemma FinishTouchesOnly(s: Sched, j: nat, r: Result)
    requires j < |s.jobs| == |s.slot.futures|
    ensures TouchesOnly(s, Finish(s, j, r), j)
    ensures Finish(s, j, r).jobs[j].phase == s.jobs[j].phase
    ensures |Finish(s, j, r).slot.futures| == |s.slot.futures|
  {
    KeepingTheHolder(s.slot, j);
  }

  lemma SetPhaseTouchesOnly(s: Sched, s': Sched, j: nat, p: Phase)
    requires j < |s.jobs| && TouchesOnly(s, s', j) && !s.jobs[j].phase.Gone?
    ensures TouchesOnly(s, SetPhase(s', j, p), j)
  {
  }

  lemma StepTouchesOnly(s: Sched, maxQueued: nat, e: Event)
    requires Enabled(s, e) && !e.RequestEvent? && !e.Close?
    ensures TouchesOnly(s, Step(s, maxQueued, e), e.job)
  {
    var j := e.job;
    KeepingTheHolder(s.slot, j);
    match e {
      case DraftEnds(_, verdict) =>
        if verdict.Some? {
          FinishTouchesOnly(ReleaseSlot(s, j), j, verdict.value);
          SetPhaseTouchesOnly(s, Finish(ReleaseSlot(s, j), j, verdict.value), j, Ended);
        } else {
          SetPhaseTouchesOnly(s, ReleaseSlot(s, j), j, Landing);
        }
      case LandEnds(_, r) =>
        FinishTouchesOnly(s, j, r);
        SetPhaseTouchesOnly(s, Finish(s, j, r), j, Ended);
      case DeliverCancel(_) =>
        FinishTouchesOnly(s, j, ShuttingDown);
        FinishTouchesOnly(ReleaseSlot(s, j), j, ShuttingDown);
        if s.jobs[j].phase.Fresh? {
          SetPhaseTouchesOnly(s, s, j, Stillborn);
        } else if s.jobs[j].phase.Landing? {
          SetPhaseTouchesOnly(s, Finish(s, j, ShuttingDown), j, Ended);
        } else {
          SetPhaseTouchesOnly(s, Finish(ReleaseSlot(s, j), j, ShuttingDown), j, Ended);
        }
      case TaskDone(_) =>
        var s' := s.(tasks := s.tasks - {j});
        FinishTouchesOnly(s', j, ShuttingDown);
        SetPhaseTouchesOnly(s, Finish(s', j, ShuttingDown), j, Gone);
      case _ =>
    }
  }

  lemma StepUndoesNothing(s: Sched, maxQueued: nat, e: Event)
    requires Enabled(s, e)
    ensures UndoesNothing(s, Step(s, maxQueued, e))
  {
    if !e.RequestEvent? && !e.Close? {
      StepTouchesOnly(s, maxQueued, e);
    }
  }

  lemma UndoingNothingIsTransitive(a: Sched, b: Sched, c: Sched)
    requires UndoesNothing(a, b) && UndoesNothing(b, c)
    ensures UndoesNothing(a, c)
  {
  }

  lemma RunStepUndoesNothing(run: seq<Sched>, events: seq<Event>, maxQueued: nat, k: nat)
    requires IsRun(run, events, maxQueued) && k < |events|
    ensures UndoesNothing(run[k], run[k + 1])
  {
    assert Enabled(run[k], events[k]) && run[k + 1] == Step(run[k], maxQueued, events[k]);
    StepUndoesNothing(run[k], maxQueued, events[k]);
  }

  ghost predicate NextUndoesNothing(run: seq<Sched>, k: nat)
    requires k + 1 < |run|
  {
    UndoesNothing(run[k], run[k + 1])
  }

  /** Steps that each undo nothing undo nothing together. */
  lemma {:induction false} StepsAddUp(run: seq<Sched>, i: nat, k: nat)
    requires i <= k < |run| && forall n: nat | n + 1 < |run| :: NextUndoesNothing(run, n)
    ensures UndoesNothing(run[i], run[k])
    decreases k
  {
    if i < k {
      var before := k - 1;
      StepsAddUp(run, i, before);
      assert NextUndoesNothing(run, before);
      UndoingNothingIsTransitive(run[i], run[before], run[k]);
    }
  }

  lemma NothingIsUndone(run: seq<Sched>, events: seq<Event>, maxQueued: nat, i: nat, k: nat)
    requires IsRun(run, events, maxQueued) && i <= k < |run|
    ensures UndoesNothing(run[i], run[k])
  {
    forall n: nat | n + 1 < |run| ensures NextUndoesNothing(run, n) {
      RunStepUndoesNothing(run, events, maxQueued, n);
    }
    StepsAddUp(run, i, k);
  }

  /** `drain` at state `i` closes the service and awaits the tasks it tracks.  Once all of them are gone,
      nothing is in flight, the slot is free, nobody waits and every ticket is answered. */
  lemma AfterDrainNothingIsInFlight(run: seq<Sched>, events: seq<Event>, maxQueued: nat, i: nat, k: nat)
    requires IsRun(run, events, maxQueued) && i <= k < |run|
    requires run[i].closed
    requires forall j | j in run[i].tasks :: j !in run[k].tasks
    ensures run[k].inFlight == {} && run[k].tasks == {}
    ensures run[k].slot.holder.None? && run[k].slot.waiting == []
    ensures forall j | 0 <= j < |run[k].jobs| :: run[k].jobs[j].finished && !run[k].jobs[j].settled.Unsettled?
  {
    RunsKeepInv(run, events, maxQueued, i);
    RunsKeepInv(run, events, maxQueued, k);
    NothingIsUndone(run, events, maxQueued, i, k);
    var s := run[k];
    forall j | 0 <= j < |s.jobs|
      ensures s.jobs[j].phase.Gone? && s.jobs[j].finished && !s.jobs[j].settled.Unsettled?
      ensures j !in s.tasks && s.slot.holder != Some(j)
    {
      assert LifeOk(run[i], j) && LifeOk(s, j) && SlotOk(s, j);
    }
    assert forall j: nat, c: string :: !Pending(s, j, c);
  }

  // ------------------------------------------------------------------ the object

  /** `DescriptionLifecycle`: each method is one stretch between awaits. */
  class DescriptionLifecycle {
    const slot: GenerationSlot
    var jobs: seq<Job>
    var inFlight: set<string>
    var tasks: set<nat>
    var closed: bool
    var lastAttempt: Option<bool>

    ghost function View(): Sched
      reads this, slot
    {
      Sched(slot.View(), jobs, inFlight, tasks, closed, lastAttempt)
    }

    ghost predicate Safe()
      reads this, slot
    {
      Inv(View(), slot.maxQueued)
    }

    constructor (maxQueued: nat)
      ensures View() == Initial && slot.maxQueued == maxQueued && Safe() && fresh(slot)
    {
      slot := new GenerationSlot(maxQueued);
      jobs, inFlight, tasks, closed, lastAttempt := [], {}, {}, false, None;
    }

    method RequestGeneration(collection: string, kind: DW.Kind, row: Option<DW.Meta>) returns (outcome: RequestOutcome)
      requires Safe()
      modifies this, slot
      ensures (View(), outcome) == Request(old(View()), slot.maxQueued, collection, kind, row)
      ensures Safe()
    {
      StepKeepsInv(View(), slot.maxQueued, RequestEvent(collection, kind, row));
      if closed {
        return Closed;
      }
      if collection in inFlight {
        return AlreadyInFlight;
      }
      if row.None? {
        return NothingToDo;
      }
      var refused := DW.GenerationRefused(kind, row.value);
      if refused.Some? {
        return if refused.value.ManualWins? then IsManual else NothingToDo;
      }
      var full := slot.TestFull();
      if full {
        return QueueFull;
      }
      var granted := slot.ReservePlace(DW.Rank(kind));
      jobs := jobs + [Job(collection, kind, Fresh, false, false, Unsettled, 0)];
      inFlight := inFlight + {collection};
      tasks := tasks + {granted};
      outcome := Accepted;
    }

    /** `_finish`, which runs its cleanup once. */
    method FinishJob(j: nat, r: Result)
      requires Valid(slot.View()) && j < |jobs| == |slot.futures|
      modifies this`jobs, this`inFlight, this`lastAttempt, slot
      ensures View() == Finish(old(View()), j, r)
      ensures Valid(slot.View()) && |slot.futures| == |jobs|
    {
      if jobs[j].finished {
        return;
      }
      ghost var done := Finish(View(), j, r);
      KeepingTheHolder(slot.View(), j);
      jobs := jobs[j := jobs[j].(finished := true, cleanups := jobs[j].cleanups + 1)];
      inFlight := inFlight - {jobs[j].collection};
      slot.ReleaseTicket(j);
      if jobs[j].settled.Unsettled? {
        jobs := jobs[j := jobs[j].(settled := SettledAs(r))];
      }
      if r.Generated? || r.Failed? {
        lastAttempt := Some(r.Generated?);
      }
      assert jobs == done.jobs && slot.View() == done.slot;
    }

    /** The stretch that leaves `_draft`: its `finally` gives the slot back; with a verdict `_run` finishes. */
    method EndDraft(j: nat, verdict: Option<Result>)
      requires Safe() && Enabled(View(), DraftEnds(j, verdict))
      modifies this`jobs, this`inFlight, this`lastAttempt, slot
      ensures View() == Step(old(View()), slot.maxQueued, DraftEnds(j, verdict))
      ensures Safe()
    {
      StepKeepsInv(View(), slot.maxQueued, DraftEnds(j, verdict));
      ReleaseKeepsValid(slot.View(), j);
      slot.ReleaseTicket(j);
      if verdict.Some? {
        FinishJob(j, verdict.value);
        jobs := jobs[j := jobs[j].(phase := Ended)];
      } else {
        jobs := jobs[j := jobs[j].(phase := Landing)];
      }
    }

    /** `_on_task_done`: also settles a task that never ran its `finally`. */
    method OnTaskDone(j: nat)
      requires Safe() && Enabled(View(), TaskDone(j))
      modifies this, slot
      ensures View() == Step(old(View()), slot.maxQueued, TaskDone(j))
      ensures Safe()
    {
      StepKeepsInv(View(), slot.maxQueued, TaskDone(j));
      tasks := tasks - {j};
      FinishJob(j, ShuttingDown);
      jobs := jobs[j := jobs[j].(phase := Gone)];
    }

    /** The synchronous part of `drain`: close, then cancel every task the service tracks. */
    method CloseAndCancelAll()
      requires Safe()
      modifies this, slot
      ensures Safe() && closed
      ensures tasks == old(tasks) && inFlight == old(inFlight) && |jobs| == |old(jobs)|
      ensures forall j | 0 <= j < |jobs| ::
                && jobs[j].phase == old(jobs)[j].phase
                && (Runnable(jobs[j].phase) ==> jobs[j].cancelled)
    {
      StepKeepsInv(View(), slot.maxQueued, Close);
      closed := true;
      ghost var before := jobs;
      for j := 0 to |jobs|
        invariant Safe() && closed && tasks == old(tasks) && inFlight == old(inFlight) && |jobs| == |before|
        invariant forall i | 0 <= i < |jobs| :: jobs[i].phase == before[i].phase
        invariant forall i | 0 <= i < j && Runnable(jobs[i].phase) :: jobs[i].cancelled
      {
        assert LifeOk(View(), j);
        if j in tasks && Runnable(jobs[j].phase) {
          CancelJob(j);
        }
      }
    }

    /** `task.cancel()` on a live task. */
    method CancelJob(j: nat)
      requires Safe() && Enabled(View(), CancelTask(j))
      modifies this`jobs, slot
      ensures View() == Step(old(View()), slot.maxQueued, CancelTask(j))
      ensures Safe()
    {
      StepKeepsInv(View(), slot.maxQueued, CancelTask(j));
      if jobs[j].phase.Awaiting? && slot.futures[j].Pending? {
        slot.futures := slot.futures[j := Cancelled];
      }
      jobs := jobs[j := jobs[j].(cancelled := true)];
    }
  }
}
