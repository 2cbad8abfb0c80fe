/** In which order requests are served, what a request is answered and what a ticket is settled with
    (archon_search/description_lifecycle.py), in terms of the kinds of the requests and the rows they read. */
module LifecycleOrder {
  import opened Options
  import opened GenerationSlots
  import opened Lifecycle
  import DW = DescriptionWrite

  // ------------------------------------------------------------------ the queue and the jobs

  /** The place of a ticket belongs to the kind of its job. */
  predicate PlaceOk(s: Sched, e: Entry) {
    && e.ticket < |s.jobs|
    && e.arrival < s.slot.arrivals
    && (s.jobs[e.ticket].kind == DW.Describe <==> e.rank == 0)
    && (s.jobs[e.ticket].kind == DW.Ingest <==> e.rank == 1)
    && (s.jobs[e.ticket].kind == DW.Backfill <==> e.rank == 2)
  }

  /** Places are taken in the order of admission. */
  ghost predicate QueueOk(s: Sched) {
    && |s.jobs| == |s.slot.futures|
    && (forall e | e in s.slot.waiting :: PlaceOk(s, e))
    && (forall a, b | a in s.slot.waiting && b in s.slot.waiting && a.ticket < b.ticket :: a.arrival < b.arrival)
  }

  /** No new place, and every job keeps its kind. */
  ghost predicate KeepsPlaces(s: Sched, s': Sched) {
    && |s'.jobs| == |s.jobs| && |s'.slot.futures| == |s.slot.futures| && s'.slot.arrivals == s.slot.arrivals
    && (forall e | e in s'.slot.waiting :: e in s.slot.waiting)
    && (forall j | 0 <= j < |s.jobs| :: s'.jobs[j].kind == s.jobs[j].kind)
  }

  lemma KeptPlacesStayOk(s: Sched, s': Sched)
    requires QueueOk(s) && KeepsPlaces(s, s')
    ensures QueueOk(s')
  {
  }

  lemma ReleaseTakesNoPlace(s: SlotState, t: Ticket)
    requires t < |s.futures|
    ensures forall e | e in Release(s, t).waiting :: e in s.waiting
    ensures |Release(s, t).futures| == |s.futures| && Release(s, t).arrivals == s.arrivals
  {
    if s.holder == Some(t) {
      var k := FirstLive(s.waiting, s.futures);
      if k < |s.waiting| {
        assert forall e | e in s.waiting[k + 1..] :: e in s.waiting;
      }
    } else {
      WithoutSelects(s.waiting, t);
    }
  }

  lemma FinishKeepsPlaces(s: Sched, j: nat, r: Result)
    requires j < |s.jobs| == |s.slot.futures|
    ensures KeepsPlaces(s, Finish(s, j, r))
  {
    ReleaseTakesNoPlace(s.slot, j);
  }

  lemma ReleaseSlotKeepsPlaces(s: Sched, j: nat)
    requires j < |s.jobs| == |s.slot.futures|
    ensures KeepsPlaces(s, ReleaseSlot(s, j))
  {
    ReleaseTakesNoPlace(s.slot, j);
  }

  /** Whatever happens to a job that is there takes no place. */
  lemma JobStepsKeepPlaces(s: Sched, maxQueued: nat, e: Event)
    requires Enabled(s, e) && !e.RequestEvent? && !e.Close?
    ensures KeepsPlaces(s, Step(s, maxQueued, e))
  {
    var j := e.job;
    ReleaseSlotKeepsPlaces(s, j);
    match e {
      case DraftEnds(_, verdict) =>
        if verdict.Some? {
          FinishKeepsPlaces(ReleaseSlot(s, j), j, verdict.value);
        }
      case LandEnds(_, r) => FinishKeepsPlaces(s, j, r);
      case DeliverCancel(_) =>
        FinishKeepsPlaces(s, j, ShuttingDown);
        FinishKeepsPlaces(ReleaseSlot(s, j), j, ShuttingDown);
      case TaskDone(_) => FinishKeepsPlaces(s.(tasks := s.tasks - {j}), j, ShuttingDown);
      case _ =>
    }
  }

  lemma AdmissionKeepsQueueOk(s: Sched, maxQueued: nat, collection: string, kind: DW.Kind)
    requires QueueOk(s) && Inv(s, maxQueued)
    ensures QueueOk(Admit(s, collection, kind))
  {
    var s' := Admit(s, collection, kind);
    if s.slot.holder.Some? {
      var e := Entry(DW.Rank(kind), s.slot.arrivals, |s.jobs|);
      PushKeeps(s.slot.waiting, e);
    }
  }

  lemma StepKeepsQueueOk(s: Sched, maxQueued: nat, e: Event)
    requires QueueOk(s) && Inv(s, maxQueued) && Enabled(s, e)
    ensures QueueOk(Step(s, maxQueued, e))
  {
    if e.RequestEvent? {
      AdmissionKeepsQueueOk(s, maxQueued, e.collection, e.kind);
    } else if !e.Close? {
      JobStepsKeepPlaces(s, maxQueued, e);
      KeptPlacesStayOk(s, Step(s, maxQueued, e));
    }
  }

  lemma {:induction false} RunsKeepQueueOk(run: seq<Sched>, events: seq<Event>, maxQueued: nat, k: nat)
    requires IsRun(run, events, maxQueued) && k < |run|
    ensures QueueOk(run[k])
  {
    if k > 0 {
      var before := k - 1;
      RunsKeepQueueOk(run, events, maxQueued, before);
      RunsKeepInv(run, events, maxQueued, before);
      assert Enabled(run[before], events[before]) && run[k] == Step(run[before], maxQueued, events[before]);
      StepKeepsQueueOk(run[before], maxQueued, events[before]);
    }
  }

  // ------------------------------------------------------------------ who is served next

  /** A job whose request still waits for the slot. */
  predicate Waits(s: Sched, j: nat) {
    j < |s.jobs| && j < |s.slot.futures| && s.slot.futures[j].Pending?
  }

  /** Of all jobs that wait, `n` is next: a describe if one waits, otherwise an ingest if one waits, and of its kind
      the one admitted first. */
  ghost predicate IsNext(s: Sched, n: nat) {
    && Waits(s, n)
    && ((exists j: nat :: Waits(s, j) && s.jobs[j].kind == DW.Describe) ==> s.jobs[n].kind == DW.Describe)
    && (s.jobs[n].kind == DW.Backfill ==> forall j: nat | Waits(s, j) :: s.jobs[j].kind == DW.Backfill)
    && (forall j: nat | Waits(s, j) && s.jobs[j].kind == s.jobs[n].kind :: n <= j)
  }

  lemma WaitersHavePlaces(s: Sched, maxQueued: nat, j: nat) returns (e: Entry)
    requires Inv(s, maxQueued) && Waits(s, j)
    ensures e in s.slot.waiting && e.ticket == j && Live(e, s.slot.futures)
  {
    assert HasPlace(s.slot.waiting, j);
    var i :| 0 <= i < |s.slot.waiting| && s.slot.waiting[i].ticket == j;
    e := s.slot.waiting[i];
  }

  lemma TheLeastIsNext(s: Sched, maxQueued: nat, next: Entry)
    requires Inv(s, maxQueued) && QueueOk(s) && next in s.slot.waiting && Live(next, s.slot.futures)
    requires forall e | e in s.slot.waiting && Live(e, s.slot.futures) :: e == next || Before(next, e)
    ensures IsNext(s, next.ticket)
  {
    assert PlaceOk(s, next);
    forall j: nat | Waits(s, j)
      ensures s.jobs[j].kind == DW.Describe ==> s.jobs[next.ticket].kind == DW.Describe
      ensures s.jobs[next.ticket].kind == DW.Backfill ==> s.jobs[j].kind == DW.Backfill
      ensures s.jobs[j].kind == s.jobs[next.ticket].kind ==> next.ticket <= j
    {
      var e := WaitersHavePlaces(s, maxQueued, j);
      assert PlaceOk(s, e);
    }
  }

  /** Whenever the slot leaves its holder in a run, it goes to the job that is next, and it becomes free exactly when
      no job waits. */
  lemma KindsAreServedInOrder(run: seq<Sched>, events: seq<Event>, maxQueued: nat, k: nat)
    requires IsRun(run, events, maxQueued) && k + 1 < |run|
    requires run[k].slot.holder.Some? && run[k + 1].slot.holder != run[k].slot.holder
    ensures run[k + 1].slot.holder.None? <==> forall j: nat :: !Waits(run[k], j)
    ensures run[k + 1].slot.holder.Some? ==> IsNext(run[k], run[k + 1].slot.holder.value)
  {
    RunsKeepInv(run, events, maxQueued, k);
    RunsKeepQueueOk(run, events, maxQueued, k);
    EveryHandOverIsInOrder(run, events, maxQueued, k);
    var s, r := run[k], run[k + 1].slot;
    if r.holder.Some? {
      var next :| next in s.slot.waiting && next.ticket == r.holder.value && Live(next, s.slot.futures)
                  && forall e | e in s.slot.waiting && Live(e, s.slot.futures) :: e == next || Before(next, e);
      TheLeastIsNext(s, maxQueued, next);
    } else {
      forall j: nat ensures !Waits(s, j) {
        if Waits(s, j) {
          var e := WaitersHavePlaces(s, maxQueued, j);
        }
      }
    }
  }

  // ------------------------------------------------------------------ what a request gets

  /** The documents changed by a fifth of the baseline, or nothing was described yet. */
  predicate ChangedEnough(m: DW.Meta) {
    && m.chunkCount > 0
    && (m.describedAt in {None, Some(0)}
        || (m.describedAt.value > 0
            && (5 * m.docCount >= 6 * m.describedAt.value || 5 * m.docCount <= 4 * m.describedAt.value)))
  }

  /** The row wants a generation of this kind: an ingest needs change, a backfill an empty and unfailed row, and a
      describe nothing. */
  predicate Wanted(kind: DW.Kind, m: DW.Meta) {
    && (kind == DW.Ingest ==> ChangedEnough(m))
    && (kind == DW.Backfill ==> m.description in {None, Some("")} && m.status != Some(DW.Failed))
  }

  /** The state after an admission: one more unsettled job of this kind, in flight and tracked, and the slot is its own
      if it was free. */
  ghost predicate Admitted(s: Sched, s': Sched, collection: string, kind: DW.Kind) {
    var n := |s.jobs|;
    && |s'.jobs| == n + 1 && s'.jobs[..n] == s.jobs
    && s'.jobs[n] == Job(collection, kind, Fresh, false, false, Unsettled, 0)
    && s'.inFlight == s.inFlight + {collection} && s'.tasks == s.tasks + {n}
    && s'.closed == s.closed && s'.lastAttempt == s.lastAttempt
    && |s'.slot.futures| == |s.slot.futures| + 1
    && s'.slot.holder == (if s.slot.holder.None? then Some(|s.slot.futures|) else s.slot.holder)
    && (s'.slot.futures[|s.slot.futures|] == if s.slot.holder.None? then Granted else Pending)
  }

  /** What a request is answered, for every state, kind and row. */
  lemma RequestsAreAnswered(s: Sched, maxQueued: nat, collection: string, kind: DW.Kind, row: Option<DW.Meta>)
    ensures var (s', outcome) := Request(s, maxQueued, collection, kind, row);
            var open := !s.closed && collection !in s.inFlight;
            var willing := open && row.Some? && row.value.source != Some(DW.Manual) && Wanted(kind, row.value);
            var full := s.slot.holder.Some? && |s.slot.waiting| >= maxQueued;
            && (outcome == Closed <==> s.closed)
            && (outcome == AlreadyInFlight <==> !s.closed && collection in s.inFlight)
            && (outcome == IsManual <==> open && row.Some? && row.value.source == Some(DW.Manual))
            && (outcome == QueueFull <==> willing && full)
            && (outcome == Accepted <==> willing && !full)
            && (outcome == Accepted ==> Admitted(s, s', collection, kind))
            && (outcome != Accepted ==> s' == s)
  {
    if row.Some? {
      RefusalsAreFair(kind, row.value);
    }
  }

  lemma ChangeIsAFifth(m: DW.Meta)
    ensures DW.ShouldRegenerate(m.docCount, m.chunkCount, m.describedAt) <==> ChangedEnough(m)
  {
    if m.describedAt.Some? {
      var d := m.describedAt.value;
      assert d > 0 ==> (5 * DW.Abs(m.docCount - d) >= d <==> 5 * m.docCount >= 6 * d || 5 * m.docCount <= 4 * d);
    }
  }

  lemma RefusalsAreFair(kind: DW.Kind, m: DW.Meta)
    ensures DW.GenerationRefused(kind, m) == Some(DW.ManualWins) <==> m.source == Some(DW.Manual)
    ensures DW.GenerationRefused(kind, m) == None <==> m.source != Some(DW.Manual) && Wanted(kind, m)
  {
    ChangeIsAFifth(m);
  }

  // ------------------------------------------------------------------ what a ticket says

  /** What the service settles a ticket with. */
  predicate IsVerdict(e: Event, j: nat, r: Result) {
    || e == DraftEnds(j, Some(r))
    || e == LandEnds(j, r)
    || (r == ShuttingDown && (e == DeliverCancel(j) || e == TaskDone(j)))
  }

  /** The event ends a run that generated a text, or failed to. */
  ghost predicate Attempts(s: Sched, e: Event, generated: bool) {
    exists j: nat :: j < |s.jobs| && !s.jobs[j].finished && IsVerdict(e, j, if generated then Generated else Failed)
  }

  /** A ticket is settled with the verdict of its own task, with "shutting down" where the task was cancelled, or by
      its caller; and only a verdict that a text was generated, or failed to be, is the last attempt. */
  lemma TicketsSayWhatHappened(s: Sched, maxQueued: nat, e: Event, j: nat)
    requires Enabled(s, e) && j < |s.jobs|
    ensures var s' := Step(s, maxQueued, e);
            j < |s'.jobs| && SettledBy(e, j, s.jobs[j].settled, s'.jobs[j].settled)
  {
    if !e.RequestEvent? && !e.Close? {
      StepTouchesOnly(s, maxQueued, e);
      if e.job == j {
        OwnStepsSettle(s, maxQueued, e);
      }
    }
  }

  /** The settlement stays, or this event is what settles it; a caller that cancels leaves nothing unsettled. */
  predicate SettledBy(e: Event, j: nat, before: Settled, after: Settled) {
    && (after != before ==> before.Unsettled?)
    && (after.CancelledByCaller? && after != before ==> e == CancelTicket(j))
    && (after.SettledAs? && after != before ==> IsVerdict(e, j, after.result))
    && (e == CancelTicket(j) && before.Unsettled? ==> after.CancelledByCaller?)
  }

  lemma OwnStepsSettle(s: Sched, maxQueued: nat, e: Event)
    requires Enabled(s, e) && !e.RequestEvent? && !e.Close?
    ensures e.job < |Step(s, maxQueued, e).jobs|
    ensures SettledBy(e, e.job, s.jobs[e.job].settled, Step(s, maxQueued, e).jobs[e.job].settled)
  {
    ReleaseTakesNoPlace(s.slot, e.job);
    match e {
      case DraftEnds(j, verdict) =>
        if verdict.Some? {
          FinishSettles(ReleaseSlot(s, j), j, verdict.value);
        }
      case LandEnds(j, r) => FinishSettles(s, j, r);
      case DeliverCancel(j) =>
        FinishSettles(s, j, ShuttingDown);
        FinishSettles(ReleaseSlot(s, j), j, ShuttingDown);
      case TaskDone(j) => FinishSettles(s.(tasks := s.tasks - {j}), j, ShuttingDown);
      case _ =>
    }
  }

  lemma FinishSettles(s: Sched, j: nat, r: Result)
    requires j < |s.jobs| == |s.slot.futures|
    ensures var before, jobs' := s.jobs[j].settled, Finish(s, j, r).jobs;
            |jobs'| == |s.jobs| && jobs'[j].settled in (if before.Unsettled? then {before, SettledAs(r)} else {before})
  {
  }

  lemma TheLastAttemptIsAVerdict(s: Sched, maxQueued: nat, e: Event)
    requires Enabled(s, e)
    ensures var s' := Step(s, maxQueued, e);
            && (s'.lastAttempt == s.lastAttempt || Attempts(s, e, s'.lastAttempt == Some(true)))
            && (forall j: nat, r | IsVerdict(e, j, r) && r in {Generated, Failed} && !s.jobs[j].finished ::
                  s'.lastAttempt == Some(r == Generated))
  {
    var s' := Step(s, maxQueued, e);
    if s'.lastAttempt != s.lastAttempt {
      var r := if e.DraftEnds? then e.verdict.value else if e.LandEnds? then e.verdict' else ShuttingDown;
      assert IsVerdict(e, e.job, r);
    }
  }

  /** Finishing a job for the first time: its collection is free again, it has neither slot nor place, and no other job
      changed. */
  lemma FinishingCleansUp(s: Sched, j: nat, r: Result)
    requires j < |s.jobs| == |s.slot.futures| && Valid(s.slot) && !s.jobs[j].finished
    ensures var s' := Finish(s, j, r);
            && s'.inFlight == s.inFlight - {s.jobs[j].collection}
            && s'.slot.holder != Some(j) && !HasPlace(s'.slot.waiting, j)
            && s'.jobs[j].finished && s'.jobs[j].cleanups == s.jobs[j].cleanups + 1
            && (s'.jobs[j].settled == if s.jobs[j].settled.Unsettled? then SettledAs(r) else s.jobs[j].settled)
            && s'.tasks == s.tasks && s'.closed == s.closed
            && |s'.jobs| == |s.jobs| && forall i | 0 <= i < |s.jobs| && i != j :: s'.jobs[i] == s.jobs[i]
  {
    ReleaseKeepsValid(s.slot, j);
  }
}
