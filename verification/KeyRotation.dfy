/** Rotation of the default key as a protocol (archon_search/key_manager.py, `rotate_and_persist_default_key`,
    `_commit_rotation`, `_finish_cancelled_rotation`, `_write_key_file`).

    Three things move on their own: the caller, who owns the rotation lock; the shielded commit task, which writes
    the key file, records the rotation in `keys.json` and publishes the token; and the thread that does the write,
    which no cancellation stops.  Any number of rotations are asked for at once, every await is an interleaving
    point, a caller may be cancelled at each of its awaits and as often as one likes, the commit task may be
    cancelled too, the writes may fail, and operators create and revoke keys in between.  A crash is the end of a
    run, so what holds in every state of every run holds at every crash point. */
module KeyRotation {
  import opened Options
  import opened KeyStore

  /** `AtShield`: awaits the shielded commit.  `Finishing`: in the loop of `_finish_cancelled_rotation`. */
  datatype Caller = Waiting | Reading | AtShield | Finishing | Gone

  datatype Outcome = Done | Aborted | Incomplete | TaskCancelled

  /** `Created`: the task was not stepped yet.  `Making`: at the directory.  `Writing`: awaits the thread.
      `Recording`: at the lock of the key store. */
  datatype Commit = NotStarted | Created | Making | Writing | Recording | Ended(outcome: Outcome)

  datatype Thread = NoThread | Running | Landed | WriteFailed

  datatype Rot = Rot(grace: nat, token: Hash, caller: Caller, commit: Commit, thread: Thread, current: Hash)

  /** `lastWriter` is the rotation whose write reached the key file last, `log` lists the recorded rotations and
      `makers` who made each: history the code does not keep. */
  datatype State = State(keyFile: Hash, records: seq<Record>, published: Hash, lock: Option<nat>, rots: seq<Rot>,
                         lastWriter: Option<nat>, log: seq<Rotation>, makers: seq<nat>)

  datatype Event =
    | Ask(grace: nat, token: Hash)
    | TakeLock(rot: nat)
      /** A blank current key, or an unreadable `keys.json`. */
    | Refuse(rot: nat)
      /** The current key is read and the commit task created. */
    | StartCommit(rot: nat)
    | CancelCaller(rot: nat)
      /** The caller, from the shield or from the finishing loop, once the commit has ended. */
    | Leave(rot: nat)
    | CommitBegins(rot: nat)
    | DirectoryFails(rot: nat)
    | ThreadBegins(rot: nat)
    | WriteLands(rot: nat)
    | WriteFails(rot: nat)
    | WriteSeen(rot: nat)
    | FailureSeen(rot: nat)
    | RecordAndPublish(rot: nat, now: int, newId: string, graceId: string)
    | RecordFails(rot: nat)
    | CancelCommit(rot: nat)
      /** `create` or `revoke`. */
    | Operator(change: Change)

  predicate Unfinished(c: Commit) {
    c.Created? || c.Making? || c.Writing? || c.Recording?
  }

  /** What an event asks of its rotation. */
  predicate Movable(r: Rot, e: Event) {
    match e
    case TakeLock(_) => r.caller.Waiting?
    case Refuse(_) => r.caller.Reading?
    case StartCommit(_) => r.caller.Reading?
    case CancelCaller(_) => !r.caller.Gone?
    case Leave(_) => (r.caller.AtShield? || r.caller.Finishing?) && r.commit.Ended?
    case CommitBegins(_) => r.commit.Created?
    case DirectoryFails(_) => r.commit.Making?
    case ThreadBegins(_) => r.commit.Making?
    case WriteLands(_) => r.thread.Running?
    case WriteFails(_) => r.thread.Running?
    case WriteSeen(_) => r.commit.Writing? && r.thread.Landed?
    case FailureSeen(_) => r.commit.Writing? && r.thread.WriteFailed?
    case RecordAndPublish(_, _, _, _) => r.commit.Recording?
    case RecordFails(_) => r.commit.Recording?
    case CancelCommit(_) => Unfinished(r.commit)
    case _ => false
  }

  predicate Enabled(s: State, e: Event) {
    match e
    case Ask(_, _) => true
    case Operator(change) => change.Create? || change.RevokeId?
    case _ => e.rot < |s.rots| && Movable(s.rots[e.rot], e) && (e.TakeLock? ==> s.lock.None?)
  }

  /** A `CancelledError` at the caller's await: before the commit exists it leaves the `async with`; at the shield
      it turns to finishing; while finishing it is suppressed. */
  function CancelledCaller(c: Caller): Caller {
    match c
    case AtShield => Finishing
    case Finishing => Finishing
    case _ => Gone
  }

  /** The rotation after an event of its own. */
  function Moved(r: Rot, e: Event, published: Hash): Rot {
    match e
    case TakeLock(_) => r.(caller := Reading)
    case Refuse(_) => r.(caller := Gone)
    case StartCommit(_) => r.(caller := AtShield, commit := Created, current := published)
    case CancelCaller(_) => r.(caller := CancelledCaller(r.caller))
    case Leave(_) => r.(caller := Gone)
    case CommitBegins(_) => r.(commit := Making)
    case DirectoryFails(_) => r.(commit := Ended(Aborted))
    case ThreadBegins(_) => r.(commit := Writing, thread := Running)
    case WriteLands(_) => r.(thread := Landed)
    case WriteFails(_) => r.(thread := WriteFailed)
    case WriteSeen(_) => r.(commit := Recording)
    case FailureSeen(_) => r.(commit := Ended(Aborted))
    case RecordAndPublish(_, _, _, _) => r.(commit := Ended(Done))
    case RecordFails(_) => r.(commit := Ended(Incomplete))
    case CancelCommit(_) => r.(commit := Ended(TaskCancelled))
    case _ => r
  }

  /** A caller that goes gives the lock up. */
  function LockAfter(lock: Option<nat>, r: Rot, e: Event): Option<nat> {
    match e
    case TakeLock(i) => Some(i)
    case Refuse(_) => None
    case Leave(_) => None
    case CancelCaller(_) => if r.caller.Reading? then None else lock
    case _ => lock
  }

  function RotationOf(r: Rot, e: Event): Rotation
    requires e.RecordAndPublish?
  {
    Rotation(e.now, r.grace, r.token, e.newId, e.graceId)
  }

  function Step(s: State, e: Event): State
    requires Enabled(s, e)
  {
    if e.Ask? then s.(rots := s.rots + [Rot(e.grace, e.token, Waiting, NotStarted, NoThread, 0)])
    else if e.Operator? then s.(records := Apply(s.records, e.change))
    else
      var r := s.rots[e.rot];
      var s' := s.(rots := s.rots[e.rot := Moved(r, e, s.published)], lock := LockAfter(s.lock, r, e));
      if e.WriteLands? then s'.(keyFile := r.token, lastWriter := Some(e.rot))
      else if e.RecordAndPublish? then
        s'.(records := RecordRotation(s.records, r.current, RotationOf(r, e)), published := r.token,
            log := s.log + [RotationOf(r, e)], makers := s.makers + [e.rot])
      else s'
  }

  // ------------------------------------------------------------------ the invariant

  predicate OwnsLock(c: Caller) {
    c.Reading? || c.AtShield? || c.Finishing?
  }

  /** A caller owns the lock from taking it until it leaves, and cannot leave before its commit ended. */
  predicate RotOk(r: Rot, mine: bool, published: Hash) {
    && (OwnsLock(r.caller) <==> mine)
    && (Unfinished(r.commit) ==> (r.caller.AtShield? || r.caller.Finishing?) && r.current == published)
    && (r.caller.Waiting? || r.caller.Reading? ==> r.commit.NotStarted?)
    && (r.thread.NoThread? || r.commit.Writing? || r.commit.Recording? || r.commit.Ended?)
    && (r.commit.Writing? ==> !r.thread.NoThread?)
    && (r.commit.Recording? || r.commit == Ended(Done) ==> r.thread.Landed?)
    && (r.commit == Ended(Aborted) ==> r.thread.NoThread? || r.thread.WriteFailed?)
    && (r.thread.Running? ==> r.commit.Writing? || r.commit == Ended(TaskCancelled))
  }

  /** The key file holds what was written last; a recorded last write is the published one. */
  ghost predicate KeyFileOk(s: State, first: Hash) {
    match s.lastWriter
    case None => s.keyFile == first == s.published
    case Some(w) =>
      && w < |s.rots| && s.rots[w].thread.Landed? && s.keyFile == s.rots[w].token
      && (s.rots[w].commit == Ended(Done) ==> s.published == s.rots[w].token)
  }

  /** Behind the back of a commit that has written only a cancelled commit's thread can have written. */
  predicate LastOrStrayed(rots: seq<Rot>, lastWriter: Option<nat>, i: nat)
    requires i < |rots|
  {
    rots[i].thread.Landed? ==>
      && lastWriter.Some?
      && (Unfinished(rots[i].commit) ==> lastWriter == Some(i) || Strayed(rots, lastWriter.value))
  }

  ghost predicate WriterOk(s: State, first: Hash) {
    KeyFileOk(s, first) && forall i | 0 <= i < |s.rots| :: LastOrStrayed(s.rots, s.lastWriter, i)
  }

  /** The thread of a commit that was cancelled. */
  predicate Strayed(rots: seq<Rot>, w: nat) {
    w < |rots| && rots[w].commit == Ended(TaskCancelled) && rots[w].thread.Landed?
  }

  function Newest(first: Hash, log: seq<Rotation>): Hash {
    if log == [] then first else log[|log| - 1].token
  }

  /** Every recorded rotation was made by a finished one, and each by another. */
  ghost predicate MadeByDone(rots: seq<Rot>, log: seq<Rotation>, makers: seq<nat>) {
    && |makers| == |log|
    && (forall k | 0 <= k < |log| ::
        makers[k] < |rots| && rots[makers[k]].commit == Ended(Done) && log[k].token == rots[makers[k]].token)
    && (forall j, k | 0 <= j < k < |makers| :: makers[j] != makers[k])
  }

  ghost predicate Inv(s: State, first: Hash) {
    && (forall i | 0 <= i < |s.rots| :: RotOk(s.rots[i], s.lock == Some(i), s.published))
    && (s.lock.Some? ==> s.lock.value < |s.rots|)
    && WriterOk(s, first)
    && s.published == Newest(first, s.log)
    && MadeByDone(s.rots, s.log, s.makers)
  }

  ghost predicate Start(s: State, records0: seq<Record>, first: Hash) {
    s == State(first, records0, first, None, [], None, [], [])
  }

  lemma MovedStaysOk(r: Rot, e: Event, lock: Option<nat>, published: Hash)
    requires !e.Ask? && !e.Operator? && Movable(r, e) && RotOk(r, lock == Some(e.rot), published)
    ensures var r' := Moved(r, e, published);
            && RotOk(r', LockAfter(lock, r, e) == Some(e.rot), if e.RecordAndPublish? then r.token else published)
            && r'.token == r.token && r'.grace == r.grace
            && (r.commit.Ended? ==> r'.commit == r.commit)
            && (r'.thread.Landed? ==>
                e.WriteLands? || (r.thread.Landed? && (Unfinished(r'.commit) ==> Unfinished(r.commit))))
            && (r.thread.Landed? ==> r'.thread.Landed?)
            && (r'.commit == Ended(Done) ==> r.commit == Ended(Done) || e.RecordAndPublish?)
  {
  }

  /** An event of one rotation leaves the others' claims as they are. */
  lemma OthersStayOk(s: State, e: Event, first: Hash, i: nat)
    requires Inv(s, first) && Enabled(s, e) && !e.Ask? && !e.Operator? && i < |s.rots| && i != e.rot
    ensures var s' := Step(s, e); RotOk(s'.rots[i], s'.lock == Some(i), s'.published)
  {
    assert RotOk(s.rots[i], s.lock == Some(i), s.published);
    assert RotOk(s.rots[e.rot], s.lock == Some(e.rot), s.published);
  }

  lemma RotationsStayOk(s: State, e: Event, first: Hash)
    requires Inv(s, first) && Enabled(s, e)
    ensures var s' := Step(s, e); forall i | 0 <= i < |s'.rots| :: RotOk(s'.rots[i], s'.lock == Some(i), s'.published)
  {
    var s' := Step(s, e);
    if !e.Ask? && !e.Operator? {
      MovedStaysOk(s.rots[e.rot], e, s.lock, s.published);
      forall i | 0 <= i < |s'.rots| ensures RotOk(s'.rots[i], s'.lock == Some(i), s'.published) {
        if i != e.rot {
          OthersStayOk(s, e, first, i);
        }
      }
    }
  }

  lemma OneMoreMaker(rots: seq<Rot>, log: seq<Rotation>, makers: seq<nat>, i: nat, r: Rotation)
    requires MadeByDone(rots, log, makers) && i < |rots| && rots[i].commit != Ended(Done) && r.token == rots[i].token
    ensures MadeByDone(rots[i := rots[i].(commit := Ended(Done))], log + [r], makers + [i])
  {
    forall k | 0 <= k < |makers| ensures makers[k] != i {
      assert rots[makers[k]].commit == Ended(Done);
    }
  }

  /** What is done stays done, under the same token. */
  lemma TheLogStaysOk(s: State, e: Event, first: Hash)
    requires Inv(s, first) && Enabled(s, e)
    ensures var s' := Step(s, e); s'.published == Newest(first, s'.log) && MadeByDone(s'.rots, s'.log, s'.makers)
  {
    if e.RecordAndPublish? {
      OneMoreMaker(s.rots, s.log, s.makers, e.rot, RotationOf(s.rots[e.rot], e));
    } else {
      DoneStaysDone(s, e, first);
    }
  }

  /** No rotation is lost, changes its token or gets another outcome. */
  ghost predicate Keeps(a: seq<Rot>, b: seq<Rot>) {
    && |a| <= |b|
    && forall i | 0 <= i < |a| :: b[i].token == a[i].token && (a[i].commit.Ended? ==> b[i].commit == a[i].commit)
  }

  lemma DoneStaysDone(s: State, e: Event, first: Hash)
    requires Inv(s, first) && Enabled(s, e)
    ensures Keeps(s.rots, Step(s, e).rots)
  {
    if !e.Ask? && !e.Operator? {
      MovedStaysOk(s.rots[e.rot], e, s.lock, s.published);
    }
  }

  /** The lock keeps commits apart. */
  lemma OneCommitAtATime(s: State, first: Hash, i: nat, j: nat)
    requires Inv(s, first) && i < |s.rots| && j < |s.rots| && Unfinished(s.rots[i].commit)
    ensures s.lock == Some(i) && (Unfinished(s.rots[j].commit) ==> i == j)
  {
    assert RotOk(s.rots[i], s.lock == Some(i), s.published) && RotOk(s.rots[j], s.lock == Some(j), s.published);
  }

  lemma LandingKeepsWriterOk(s: State, w: nat, first: Hash)
    requires Inv(s, first) && w < |s.rots| && s.rots[w].thread.Running?
    ensures WriterOk(Step(s, WriteLands(w)), first)
  {
    var s' := Step(s, WriteLands(w));
    assert RotOk(s.rots[w], s.lock == Some(w), s.published);
    forall i | 0 <= i < |s'.rots| ensures LastOrStrayed(s'.rots, s'.lastWriter, i) {
      if i != w && Unfinished(s.rots[i].commit) {
        OneCommitAtATime(s, first, i, w);
      }
    }
  }

  lemma RecordingKeepsWriterOk(s: State, e: Event, first: Hash)
    requires Inv(s, first) && Enabled(s, e) && e.RecordAndPublish?
    ensures WriterOk(Step(s, e), first)
  {
    var s', i := Step(s, e), e.rot;
    assert RotOk(s.rots[i], s.lock == Some(i), s.published) && LastOrStrayed(s.rots, s.lastWriter, i);
    forall j | 0 <= j < |s'.rots| ensures LastOrStrayed(s'.rots, s'.lastWriter, j) {
      assert LastOrStrayed(s.rots, s.lastWriter, j);
      OneCommitAtATime(s, first, i, j);
    }
  }

  lemma OtherStepsKeepWriterOk(s: State, e: Event, first: Hash)
    requires Inv(s, first) && Enabled(s, e) && !e.Ask? && !e.Operator? && !e.WriteLands? && !e.RecordAndPublish?
    ensures WriterOk(Step(s, e), first)
  {
    var s' := Step(s, e);
    MovedStaysOk(s.rots[e.rot], e, s.lock, s.published);
    forall j | 0 <= j < |s'.rots| ensures LastOrStrayed(s'.rots, s'.lastWriter, j) {
      assert LastOrStrayed(s.rots, s.lastWriter, j);
    }
  }

  lemma AskingKeepsWriterOk(s: State, e: Event, first: Hash)
    requires Inv(s, first) && Enabled(s, e) && (e.Ask? || e.Operator?)
    ensures WriterOk(Step(s, e), first)
  {
    var s' := Step(s, e);
    forall j | 0 <= j < |s'.rots| ensures LastOrStrayed(s'.rots, s'.lastWriter, j) {
      assert j < |s.rots| ==> LastOrStrayed(s.rots, s.lastWriter, j);
    }
  }

  lemma TheWriterStaysOk(s: State, e: Event, first: Hash)
    requires Inv(s, first) && Enabled(s, e)
    ensures WriterOk(Step(s, e), first)
  {
    if e.WriteLands? {
      LandingKeepsWriterOk(s, e.rot, first);
    } else if e.RecordAndPublish? {
      RecordingKeepsWriterOk(s, e, first);
    } else if e.Ask? || e.Operator? {
      AskingKeepsWriterOk(s, e, first);
    } else {
      OtherStepsKeepWriterOk(s, e, first);
    }
  }

  lemma StepKeepsInv(s: State, e: Event, first: Hash)
    requires Inv(s, first) && Enabled(s, e)
    ensures Inv(Step(s, e), first)
  {
    RotationsStayOk(s, e, first);
    TheLogStaysOk(s, e, first);
    TheWriterStaysOk(s, e, first);
  }

  // ------------------------------------------------------------------ whole runs

  ghost predicate IsRun(run: seq<State>, events: seq<Event>, records0: seq<Record>, first: Hash) {
    && |run| == |events| + 1
    && Start(run[0], records0, first)
    && forall i | 0 <= i < |events| :: Enabled(run[i], events[i]) && run[i + 1] == Step(run[i], events[i])
  }

  lemma {:induction false} RunsKeepInv(run: seq<State>, events: seq<Event>, records0: seq<Record>, first: Hash, k: nat)
    requires IsRun(run, events, records0, first) && k < |run|
    ensures Inv(run[k], first)
  {
    if k > 0 {
      var before := k - 1;
      RunsKeepInv(run, events, records0, first, before);
      RunStep(run, events, records0, first, before);
      StepKeepsInv(run[before], events[before], first);
    }
  }

  lemma RunStep(run: seq<State>, events: seq<Event>, records0: seq<Record>, first: Hash, k: nat)
    requires IsRun(run, events, records0, first) && k < |events|
    ensures Enabled(run[k], events[k]) && run[k + 1] == Step(run[k], events[k])
  {
  }

  /** The shield: whenever and however often callers are cancelled, a commit that has not ended has its lock held by
      a caller that waits for it, so no other commit runs, and a cancellation of that caller leaves the task, its
      thread, the lock and the files as they are. */
  lemma CommitsAreSheltered(run: seq<State>, events: seq<Event>, records0: seq<Record>, first: Hash, k: nat, i: nat)
    requires IsRun(run, events, records0, first) && k < |run|
    requires i < |run[k].rots| && Unfinished(run[k].rots[i].commit)
    ensures run[k].lock == Some(i) && (run[k].rots[i].caller.AtShield? || run[k].rots[i].caller.Finishing?)
    ensures forall j | 0 <= j < |run[k].rots| && Unfinished(run[k].rots[j].commit) :: j == i
    ensures run[k].rots[i].current == run[k].published
    ensures k < |events| && events[k] == CancelCaller(i) ==>
              && run[k + 1] == run[k].(rots := run[k].rots[i := run[k].rots[i].(caller := Finishing)])
    ensures k < |events| && i < |run[k + 1].rots| && run[k + 1].rots[i].commit == Ended(TaskCancelled) ==>
              events[k] == CancelCommit(i)
  {
    RunsKeepInv(run, events, records0, first, k);
    assert RotOk(run[k].rots[i], run[k].lock == Some(i), run[k].published);
    forall j | 0 <= j < |run[k].rots| && Unfinished(run[k].rots[j].commit) ensures j == i {
      OneCommitAtATime(run[k], first, i, j);
    }
    if k < |events| {
      assert Enabled(run[k], events[k]) && run[k + 1] == Step(run[k], events[k]);
      OnlyCancellationCancels(run[k], events[k], i);
    }
  }

  lemma OnlyCancellationCancels(s: State, e: Event, i: nat)
    requires Enabled(s, e) && i < |s.rots| && Unfinished(s.rots[i].commit)
    ensures i < |Step(s, e).rots| && (Step(s, e).rots[i].commit == Ended(TaskCancelled) ==> e == CancelCommit(i))
  {
  }

  /** A rotation whose write reached the key file, but which did not record and publish its token. */
  predicate Unrecorded(r: Rot) {
    r.thread.Landed? && r.commit != Ended(Done)
  }

  /** `keys.json` takes a rotation only after the thread wrote its token to the key file; the file holds that very
      token unless the thread of a cancelled commit task wrote after it. */
  lemma KeysJsonFollowsTheKeyFile(run: seq<State>, events: seq<Event>, records0: seq<Record>, first: Hash, k: nat)
    requires IsRun(run, events, records0, first) && k < |events| && run[k + 1].records != run[k].records
    requires !events[k].Operator?
    ensures events[k].RecordAndPublish?
    ensures var i := events[k].rot;
            && run[k].rots[i].thread.Landed? && run[k].lastWriter.Some?
            && run[k + 1].published == run[k].rots[i].token && run[k + 1].keyFile == run[k].keyFile
            && (run[k].lastWriter == Some(i) ==> run[k].keyFile == run[k].rots[i].token)
            && (run[k].lastWriter != Some(i) ==> Strayed(run[k].rots, run[k].lastWriter.value))
  {
    RunsKeepInv(run, events, records0, first, k);
    assert Enabled(run[k], events[k]) && run[k + 1] == Step(run[k], events[k]);
    assert RotOk(run[k].rots[events[k].rot], run[k].lock == Some(events[k].rot), run[k].published);
    assert LastOrStrayed(run[k].rots, run[k].lastWriter, events[k].rot);
  }

  /** The tokens of a run: drawn at random, so new and never drawn twice. */
  ghost predicate TokensAreNew(s: State, records0: seq<Record>, first: Hash) {
    && (forall i | 0 <= i < |s.rots| :: Unknown(records0, s.rots[i].token) && s.rots[i].token != first)
    && (forall i, j | 0 <= i < j < |s.rots| :: s.rots[i].token != s.rots[j].token)
  }

  lemma OutcomesAreFour(c: Commit)
    requires c.Ended?
    ensures c == Ended(Done) || c == Ended(Aborted) || c == Ended(Incomplete) || c == Ended(TaskCancelled)
  {
    match c.outcome
    case Done =>
    case Aborted =>
    case Incomplete =>
    case TaskCancelled =>
  }

  /** When the key file is ahead of what is published: exactly when the last write to it is one that was not recorded,
      because its commit is between the two writes, failed to record, or was cancelled itself. */
  lemma WhenTheKeyFileIsAhead(run: seq<State>, events: seq<Event>, records0: seq<Record>, first: Hash, k: nat)
    requires IsRun(run, events, records0, first) && k < |run| && TokensAreNew(run[k], records0, first)
    ensures run[k].keyFile != run[k].published <==>
              run[k].lastWriter.Some? && run[k].lastWriter.value < |run[k].rots|
                  && Unrecorded(run[k].rots[run[k].lastWriter.value])
    ensures forall i | 0 <= i < |run[k].rots| && Unrecorded(run[k].rots[i]) ::
              var c := run[k].rots[i].commit;
              c.Writing? || c.Recording? || c == Ended(Incomplete) || c == Ended(TaskCancelled)
  {
    RunsKeepInv(run, events, records0, first, k);
    var s := run[k];
    forall i | 0 <= i < |s.rots| && Unrecorded(s.rots[i])
      ensures var c := s.rots[i].commit;
              c.Writing? || c.Recording? || c == Ended(Incomplete) || c == Ended(TaskCancelled)
    {
      assert RotOk(s.rots[i], s.lock == Some(i), s.published);
      if s.rots[i].commit.Ended? {
        OutcomesAreFour(s.rots[i].commit);
      }
    }
    if s.lastWriter.Some? && s.log != [] {
      var m := s.makers[|s.log| - 1];
      assert s.published == s.rots[m].token && s.rots[m].commit == Ended(Done);
    }
  }

  /** Cancelling callers alone never leaves the key file ahead of `keys.json`: once no rotation is between its
      two writes, none failed between them and no commit task was cancelled, the file holds the published token. */
  lemma OnlyAFailedRecordLeavesTheKeyFileAhead(run: seq<State>, events: seq<Event>, records0: seq<Record>, first: Hash,
                                               k: nat)
    requires IsRun(run, events, records0, first) && k < |run|
    requires forall i | 0 <= i < |run[k].rots| ::
               !Unfinished(run[k].rots[i].commit) && run[k].rots[i].commit != Ended(Incomplete)
    requires forall j | 0 <= j < k :: !events[j].CancelCommit?
    ensures run[k].keyFile == run[k].published == Newest(first, run[k].log)
  {
    RunsKeepInv(run, events, records0, first, k);
    var s := run[k];
    if s.lastWriter.Some? {
      var w := s.lastWriter.value;
      assert RotOk(s.rots[w], s.lock == Some(w), s.published);
      NoCancelledTasks(run, events, records0, first, k, w);
      if s.rots[w].commit.Ended? {
        OutcomesAreFour(s.rots[w].commit);
      }
    }
  }

  lemma {:induction false} NoCancelledTasks(run: seq<State>, events: seq<Event>, records0: seq<Record>, first: Hash,
                                            k: nat, i: nat)
    requires IsRun(run, events, records0, first) && k < |run| && i < |run[k].rots|
    requires forall j | 0 <= j < k :: !events[j].CancelCommit?
    ensures run[k].rots[i].commit != Ended(TaskCancelled)
  {
    if k > 0 {
      assert Enabled(run[k - 1], events[k - 1]) && run[k] == Step(run[k - 1], events[k - 1]);
      if i < |run[k - 1].rots| {
        NoCancelledTasks(run, events, records0, first, k - 1, i);
      }
    }
  }

  // ------------------------------------------------------------------ the accepted keys

  /** What the log says of a key: the newest token, a retired one inside its grace, or none of the rotations' and as
      in the store the run started with. */
  ghost predicate ByTheLog(records0: seq<Record>, first: Hash, log: seq<Rotation>, hash: Hash, t: int) {
    if log == [] then Accepted(records0, hash, t)
    else
      || hash == Newest(first, log)
      || StillInGrace(first, log, hash, t)
      || (Outside(first, log, hash) && Accepted(records0, hash, t))
  }

  ghost predicate FreshLog(first: Hash, log: seq<Rotation>) {
    && (forall i | 0 <= i < |log| :: log[i].token != first)
    && (forall i, j | 0 <= i < j < |log| :: log[i].token != log[j].token)
  }

  /** The state of one key that no operator touched. */
  ghost predicate KeyOk(s: State, records0: seq<Record>, first: Hash, hash: Hash) {
    && (forall t :: Accepted(s.records, hash, t) <==> ByTheLog(records0, first, s.log, hash, t))
    && (hash == s.published ==> Unknown(s.records, hash) || Current(s.records, hash))
    && (Outside(first, s.log, hash) && Unknown(records0, hash) ==> Unknown(s.records, hash))
  }

  lemma RetiredInLongerLog(first: Hash, log: seq<Rotation>, r: Rotation)
    ensures |log + [r]| == |log| + 1 && (log + [r])[|log|] == r && forall i | 0 <= i < |log| :: (log + [r])[i] == log[i]
    ensures forall i | 0 <= i <= |log| :: Retired(first, log + [r], i) == Retired(first, log, i)
    ensures Retired(first, log + [r], |log|) == Newest(first, log) && Retired(first, log + [r], |log| + 1) == r.token
  {
  }

  lemma LongerGrace(first: Hash, log: seq<Rotation>, r: Rotation, hash: Hash, t: int)
    ensures StillInGrace(first, log + [r], hash, t) <==>
              StillInGrace(first, log, hash, t) || (hash == Newest(first, log) && InGrace(r, t))
  {
    var more := log + [r];
    RetiredInLongerLog(first, log, r);
    if i :| 0 <= i < |log| && hash == Retired(first, log, i) && InGrace(log[i], t) {
      assert hash == Retired(first, more, i) && InGrace(more[i], t);
    }
    if hash == Newest(first, log) && InGrace(r, t) {
      assert hash == Retired(first, more, |log|) && InGrace(more[|log|], t);
    }
    if i :| 0 <= i < |more| && hash == Retired(first, more, i) && InGrace(more[i], t) {
      assert i < |log| ==> hash == Retired(first, log, i) && InGrace(log[i], t);
    }
  }

  lemma LongerOutside(first: Hash, log: seq<Rotation>, r: Rotation, hash: Hash)
    ensures Outside(first, log + [r], hash) <==> Outside(first, log, hash) && hash != r.token
  {
    var more := log + [r];
    RetiredInLongerLog(first, log, r);
    if Outside(first, more, hash) {
      forall i | 0 <= i <= |log| ensures hash != Retired(first, log, i) {
        assert hash != Retired(first, more, i);
      }
      assert hash != Retired(first, more, |more|);
    }
    if Outside(first, log, hash) && hash != r.token {
      forall i | 0 <= i <= |more| ensures hash != Retired(first, more, i) {
        assert i <= |log| ==> hash != Retired(first, log, i);
      }
    }
  }

  /** The newest token was not retired yet. */
  lemma NewestIsNotRetired(first: Hash, log: seq<Rotation>, t: int)
    requires FreshLog(first, log)
    ensures !StillInGrace(first, log, Newest(first, log), t) && !Outside(first, log, Newest(first, log))
  {
    forall i | 0 <= i < |log| ensures Newest(first, log) != Retired(first, log, i) {
    }
    assert Retired(first, log, |log|) == Newest(first, log);
  }

  lemma RotationKeepsKeyOk(s: State, records0: seq<Record>, first: Hash, hash: Hash, r: Rotation)
    requires KeyOk(s, records0, first, hash) && s.published == Newest(first, s.log) && FreshLog(first, s.log + [r])
    requires hash == r.token ==> Unknown(records0, hash)
    ensures KeyOk(s.(records := RecordRotation(s.records, s.published, r), published := r.token, log := s.log + [r]),
                  records0, first, hash)
  {
    var after := RecordRotation(s.records, s.published, r);
    assert FreshLog(first, s.log) && r.token != s.published by {
      assert forall i | 0 <= i < |s.log| :: (s.log + [r])[i] == s.log[i];
      assert (s.log + [r])[|s.log|] == r;
    }
    LongerOutside(first, s.log, r, hash);
    forall t ensures Accepted(after, hash, t) <==> ByTheLog(records0, first, s.log + [r], hash, t) {
      OneRotation(s.records, s.published, r, hash, t);
      LongerGrace(first, s.log, r, hash, t);
      if hash == s.published {
        CurrentKeysAreRetired(s.records, hash, t);
        NewestIsNotRetired(first, s.log, t);
      }
      if s.log == [] {
        OneLinkForm(first, s.log, hash, t);
      }
      assert Accepted(s.records, hash, t) <==> ByTheLog(records0, first, s.log, hash, t);
    }
    if hash == r.token {
      NewTokenIsOutside(first, s.log, r);
      RotationMakesItsTokenCurrent(s.records, s.published, r);
    }
    assert Retired(first, s.log, |s.log|) == s.published;
    if Outside(first, s.log, hash) && hash != r.token && Unknown(s.records, hash) {
      StaysUnknown(s.records, s.published, r, hash);
    }
  }

  lemma StaysUnknown(records: seq<Record>, current: Hash, r: Rotation, hash: Hash)
    requires Unknown(records, hash) && hash != current && hash != r.token
    ensures Unknown(RecordRotation(records, current, r), hash)
  {
    var retired := Retire(records, current, r);
    assert forall i | 0 <= i < |retired| :: retired[i].hash != hash;
  }

  lemma NewTokenIsOutside(first: Hash, log: seq<Rotation>, r: Rotation)
    requires FreshLog(first, log + [r])
    ensures Outside(first, log, r.token)
  {
    forall i | 0 <= i <= |log| ensures r.token != Retired(first, log, i) {
      assert (log + [r])[|log|] == r && (i > 0 ==> (log + [r])[i - 1] == log[i - 1]);
    }
  }

  /** Before the first rotation only the first token counts as one of the rotations'. */
  lemma OneLinkForm(first: Hash, log: seq<Rotation>, hash: Hash, t: int)
    requires log == []
    ensures !StillInGrace(first, log, hash, t) && (Outside(first, log, hash) <==> hash != first)
  {
    assert Retired(first, log, 0) == first;
  }

  /** No operator creates the key or revokes an id of it on the way to state `k`. */
  ghost predicate LeftAlone(run: seq<State>, events: seq<Event>, k: nat, hash: Hash)
    requires k <= |run| && k <= |events|
  {
    forall j | 0 <= j < k && events[j].Operator? :: !Touches(run[j].records, events[j].change, hash)
  }

  lemma LoggedTokensAreFresh(s: State, records0: seq<Record>, first: Hash)
    requires Inv(s, first) && TokensAreNew(s, records0, first)
    ensures FreshLog(first, s.log) && forall i | 0 <= i < |s.log| :: Unknown(records0, s.log[i].token)
  {
    forall i | 0 <= i < |s.log| ensures s.log[i].token != first && Unknown(records0, s.log[i].token) {
      assert s.log[i].token == s.rots[s.makers[i]].token;
    }
    forall i, j | 0 <= i < j < |s.log| ensures s.log[i].token != s.log[j].token {
      assert s.makers[i] != s.makers[j];
      assert s.rots[s.makers[i]].token != s.rots[s.makers[j]].token;
    }
  }

  lemma StepKeepsKeyOk(s: State, e: Event, records0: seq<Record>, first: Hash, hash: Hash)
    requires Inv(s, first) && Enabled(s, e) && KeyOk(s, records0, first, hash)
    requires TokensAreNew(Step(s, e), records0, first)
    requires e.Operator? ==> !Touches(s.records, e.change, hash)
    ensures KeyOk(Step(s, e), records0, first, hash)
  {
    var s' := Step(s, e);
    if e.RecordAndPublish? {
      StepKeepsInv(s, e, first);
      LoggedTokensAreFresh(s', records0, first);
      assert RotOk(s.rots[e.rot], s.lock == Some(e.rot), s.published);
      var r := RotationOf(s.rots[e.rot], e);
      assert s'.log[|s.log|] == r;
      RotationKeepsKeyOk(s, records0, first, hash, r);
    } else if e.Operator? {
      forall t ensures Accepted(s'.records, hash, t) <==> Accepted(s.records, hash, t) {
        OtherKeysAreLeftAlone(s.records, e.change, hash, t);
      }
      OtherKeysAreLeftAlone(s.records, e.change, hash, 0);
    }
  }

  lemma TokensWereNew(s: State, e: Event, records0: seq<Record>, first: Hash)
    requires Enabled(s, e) && TokensAreNew(Step(s, e), records0, first)
    ensures TokensAreNew(s, records0, first)
  {
    var s' := Step(s, e);
    assert |s.rots| <= |s'.rots| && forall i | 0 <= i < |s.rots| :: s'.rots[i].token == s.rots[i].token by {
      assert !e.Ask? && !e.Operator? ==> Moved(s.rots[e.rot], e, s.published).token == s.rots[e.rot].token;
    }
  }

  lemma {:induction false} RunsKeepKeyOk(run: seq<State>, events: seq<Event>, records0: seq<Record>, first: Hash,
                                         k: nat, hash: Hash)
    requires IsRun(run, events, records0, first) && k < |run| && TokensAreNew(run[k], records0, first)
    requires Unknown(records0, first) || Current(records0, first)
    requires LeftAlone(run, events, k, hash)
    ensures KeyOk(run[k], records0, first, hash)
  {
    if k > 0 {
      assert Enabled(run[k - 1], events[k - 1]) && run[k] == Step(run[k - 1], events[k - 1]);
      TokensWereNew(run[k - 1], events[k - 1], records0, first);
      RunsKeepKeyOk(run, events, records0, first, k - 1, hash);
      RunsKeepInv(run, events, records0, first, k - 1);
      StepKeepsKeyOk(run[k - 1], events[k - 1], records0, first, hash);
    }
  }

  /** In every reachable state, with operators at work in between, a key they did not touch is accepted exactly when
      it is the published token, a retired one inside its grace, or none of the rotations' and accepted from the
      start. */
  lemma AcceptedKeysInEveryState(run: seq<State>, events: seq<Event>, records0: seq<Record>, first: Hash, k: nat,
                                 hash: Hash, t: int)
    requires IsRun(run, events, records0, first) && k < |run| && run[k].log != []
    requires TokensAreNew(run[k], records0, first)
    requires Unknown(records0, first) || Current(records0, first)
    requires LeftAlone(run, events, k, hash)
    ensures Accepted(run[k].records, hash, t) <==>
            || hash == run[k].published
            || StillInGrace(first, run[k].log, hash, t)
            || (Outside(first, run[k].log, hash) && Accepted(records0, hash, t))
  {
    RunsKeepKeyOk(run, events, records0, first, k, hash);
    RunsKeepInv(run, events, records0, first, k);
  }

  /** The event issues the token. */
  predicate Draws(s: State, e: Event, hash: Hash) {
    || (e.RecordAndPublish? && e.rot < |s.rots| && s.rots[e.rot].token == hash)
    || (e.Operator? && Issues(e.change) == Some(hash))
  }

  lemma StepKeepsRevoked(s: State, e: Event, hash: Hash)
    requires Enabled(s, e) && RevokedForGood(s.records, hash) && !Draws(s, e, hash)
    ensures RevokedForGood(Step(s, e).records, hash)
  {
    if e.RecordAndPublish? {
      ChangesKeepRevokedKeysRevoked(s.records, Rotate(s.rots[e.rot].current, RotationOf(s.rots[e.rot], e)), hash);
    } else if e.Operator? {
      ChangesKeepRevokedKeysRevoked(s.records, e.change, hash);
    }
  }

  /** A key that was revoked stays revoked whatever rotates afterwards, unless its token is drawn again. */
  lemma {:induction false} RevokedKeysStayRevoked(run: seq<State>, events: seq<Event>, records0: seq<Record>,
                                                  first: Hash, j: nat, k: nat, hash: Hash)
    requires IsRun(run, events, records0, first) && j <= k < |run| && RevokedForGood(run[j].records, hash)
    requires forall n | j <= n < k :: !Draws(run[n], events[n], hash)
    ensures RevokedForGood(run[k].records, hash)
    decreases k
  {
    if j < k {
      RevokedKeysStayRevoked(run, events, records0, first, j, k - 1, hash);
      assert Enabled(run[k - 1], events[k - 1]) && run[k] == Step(run[k - 1], events[k - 1]);
      StepKeepsRevoked(run[k - 1], events[k - 1], hash);
    }
  }
}
