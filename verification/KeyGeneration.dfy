/** Any number of processes start together and each generates the default API key
    (archon_search/key_manager.py, `_generate_and_write`, `_await_concurrent_key`), publishing it with
    `atomic_write_bytes(replace=False)` (archon_search/_durable_io.py).

    Every file-system call is one event and the processes interleave freely.  The key file is absent at the
    start, writes are complete, nobody crashes and no wait expires. */
module KeyGeneration {
  import opened Options

  const KEY_WRITE_ATTEMPTS := 2

  type Key = nat

  /** Where a process stands.  `Publishing`: the key is in the temp file, `os.link` (or `os.replace`) is next.
      `Cleaning`: the temp file is unlinked by name, then the process goes on.  `LookForFile`, `LoadFile`,
      `LookForTemp`: one round of the wait for another writer's key.  `Removing`: the wait ended without a key
      and the temp file is removed as an orphan.  `Failing`: nothing was there to link, and the temp file is unlinked
      by name before the error is raised. */
  datatype Pc =
    | Opening
    | Writing(inode: nat)
    | Publishing(inode: nat)
    | Cleaning(published: bool)
    | LookForFile
    | LoadFile(leftover: bool)
    | LookForTemp(leftover: bool)
    | Removing(leftover: bool)
    | Failing
    | Returned(key: Key)
    | Raised

  datatype Proc = Proc(key: Key, attempt: nat, replace: bool, pc: Pc)

  /** An inode is the index of its content; a name that is linked holds an inode.  `publisher` is history: the
      process that created the key file. */
  datatype State = State(keyFile: Option<nat>, temp: Option<nat>, inodes: seq<Option<Key>>, procs: seq<Proc>,
                         publisher: Option<nat>)

  function Set(s: State, p: nat, pc: Pc): State
    requires p < |s.procs|
  {
    s.(procs := s.procs[p := s.procs[p].(pc := pc)])
  }

  predicate Running(s: State, p: nat) {
    && p < |s.procs| && !s.procs[p].pc.Returned? && !s.procs[p].pc.Raised?
    && (s.procs[p].pc.Writing? ==> s.procs[p].pc.inode < |s.inodes|)
  }

  function Content(s: State, inode: Option<nat>): Option<Key> {
    if inode.Some? && inode.value < |s.inodes| then s.inodes[inode.value] else None
  }

  /** The link: an absent temp file is `FileNotFoundError`, an existing key file `FileExistsError`. */
  function Publish(s: State, p: nat): State
    requires p < |s.procs|
  {
    if s.temp.None? then Set(s, p, Failing)
    else if s.procs[p].replace then
      Set(s, p, Returned(s.procs[p].key)).(keyFile := s.temp, temp := None, publisher := Some(p))
    else if s.keyFile.Some? then Set(s, p, Cleaning(false))
    else Set(s, p, Cleaning(true)).(keyFile := s.temp, publisher := Some(p))
  }

  function RetryOrRaise(s: State, p: nat, leftover: bool): State
    requires p < |s.procs|
  {
    var proc := s.procs[p];
    s.(temp := None,
       procs := s.procs[p := if proc.attempt < KEY_WRITE_ATTEMPTS
                             then proc.(attempt := proc.attempt + 1, replace := proc.replace || leftover, pc := Opening)
                             else proc.(pc := Raised)])
  }

  /** The next file-system call of process `p`. */
  function Step(s: State, p: nat): State
    requires Running(s, p)
  {
    match s.procs[p].pc
    case Opening =>
      if s.temp.Some? then Set(s, p, LookForFile)
      else Set(s, p, Writing(|s.inodes|)).(temp := Some(|s.inodes|), inodes := s.inodes + [None])
    case Writing(i) => Set(s, p, Publishing(i)).(inodes := s.inodes[i := Some(s.procs[p].key)])
    case Publishing(_) => Publish(s, p)
    case Cleaning(published) =>
      Set(s, p, if published then Returned(s.procs[p].key) else LookForFile).(temp := None)
    case LookForFile => Set(s, p, LoadFile(s.keyFile.Some?))
    case LoadFile(leftover) =>
      if Content(s, s.keyFile).Some? then Set(s, p, Returned(Content(s, s.keyFile).value))
      else Set(s, p, LookForTemp(leftover))
    case LookForTemp(leftover) => Set(s, p, if s.temp.Some? then LookForFile else Removing(leftover))
    case Removing(leftover) => RetryOrRaise(s, p, leftover)
    case Failing => Set(s, p, Raised).(temp := None)
  }

  ghost predicate Start(s: State) {
    && s.keyFile.None? && s.temp.None? && s.inodes == [] && s.publisher.None?
    && forall p | 0 <= p < |s.procs| :: s.procs[p] == Proc(s.procs[p].key, 1, false, Opening)
  }

  // ------------------------------------------------------------------ the invariant

  predicate LiveWriter(pc: Pc) {
    pc.Writing? || pc.Publishing?
  }

  /** The next call unlinks the temp file by name. */
  predicate Unlinks(pc: Pc) {
    pc.Cleaning? || pc.Removing? || pc.Failing?
  }

  /** Before publication: a first attempt, and a live writer owns the temp file. */
  ghost predicate EarlyOk(s: State, proc: Proc) {
    && proc.attempt == 1
    && !Unlinks(proc.pc) && !proc.pc.Returned? && !proc.pc.Raised?
    && (LiveWriter(proc.pc) ==> s.temp == Some(proc.pc.inode))
    && (proc.pc.LookForFile? || proc.pc.LoadFile? || proc.pc.LookForTemp? ==> s.temp.Some?)
  }

  /** After publication: nobody writes to the published inode, and whoever returned returned what it holds. */
  ghost predicate LateOk(s: State, proc: Proc) {
    && (proc.pc.Writing? ==> Some(proc.pc.inode) != s.keyFile)
    && (proc.pc.Returned? ==> Content(s, s.keyFile) == Some(proc.pc.key))
    && (proc.pc == Cleaning(true) ==> Content(s, s.keyFile) == Some(proc.key))
  }

  ghost predicate ProcOk(s: State, proc: Proc) {
    && !proc.replace
    && (proc.pc.LookForTemp? || proc.pc.Removing? ==> !proc.pc.leftover)
    && (proc.pc.LoadFile? && proc.pc.leftover ==> s.keyFile.Some?)
    && (LiveWriter(proc.pc) ==> proc.pc.inode < |s.inodes|)
    && (proc.pc.Publishing? ==> s.inodes[proc.pc.inode] == Some(proc.key))
    && (s.keyFile.None? ==> EarlyOk(s, proc))
    && (s.keyFile.Some? ==> LateOk(s, proc))
  }

  /** Of two live writers each has its own inode; before publication there is only one. */
  ghost predicate WritersOk(s: State) {
    forall p, q | 0 <= p < |s.procs| && 0 <= q < |s.procs| && p != q
                  && LiveWriter(s.procs[p].pc) && LiveWriter(s.procs[q].pc) ::
      s.keyFile.Some? && s.procs[p].pc.inode != s.procs[q].pc.inode
  }

  ghost predicate Inv(s: State) {
    && (forall p | 0 <= p < |s.procs| :: ProcOk(s, s.procs[p]))
    && WritersOk(s)
    && (s.temp.Some? ==> s.temp.value < |s.inodes|)
    && (s.keyFile.None? && s.temp.Some? ==> exists p | 0 <= p < |s.procs| :: LiveWriter(s.procs[p].pc))
    && (s.keyFile.Some? ==> Content(s, s.keyFile).Some?)
    && (s.keyFile.Some? <==> s.publisher.Some?)
    && (s.publisher.Some? ==>
          && s.publisher.value < |s.procs|
          && var pc := s.procs[s.publisher.value].pc; pc == Cleaning(true) || pc.Returned?)
  }

  /** Steps of a process that leave every file alone. */
  lemma LookingKeepsInv(s: State, p: nat, pc: Pc)
    requires Inv(s) && Running(s, p) && !LiveWriter(s.procs[p].pc) && !LiveWriter(pc)
    requires s.procs[p].pc != Cleaning(true)
    requires ProcOk(s, s.procs[p].(pc := pc))
    ensures Inv(Set(s, p, pc))
  {
    var s' := Set(s, p, pc);
    assert ProcOk(s, s.procs[p]);
    forall q | 0 <= q < |s'.procs| ensures ProcOk(s', s'.procs[q]) {
      assert ProcOk(s, s.procs[q]);
    }
    if s.keyFile.None? && s.temp.Some? {
      var q :| 0 <= q < |s.procs| && LiveWriter(s.procs[q].pc);
      assert LiveWriter(s'.procs[q].pc);
    }
  }

  lemma OpeningKeepsInv(s: State, p: nat)
    requires Inv(s) && Running(s, p) && s.procs[p].pc.Opening?
    ensures Inv(Step(s, p))
  {
    var s' := Step(s, p);
    assert ProcOk(s, s.procs[p]);
    if s.temp.Some? {
      LookingKeepsInv(s, p, LookForFile);
    } else {
      forall q | 0 <= q < |s'.procs| ensures ProcOk(s', s'.procs[q]) {
        assert ProcOk(s, s.procs[q]);
      }
      assert LiveWriter(s'.procs[p].pc);
    }
  }

  lemma WritingKeepsInv(s: State, p: nat)
    requires Inv(s) && Running(s, p) && s.procs[p].pc.Writing?
    ensures Inv(Step(s, p))
  {
    var s' := Step(s, p);
    assert ProcOk(s, s.procs[p]);
    forall q | 0 <= q < |s'.procs| ensures ProcOk(s', s'.procs[q]) {
      assert ProcOk(s, s.procs[q]);
    }
    assert LiveWriter(s'.procs[p].pc);
  }

  lemma PublishingKeepsInv(s: State, p: nat)
    requires Inv(s) && Running(s, p) && s.procs[p].pc.Publishing?
    ensures Inv(Step(s, p))
  {
    var s' := Step(s, p);
    assert ProcOk(s, s.procs[p]);
    forall q | 0 <= q < |s'.procs| ensures ProcOk(s', s'.procs[q]) {
      assert ProcOk(s, s.procs[q]);
    }
  }

  /** Unlinking the temp file by name, once the key is published. */
  lemma UnlinkingKeepsInv(s: State, p: nat, proc': Proc)
    requires Inv(s) && Running(s, p) && s.keyFile.Some? && !LiveWriter(s.procs[p].pc)
    requires ProcOk(s, proc') && !LiveWriter(proc'.pc)
    requires s.publisher == Some(p) ==> proc'.pc.Returned?
    ensures Inv(s.(temp := None, procs := s.procs[p := proc']))
  {
    var s' := s.(temp := None, procs := s.procs[p := proc']);
    forall q | 0 <= q < |s'.procs| ensures ProcOk(s', s'.procs[q]) {
      assert q != p ==> ProcOk(s, s.procs[q]);
    }
  }

  lemma StepKeepsInv(s: State, p: nat)
    requires Inv(s) && Running(s, p)
    ensures Inv(Step(s, p))
  {
    var proc := s.procs[p];
    assert ProcOk(s, proc);
    match proc.pc {
      case Opening => OpeningKeepsInv(s, p);
      case Writing(_) => WritingKeepsInv(s, p);
      case Publishing(_) => PublishingKeepsInv(s, p);
      case Cleaning(published) =>
        UnlinkingKeepsInv(s, p, proc.(pc := if published then Returned(proc.key) else LookForFile));
      case LookForFile => LookingKeepsInv(s, p, LoadFile(s.keyFile.Some?));
      case LoadFile(leftover) =>
        LookingKeepsInv(s, p,
                        if Content(s, s.keyFile).Some? then Returned(Content(s, s.keyFile).value)
                        else LookForTemp(leftover));
      case LookForTemp(leftover) => LookingKeepsInv(s, p, if s.temp.Some? then LookForFile else Removing(leftover));
      case Removing(leftover) => UnlinkingKeepsInv(s, p, RetryOrRaise(s, p, leftover).procs[p]);
      case Failing => UnlinkingKeepsInv(s, p, proc.(pc := Raised));
    }
  }

  // ------------------------------------------------------------------ whole runs

  /** `moves[i]` is the process that takes step `i`. */
  ghost predicate IsRun(run: seq<State>, moves: seq<nat>) {
    && |run| == |moves| + 1
    && Start(run[0])
    && forall i | 0 <= i < |moves| :: Running(run[i], moves[i]) && run[i + 1] == Step(run[i], moves[i])
  }

  lemma {:induction false} RunsKeepInv(run: seq<State>, moves: seq<nat>, k: nat)
    requires IsRun(run, moves) && k < |run|
    ensures Inv(run[k]) && |run[k].procs| == |run[0].procs|
  {
    if k > 0 {
      RunsKeepInv(run, moves, k - 1);
      StepKeepsInv(run[k - 1], moves[k - 1]);
      assert run[k] == Step(run[k - 1], moves[k - 1]);
    }
  }

  /** Once published, the key file never changes. */
  lemma {:induction false} ThePublishedKeyIsFinal(run: seq<State>, moves: seq<nat>, i: nat, k: nat)
    requires IsRun(run, moves) && i <= k < |run| && run[i].keyFile.Some?
    ensures run[k].keyFile == run[i].keyFile && Content(run[k], run[k].keyFile) == Content(run[i], run[i].keyFile)
    ensures Content(run[k], run[k].keyFile).Some?
    decreases k
  {
    RunsKeepInv(run, moves, k);
    if i < k {
      ThePublishedKeyIsFinal(run, moves, i, k - 1);
      RunsKeepInv(run, moves, k - 1);
      assert run[k] == Step(run[k - 1], moves[k - 1]);
    }
  }

  /** Agreement: whoever returned a key returned the one the file holds, now and for good. */
  lemma EveryReturnedKeyIsTheFilesKey(run: seq<State>, moves: seq<nat>, i: nat, k: nat, p: nat)
    requires IsRun(run, moves) && i <= k < |run| && p < |run[i].procs| && run[i].procs[p].pc.Returned?
    ensures run[k].keyFile.Some? && Content(run[k], run[k].keyFile) == Some(run[i].procs[p].pc.key)
  {
    RunsKeepInv(run, moves, i);
    assert ProcOk(run[i], run[i].procs[p]);
    ThePublishedKeyIsFinal(run, moves, i, k);
  }

  // ------------------------------------------------------------------ temp files of running writers

  /** Step `k` unlinks, by whatever path, a temp file that another process which is still writing or publishing
      created. */
  ghost predicate RemovesALiveTemp(run: seq<State>, moves: seq<nat>, k: nat)
    requires IsRun(run, moves) && k < |moves|
  {
    && Unlinks(run[k].procs[moves[k]].pc)
    && exists q | 0 <= q < |run[k].procs| ::
        LiveWriter(run[k].procs[q].pc) && run[k].temp == Some(run[k].procs[q].pc.inode)
  }

  /** Whatever the number of processes, a temp file is unlinked only after the key was published, so a live one that
      is lost costs its writer a start but never the agreement. */
  lemma OrphansAreRemovedOnlyAfterPublication(run: seq<State>, moves: seq<nat>, k: nat)
    requires IsRun(run, moves) && k < |moves| && Unlinks(run[k].procs[moves[k]].pc)
    ensures run[k].keyFile.Some?
  {
    RunsKeepInv(run, moves, k);
    assert ProcOk(run[k], run[k].procs[moves[k]]);
  }

  /** With at most two processes no live temp file is ever removed. */
  lemma TwoProcessesSpareLiveTemps(run: seq<State>, moves: seq<nat>, k: nat)
    requires IsRun(run, moves) && k < |moves| && |run[0].procs| <= 2
    ensures !RemovesALiveTemp(run, moves, k)
  {
    RunsKeepInv(run, moves, k);
    TwoProcessesKeepTwoOk(run, moves, k);
    if Unlinks(run[k].procs[moves[k]].pc) {
      OrphansAreRemovedOnlyAfterPublication(run, moves, k);
    }
  }

  /** A process that created the temp file and did not unlink it yet. */
  predicate HoldsTemp(pc: Pc) {
    LiveWriter(pc) || pc.Cleaning?
  }

  /** The temp file belongs to the process that created it. */
  ghost predicate TempOk(s: State) {
    && (forall p | 0 <= p < |s.procs| && HoldsTemp(s.procs[p].pc) ::
          s.temp.Some? && (LiveWriter(s.procs[p].pc) ==> s.temp == Some(s.procs[p].pc.inode)))
    && (forall p, q | 0 <= p < q < |s.procs| :: !HoldsTemp(s.procs[p].pc) || !HoldsTemp(s.procs[q].pc))
  }

  /** An orphan is removed only when every other process is through. */
  ghost predicate RemovalsOk(s: State) {
    forall p, q | 0 <= p < |s.procs| && 0 <= q < |s.procs| && p != q && s.procs[p].pc.Removing? ::
        s.procs[q].pc.Returned?
  }

  /** What two processes keep beside the invariant. */
  ghost predicate TwoOk(s: State) {
    TempOk(s) && RemovalsOk(s) && forall p | 0 <= p < |s.procs| :: FirstTry(s, s.procs[p])
  }

  /** Nobody raises, and a second attempt starts only after publication, so it never waits in vain. */
  predicate FirstTry(s: State, proc: Proc) {
    && !proc.pc.Raised? && !proc.pc.Failing?
    && (proc.attempt > 1 ==> s.keyFile.Some? && !proc.pc.LookForTemp? && !proc.pc.Removing?)
  }

  lemma TheOtherPublished(s: State, p: nat, q: nat)
    requires Inv(s) && |s.procs| <= 2 && p < |s.procs| && q < |s.procs| && p != q && s.keyFile.Some?
    requires s.procs[p].pc != Cleaning(true) && !s.procs[p].pc.Returned?
    ensures s.procs[q].pc == Cleaning(true) || s.procs[q].pc.Returned?
  {
  }

  lemma TempStaysOk(s: State, p: nat)
    requires Inv(s) && TwoOk(s) && Running(s, p) && |s.procs| <= 2
    ensures TempOk(Step(s, p))
  {
  }

  lemma RemovalsStayOk(s: State, p: nat)
    requires Inv(s) && TwoOk(s) && Running(s, p) && |s.procs| <= 2
    ensures RemovalsOk(Step(s, p))
  {
    assert ProcOk(s, s.procs[p]);
    if s.procs[p].pc.LookForTemp? {
      forall q | 0 <= q < |s.procs| && q != p && s.temp.None? ensures s.procs[q].pc.Returned? {
        assert s.keyFile.Some?;
        TheOtherPublished(s, p, q);
      }
    }
  }

  lemma TriesStayOk(s: State, p: nat)
    requires Inv(s) && TwoOk(s) && Running(s, p) && |s.procs| <= 2
    ensures forall q | 0 <= q < |s.procs| :: FirstTry(Step(s, p), Step(s, p).procs[q])
  {
    var s' := Step(s, p);
    assert ProcOk(s, s.procs[p]) && FirstTry(s, s.procs[p]);
    forall q | 0 <= q < |s.procs| ensures FirstTry(s', s'.procs[q]) {
      assert FirstTry(s, s.procs[q]);
    }
  }

  lemma TwoStaysOk(s: State, p: nat)
    requires Inv(s) && TwoOk(s) && Running(s, p) && |s.procs| <= 2
    ensures TwoOk(Step(s, p))
  {
    TempStaysOk(s, p);
    RemovalsStayOk(s, p);
    TriesStayOk(s, p);
  }

  lemma {:induction false} TwoProcessesKeepTwoOk(run: seq<State>, moves: seq<nat>, k: nat)
    requires IsRun(run, moves) && k < |run| && |run[0].procs| <= 2
    ensures TwoOk(run[k])
  {
    if k > 0 {
      TwoProcessesKeepTwoOk(run, moves, k - 1);
      RunsKeepInv(run, moves, k - 1);
      assert run[k] == Step(run[k - 1], moves[k - 1]);
      TwoStaysOk(run[k - 1], moves[k - 1]);
    }
  }

  /** With at most two processes nobody raises. */
  lemma TwoProcessesNeverRaise(run: seq<State>, moves: seq<nat>, k: nat, p: nat)
    requires IsRun(run, moves) && k < |run| && |run[0].procs| <= 2 && p < |run[k].procs|
    ensures !run[k].procs[p].pc.Raised?
  {
    TwoProcessesKeepTwoOk(run, moves, k);
    assert FirstTry(run[k], run[k].procs[p]);
  }

  lemma Extend(run: seq<State>, moves: seq<nat>, p: nat) returns (run': seq<State>, moves': seq<nat>)
    requires IsRun(run, moves) && Running(run[|run| - 1], p)
    ensures IsRun(run', moves') && |run'| == |run| + 1
    ensures run'[..|run|] == run && moves' == moves + [p]
    ensures run'[|run|] == Step(run[|run| - 1], p)
  {
    run', moves' := run + [Step(run[|run| - 1], p)], moves + [p];
  }

  /** The first process writes its temp file and the second is about to look for it again. */
  lemma TheSecondWaitsForTheFirst(run: seq<State>, moves: seq<nat>) returns (run': seq<State>, moves': seq<nat>)
    requires IsRun(run, moves) && |run| == 1 && |run[0].procs| >= 3
    ensures IsRun(run', moves') && |run'| == 5 && run'[0] == run[0]
    ensures var s := run'[4];
            && |s.procs| == |run[0].procs| && s.keyFile.None? && s.temp == Some(0) && s.inodes == [None]
            && s.procs[0].pc == Writing(0) && !s.procs[0].replace
            && s.procs[1].pc == LookForTemp(false) && s.procs[2].pc == Opening
  {
    run', moves' := Extend(run, moves, 0);
    run', moves' := Extend(run', moves', 1);
    run', moves' := Extend(run', moves', 1);
    run', moves' := Extend(run', moves', 1);
  }

  /** The first process publishes its key, removes its temp file and returns. */
  lemma TheFirstPublishes(run: seq<State>, moves: seq<nat>) returns (run': seq<State>, moves': seq<nat>)
    requires IsRun(run, moves) && |run| == 5
    requires var s := run[4];
             && |s.procs| >= 3 && s.keyFile.None? && s.temp == Some(0) && s.inodes == [None]
             && s.procs[0].pc == Writing(0) && !s.procs[0].replace
             && s.procs[1].pc == LookForTemp(false) && s.procs[2].pc == Opening
    ensures IsRun(run', moves') && |run'| == 8 && run'[0] == run[0]
    ensures var s := run'[7];
            |s.procs| >= 3 && s.temp.None? && |s.inodes| == 1 && s.procs[1].pc == LookForTemp(false)
                && s.procs[2].pc == Opening
  {
    run', moves' := Extend(run, moves, 0);
    run', moves' := Extend(run', moves', 0);
    run', moves' := Extend(run', moves', 0);
  }

  /** With three it happens: the first publishes and cleans up while the second is about to look for the temp
      file; the third then creates its own, and the second removes it.  The third writes on, finds nothing to
      link, unlinks the name once more, and raises without a key. */
  lemma ThreeProcessesCanLoseALiveTemp(keys: seq<Key>) returns (run: seq<State>, moves: seq<nat>)
    requires |keys| >= 3
    ensures IsRun(run, moves) && |run[0].procs| == |keys| && |moves| == 13
    ensures forall p | 0 <= p < |keys| :: run[0].procs[p].key == keys[p]
    ensures |run[9].procs| == |run[13].procs| == |keys|
    ensures RemovesALiveTemp(run, moves, 9) && moves[9] == 1 && run[9].procs[2].pc == Writing(1)
    ensures run[9].temp == Some(1)
    ensures run[13].procs[2].pc.Raised?
  {
    var start := State(None, None, [], seq(|keys|, p requires 0 <= p < |keys| => Proc(keys[p], 1, false, Opening)),
                       None);
    run, moves := TheThirdCreatesItsTemp(start);
    run, moves := TheThirdLosesItsTemp(run, moves);
    RunsKeepInv(run, moves, 9);
    RunsKeepInv(run, moves, 13);
  }

  lemma TheThirdCreatesItsTemp(start: State) returns (run: seq<State>, moves: seq<nat>)
    requires Start(start) && |start.procs| >= 3
    ensures IsRun(run, moves) && |run| == 10 && run[0] == start
    ensures var s := run[9];
            && |s.procs| >= 3 && |s.inodes| == 2 && s.temp == Some(1)
            && s.procs[1].pc == Removing(false) && s.procs[2].pc == Writing(1)
  {
    run, moves := TheSecondWaitsForTheFirst([start], []);
    run, moves := TheFirstPublishes(run, moves);
    run, moves := Extend(run, moves, 1);
    run, moves := Extend(run, moves, 2);
  }

  lemma TheThirdLosesItsTemp(run: seq<State>, moves: seq<nat>) returns (run': seq<State>, moves': seq<nat>)
    requires IsRun(run, moves) && |run| == 10
    requires var s := run[9];
             && |s.procs| >= 3 && |s.inodes| == 2 && s.temp == Some(1)
             && s.procs[1].pc == Removing(false) && s.procs[2].pc == Writing(1)
    ensures IsRun(run', moves') && |moves'| == 13 && run'[..10] == run
    ensures run'[0] == run[0] && run'[9] == run[9]
    ensures RemovesALiveTemp(run', moves', 9) && moves'[9] == 1
    ensures |run'[13].procs| == |run[9].procs| && run'[13].procs[2].pc.Raised?
  {
    assert LiveWriter(run[9].procs[2].pc) && run[9].temp == Some(run[9].procs[2].pc.inode);
    run', moves' := Extend(run, moves, 1);
    run', moves' := Extend(run', moves', 2);
    run', moves' := Extend(run', moves', 2);
    run', moves' := Extend(run', moves', 2);
    assert run'[..10][9] == run'[9] && run'[..10][0] == run'[0];
  }
}
