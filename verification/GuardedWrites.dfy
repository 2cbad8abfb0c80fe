/** Description writes against concurrent generations: the guarded write of the store
    (`SearchStore.write_description`), the runs that read a row, ask a model and land its answer
    (archon_search/description_lifecycle.py, `_read_row` to `_record_failure`), the operator's writes
    (archon_search/description_writer.py) and the memory of failures the store could not take.

    Every stretch between two awaits is one event, and any number of runs and writes interleave.  A write that
    committed moves the collection's `description_version` in a later event of its own; `Owed` counts the
    moves that are still to come.  Slot, queue and tasks are left to module `Lifecycle`: here runs start at
    any moment and side by side, which only adds interleavings. */
module GuardedWrites {
  import opened Options
  import opened DescriptionWrite

  const ROW_READ_ATTEMPTS := 3

  /** One collection in the store.  `version` is its `description_version`; `commits` counts the committed
      changes of its description state, which the code does not; `lock` names the write that holds the
      collection lock. */
  datatype Cell = Cell(row: Option<Meta>, version: nat, commits: nat, lock: Option<nat>)

  /** How many committed changes have not moved the version yet. */
  function Owed(cell: Cell): int {
    cell.commits - cell.version
  }

  /** What the store held when a run sampled the version: history the code does not keep. */
  datatype Sample = Sample(desc: DescState, commits: nat)

  datatype WriteEnd = Returned(outcome: Outcome) | Raised

  /** `Locked`: holds the lock and read the row `seen`.  `Landed`: committed, the lock still held. */
  datatype Stage = Queued | Locked(seen: Meta) | Landed | Ended(end: WriteEnd)

  datatype Write = Write(collection: string, change: Change, vector: Option<Vector>, now: int, run: Option<nat>,
                         stage: Stage)

  datatype Pc =
    | Sampled(tries: nat)
    | RowRead(tries: nat, row: Option<Meta>)
    | Generating
    | Saving(write: nat)
    | Recording(write: nat)
    | Over

  /** `read` is the row the run went on with. */
  datatype Run = Run(collection: string, kind: Kind, pc: Pc, version: nat, sample: Sample, read: Option<Meta>)

  datatype Remembered = Remembered(version: nat, sample: Sample, read: Option<Meta>)

  datatype Store = Store(cells: map<string, Cell>, writes: seq<Write>, runs: seq<Run>, memory: map<string, Remembered>)

  function At(cells: map<string, Cell>, c: string): Cell {
    if c in cells then cells[c] else Cell(None, 0, 0, None)
  }

  function Put(s: Store, c: string, cell: Cell): Store {
    s.(cells := s.cells[c := cell])
  }

  function SampleOf(cell: Cell): Sample {
    Sample(Described(cell.row), cell.commits)
  }

  // ------------------------------------------------------------------ events

  datatype Event =
    | BeginRun(collection: string, kind: Kind)
    | RowArrives(run: nat)
    | ReadRaises(run: nat)
    | CompareVersions(run: nat)
    | ModelGives(run: nat, text: string, vector: Option<Vector>, now: int)
    | ModelFails(run: nat)
    | RunLearns(run: nat)
    | RunStops(run: nat)
    | Submit(collection: string, change: Change, vector: Option<Vector>, now: int)
    | TakeLock(write: nat)
    | Commit(write: nat)
    | ReleaseLock(write: nat)
    | WriteFails(write: nat, end: WriteEnd)
    | MoveVersion(collection: string)
    | Touch(collection: string, docCount: nat, chunkCount: nat, model: string)
    | RepairVector(collection: string, model: string)
    | DeleteRow(collection: string)

  predicate Enabled(s: Store, e: Event) {
    match e
    case BeginRun(_, _) => true
    case RowArrives(r) => r < |s.runs| && s.runs[r].pc.Sampled?
    case ReadRaises(r) => r < |s.runs| && s.runs[r].pc.Sampled?
    case CompareVersions(r) => r < |s.runs| && s.runs[r].pc.RowRead?
    case ModelGives(r, text, vector, _) =>
      r < |s.runs| && s.runs[r].pc.Generating? && s.runs[r].read.Some? && text != ""
          && (vector.Some? ==> vector.value.of == text)
    case ModelFails(r) => r < |s.runs| && s.runs[r].pc.Generating? && s.runs[r].read.Some?
    case RunLearns(r) =>
      && r < |s.runs| && (s.runs[r].pc.Saving? || s.runs[r].pc.Recording?) && s.runs[r].read.Some?
      && s.runs[r].pc.write < |s.writes| && s.writes[s.runs[r].pc.write].stage.Ended?
    case RunStops(r) => r < |s.runs|
    case Submit(_, change, vector, _) => GuardOf(change).Unconditional? && WellFormed(change, vector)
    case TakeLock(w) => w < |s.writes| && s.writes[w].stage.Queued? && At(s.cells, s.writes[w].collection).lock.None?
    case Commit(w) => w < |s.writes| && s.writes[w].stage.Locked?
    case ReleaseLock(w) => w < |s.writes| && s.writes[w].stage.Landed?
    case WriteFails(w, end) =>
      && w < |s.writes| && !s.writes[w].stage.Ended?
      && (end.Raised? || (end.outcome.LockTimeout? && s.writes[w].stage.Queued?))
    case MoveVersion(c) => Owed(At(s.cells, c)) > 0
    case Touch(c, _, _, _) => At(s.cells, c).lock.None?
    case RepairVector(c, _) =>
      At(s.cells, c).lock.None? && At(s.cells, c).row.Some? && At(s.cells, c).row.value.description.Some?
          && At(s.cells, c).row.value.embedding.None?
    case DeleteRow(c) => At(s.cells, c).lock.None? && At(s.cells, c).row.Some?
  }

  function SetRun(s: Store, r: nat, run: Run): Store
    requires r < |s.runs|
  {
    s.(runs := s.runs[r := run])
  }

  function SetStage(s: Store, w: nat, stage: Stage): Store
    requires w < |s.writes|
  {
    s.(writes := s.writes[w := s.writes[w].(stage := stage)])
  }

  /** `_remember_unstored_failure`: entries a later change made stale are dropped. */
  function Remember(s: Store, r: nat): Store
    requires r < |s.runs|
  {
    var run := s.runs[r];
    var current := map n | n in s.memory && s.memory[n].version == At(s.cells, n).version :: s.memory[n];
    s.(memory := current[run.collection := Remembered(run.version, run.sample, run.read)])
  }

  /** A run hands `change` to the writer and waits for write number `|s.writes|`. */
  function Land(s: Store, r: nat, change: Change, vector: Option<Vector>, now: int, pc: Pc): Store
    requires r < |s.runs|
  {
    var run := s.runs[r];
    SetRun(s, r, run.(pc := pc)).(writes := s.writes + [Write(run.collection, change, vector, now, Some(r), Queued)])
  }

  /** One pass of `_read_row` after its read: another read, or the decision what the run does with its row. */
  function AfterRead(s: Store, run: Run, tries: nat, row: Option<Meta>): Run {
    var cell := At(s.cells, run.collection);
    if cell.version != run.version && tries < ROW_READ_ATTEMPTS then
      run.(pc := Sampled(tries + 1), version := cell.version, sample := SampleOf(cell), read := None)
    else if row.None? || GenerationRefused(run.kind, row.value).Some? then run.(pc := Over)
    else run.(pc := Generating, read := row)
  }

  function Learn(s: Store, r: nat): Store
    requires Enabled(s, RunLearns(r))
  {
    var run := s.runs[r];
    var end := s.writes[run.pc.write].stage.end;
    if !(end.Raised? || end.outcome.LockTimeout?) then SetRun(s, r, run.(pc := Over))
    else if run.pc.Saving? then Land(s, r, FailureChange(Expect(run.read.value)), None, 0, Recording(|s.writes|))
    else Remember(SetRun(s, r, run.(pc := Over)), r)
  }

  function CommitStep(s: Store, w: nat): Store
    requires Enabled(s, Commit(w))
  {
    var write := s.writes[w];
    var seen := write.stage.seen;
    var cell := At(s.cells, write.collection);
    if !Admits(GuardOf(write.change), seen) then
      Put(SetStage(s, w, Ended(Returned(Refusal(GuardOf(write.change).expected, seen).value))), write.collection,
          cell.(lock := None))
    else
      Put(SetStage(s, w, Landed), write.collection,
          cell.(row := Some(ApplyTo(FieldsOf(write.change, write.vector, write.now), seen)),
                commits := cell.commits + 1))
  }

  function Step(s: Store, e: Event): Store
    requires Enabled(s, e)
  {
    match e
    case BeginRun(c, kind) =>
      s.(runs := s.runs + [Run(c, kind, Sampled(1), At(s.cells, c).version, SampleOf(At(s.cells, c)), None)])
    case RowArrives(r) =>
      var run := s.runs[r];
      SetRun(s, r, run.(pc := RowRead(run.pc.tries, At(s.cells, run.collection).row)))
    case ReadRaises(r) => Remember(SetRun(s, r, s.runs[r].(pc := Over)), r)
    case CompareVersions(r) => SetRun(s, r, AfterRead(s, s.runs[r], s.runs[r].pc.tries, s.runs[r].pc.row))
    case ModelGives(r, text, vector, now) =>
      var read := s.runs[r].read.value;
      Land(s, r, GeneratedChange(text, read.docCount, Expect(read)), vector, now, Saving(|s.writes|))
    case ModelFails(r) => Land(s, r, FailureChange(Expect(s.runs[r].read.value)), None, 0, Recording(|s.writes|))
    case RunLearns(r) => Learn(s, r)
    case RunStops(r) => SetRun(s, r, s.runs[r].(pc := Over))
    case Submit(c, change, vector, now) => s.(writes := s.writes + [Write(c, change, vector, now, None, Queued)])
    case TakeLock(w) =>
      var c := s.writes[w].collection;
      if At(s.cells, c).row.None? then SetStage(s, w, Ended(Returned(CollectionMissing)))
      else Put(SetStage(s, w, Locked(At(s.cells, c).row.value)), c, At(s.cells, c).(lock := Some(w)))
    case Commit(w) => CommitStep(s, w)
    case ReleaseLock(w) =>
      Put(SetStage(s, w, Ended(Returned(Written))), s.writes[w].collection,
          At(s.cells, s.writes[w].collection).(lock := None))
    case WriteFails(w, end) =>
      var c := s.writes[w].collection;
      var ended := SetStage(s, w, Ended(end));
      if s.writes[w].stage.Queued? then ended else Put(ended, c, At(s.cells, c).(lock := None))
    case MoveVersion(c) => Put(s, c, At(s.cells, c).(version := At(s.cells, c).version + 1))
    case Touch(c, docs, chunks, model) =>
      var row := if At(s.cells, c).row.None? then BareRow(docs, chunks, model)
                 else At(s.cells, c).row.value.(docCount := docs, chunkCount := chunks, model := model);
      Put(s, c, At(s.cells, c).(row := Some(row)))
    case RepairVector(c, model) =>
      var row := At(s.cells, c).row.value;
      Put(s, c, At(s.cells, c).(row := Some(row.(embedding := Some(Vector(model, row.description.value))))))
    case DeleteRow(c) => Put(s, c, At(s.cells, c).(row := None, commits := At(s.cells, c).commits + 1))
  }

  // ------------------------------------------------------------------ the invariant

  /** A sample agrees with the version taken beside it, is never ahead of the store, and shows the present
      description state for as long as nothing was committed since. */
  ghost predicate SampleOk(cell: Cell, version: nat, sample: Sample, read: Option<Meta>) {
    && version <= sample.commits
    && sample.commits <= cell.commits
    && (sample.commits == cell.commits ==>
          && Described(cell.row) == sample.desc
          && (read.Some? ==> Described(read) == sample.desc))
  }

  ghost predicate RunOk(cell: Cell, run: Run) {
    && SampleOk(cell, run.version, run.sample, run.read)
    && (run.pc.Sampled? || run.pc.RowRead? ==> run.read.None?)
    && (run.pc.Generating? || run.pc.Saving? || run.pc.Recording? ==> run.read.Some?)
    && (run.pc.RowRead? && run.sample.commits == cell.commits ==> Described(run.pc.row) == run.sample.desc)
  }

  /** A run that has a write never goes back to reading. */
  predicate PastReading(pc: Pc) {
    pc.Saving? || pc.Recording? || pc.Over?
  }

  /** A write of a run carries the guard of the row the run read; every other write is unconditional. */
  ghost predicate GuardOk(runs: seq<Run>, write: Write) {
    && WellFormed(write.change, write.vector)
    && (write.run.None? ==> GuardOf(write.change).Unconditional?)
    && (write.run.Some? ==>
          && write.run.value < |runs|
          && var run := runs[write.run.value];
             && PastReading(run.pc)
             && run.read.Some?
             && GuardOf(write.change) == Guarded(Expect(run.read.value))
             && (write.change.GeneratedChange? ==> write.change.docCount == run.read.value.docCount))
  }

  /** A write that holds the lock still sees the row it read. */
  ghost predicate LockOk(cell: Cell, w: nat, stage: Stage) {
    && (stage.Locked? ==> cell.lock == Some(w) && cell.row == Some(stage.seen))
    && (stage.Landed? ==> cell.lock == Some(w))
  }

  /** The version never runs ahead of the commits. */
  ghost predicate RowsOk(cells: map<string, Cell>) {
    forall c | c in cells ::
        cells[c].version <= cells[c].commits && (cells[c].row.Some? ==> Coherent(cells[c].row.value))
  }

  ghost predicate RunsOk(cells: map<string, Cell>, runs: seq<Run>) {
    forall r | 0 <= r < |runs| :: RunOk(At(cells, runs[r].collection), runs[r])
  }

  ghost predicate GuardsOk(runs: seq<Run>, writes: seq<Write>) {
    forall w | 0 <= w < |writes| :: GuardOk(runs, writes[w])
  }

  ghost predicate LocksOk(cells: map<string, Cell>, writes: seq<Write>) {
    forall w | 0 <= w < |writes| :: LockOk(At(cells, writes[w].collection), w, writes[w].stage)
  }

  ghost predicate MemoryOk(cells: map<string, Cell>, memory: map<string, Remembered>) {
    forall c | c in memory :: SampleOk(At(cells, c), memory[c].version, memory[c].sample, memory[c].read)
  }

  ghost predicate Inv(s: Store) {
    && RowsOk(s.cells)
    && RunsOk(s.cells, s.runs)
    && GuardsOk(s.runs, s.writes)
    && LocksOk(s.cells, s.writes)
    && MemoryOk(s.cells, s.memory)
  }

  /** Rows that were read from disk, before this process wrote anything. */
  ghost predicate Start(s: Store) {
    && s.writes == [] && s.runs == [] && s.memory == map[]
    && RowsOk(s.cells)
    && forall c | c in s.cells :: s.cells[c].version == 0 && s.cells[c].commits == 0 && s.cells[c].lock.None?
  }

  // ------------------------------------------------------------------ every event keeps it

  /** A cell that moves on by a commit, or keeps its description state and its commits. */
  ghost predicate Advances(cell: Cell, cell': Cell) {
    || cell'.commits > cell.commits
    || (cell'.commits == cell.commits && Described(cell'.row) == Described(cell.row))
  }

  lemma SampleSurvives(cell: Cell, cell': Cell, version: nat, sample: Sample, read: Option<Meta>)
    requires SampleOk(cell, version, sample, read) && Advances(cell, cell')
    ensures SampleOk(cell', version, sample, read)
  {
  }

  lemma RunSurvives(cell: Cell, cell': Cell, run: Run)
    requires RunOk(cell, run) && Advances(cell, cell')
    ensures RunOk(cell', run)
  {
    SampleSurvives(cell, cell', run.version, run.sample, run.read);
  }

  lemma AtUpdate(cells: map<string, Cell>, c: string, cell': Cell, d: string)
    ensures At(cells[c := cell'], d) == if d == c then cell' else At(cells, d)
  {
  }

  lemma SamplesSurvive(cells: map<string, Cell>, c: string, cell': Cell, runs: seq<Run>)
    requires RunsOk(cells, runs) && Advances(At(cells, c), cell')
    ensures RunsOk(cells[c := cell'], runs)
  {
    forall r | 0 <= r < |runs| ensures RunOk(At(cells[c := cell'], runs[r].collection), runs[r]) {
      AtUpdate(cells, c, cell', runs[r].collection);
      if runs[r].collection == c {
        RunSurvives(At(cells, c), cell', runs[r]);
      }
    }
  }

  lemma MemorySurvives(cells: map<string, Cell>, c: string, cell': Cell, memory: map<string, Remembered>)
    requires MemoryOk(cells, memory) && Advances(At(cells, c), cell')
    ensures MemoryOk(cells[c := cell'], memory)
  {
    forall d | d in memory
      ensures SampleOk(At(cells[c := cell'], d), memory[d].version, memory[d].sample, memory[d].read)
    {
      AtUpdate(cells, c, cell', d);
      if d == c {
        SampleSurvives(At(cells, c), cell', memory[d].version, memory[d].sample, memory[d].read);
      }
    }
  }

  /** Nobody else holds the lock of a collection whose lock is free or held by write `w`. */
  lemma LocksSurvive(cells: map<string, Cell>, c: string, cell': Cell, writes: seq<Write>, w: nat, stage': Stage)
    requires LocksOk(cells, writes)
    requires At(cells, c).lock.None? || At(cells, c).lock == Some(w)
    requires w < |writes| && writes[w].collection == c && LockOk(cell', w, stage')
    ensures LocksOk(cells[c := cell'], writes[w := writes[w].(stage := stage')])
  {
    var writes' := writes[w := writes[w].(stage := stage')];
    forall i | 0 <= i < |writes| ensures LockOk(At(cells[c := cell'], writes'[i].collection), i, writes'[i].stage) {
      AtUpdate(cells, c, cell', writes[i].collection);
      assert LockOk(At(cells, writes[i].collection), i, writes[i].stage);
    }
  }

  lemma StagesKeepGuards(runs: seq<Run>, writes: seq<Write>, w: nat, stage': Stage)
    requires GuardsOk(runs, writes) && w < |writes|
    ensures GuardsOk(runs, writes[w := writes[w].(stage := stage')])
  {
    var writes' := writes[w := writes[w].(stage := stage')];
    forall i | 0 <= i < |writes'| ensures GuardOk(runs, writes'[i]) {
      assert GuardOk(runs, writes[i]);
    }
  }

  lemma RowsSurvive(cells: map<string, Cell>, c: string, cell': Cell)
    requires RowsOk(cells) && cell'.version <= cell'.commits && (cell'.row.Some? ==> Coherent(cell'.row.value))
    ensures RowsOk(cells[c := cell'])
  {
  }

  /** Write `w` changed its stage and the cell of its collection. */
  lemma WriteAndCellKeepInv(s: Store, w: nat, stage': Stage, cell': Cell)
    requires Inv(s) && w < |s.writes|
    requires var cell := At(s.cells, s.writes[w].collection);
             (cell.lock.None? || cell.lock == Some(w)) && Advances(cell, cell')
    requires cell'.version <= cell'.commits && (cell'.row.Some? ==> Coherent(cell'.row.value))
    requires LockOk(cell', w, stage')
    ensures Inv(Put(SetStage(s, w, stage'), s.writes[w].collection, cell'))
  {
    var c := s.writes[w].collection;
    SamplesSurvive(s.cells, c, cell', s.runs);
    MemorySurvives(s.cells, c, cell', s.memory);
    LocksSurvive(s.cells, c, cell', s.writes, w, stage');
    StagesKeepGuards(s.runs, s.writes, w, stage');
    RowsSurvive(s.cells, c, cell');
  }

  lemma StageKeepsInv(s: Store, w: nat, end: WriteEnd)
    requires Inv(s) && w < |s.writes|
    ensures Inv(SetStage(s, w, Ended(end)))
  {
    var s' := SetStage(s, w, Ended(end));
    StagesKeepGuards(s.runs, s.writes, w, Ended(end));
    forall i | 0 <= i < |s'.writes| ensures LockOk(At(s'.cells, s'.writes[i].collection), i, s'.writes[i].stage) {
      assert LockOk(At(s.cells, s.writes[i].collection), i, s.writes[i].stage);
    }
  }

  lemma CommitKeepsInv(s: Store, w: nat)
    requires Inv(s) && Enabled(s, Commit(w))
    ensures Inv(CommitStep(s, w))
  {
    var write := s.writes[w];
    var cell := At(s.cells, write.collection);
    assert GuardOk(s.runs, write) && LockOk(cell, w, write.stage);
    var seen := write.stage.seen;
    assert Coherent(seen);
    if Admits(GuardOf(write.change), seen) {
      var fields := FieldsOf(write.change, write.vector, write.now);
      WriterBuildsAdmissibleFields(write.change, write.vector, write.now);
      AdmissibleWritesKeepRowsCoherent(fields, seen);
      WriteAndCellKeepInv(s, w, Landed, cell.(row := Some(ApplyTo(fields, seen)), commits := cell.commits + 1));
    } else {
      WriteAndCellKeepInv(s, w, Ended(Returned(Refusal(GuardOf(write.change).expected, seen).value)),
                          cell.(lock := None));
    }
  }

  lemma WriteStepKeepsInv(s: Store, e: Event)
    requires Inv(s) && Enabled(s, e)
    requires e.TakeLock? || e.ReleaseLock? || e.WriteFails?
    ensures Inv(Step(s, e))
  {
    var w := e.write;
    var write := s.writes[w];
    var cell := At(s.cells, write.collection);
    assert LockOk(cell, w, write.stage);
    if e.TakeLock? {
      if cell.row.None? {
        StageKeepsInv(s, w, Returned(CollectionMissing));
      } else {
        WriteAndCellKeepInv(s, w, Locked(cell.row.value), cell.(lock := Some(w)));
      }
    } else if e.ReleaseLock? {
      WriteAndCellKeepInv(s, w, Ended(Returned(Written)), cell.(lock := None));
    } else if write.stage.Queued? {
      StageKeepsInv(s, w, e.end);
    } else {
      WriteAndCellKeepInv(s, w, Ended(e.end), cell.(lock := None));
    }
  }

  lemma StoreStepKeepsInv(s: Store, e: Event)
    requires Inv(s) && Enabled(s, e)
    requires e.MoveVersion? || e.Touch? || e.RepairVector? || e.DeleteRow?
    ensures Inv(Step(s, e))
  {
    var s', c := Step(s, e), e.collection;
    var cell, cell' := At(s.cells, c), At(s'.cells, c);
    assert s' == Put(s, c, cell');
    assert Advances(cell, cell') && cell'.lock == cell.lock;
    assert e.MoveVersion? || cell.lock.None?;
    SamplesSurvive(s.cells, c, cell', s.runs);
    MemorySurvives(s.cells, c, cell', s.memory);
    RowsSurvive(s.cells, c, cell');
    forall i | 0 <= i < |s.writes| ensures LockOk(At(s'.cells, s.writes[i].collection), i, s.writes[i].stage) {
      AtUpdate(s.cells, c, cell', s.writes[i].collection);
      assert LockOk(At(s.cells, s.writes[i].collection), i, s.writes[i].stage);
    }
  }

  /** A run moved on: its sample holds, and its writes still find the row it read. */
  lemma RunStepKeepsInv(s: Store, r: nat, run': Run)
    requires Inv(s) && r < |s.runs|
    requires RunOk(At(s.cells, run'.collection), run')
    requires PastReading(s.runs[r].pc) ==> PastReading(run'.pc) && run'.read == s.runs[r].read
    ensures Inv(SetRun(s, r, run'))
  {
    var s' := SetRun(s, r, run');
    forall i | 0 <= i < |s.writes| ensures GuardOk(s'.runs, s.writes[i]) {
      assert GuardOk(s.runs, s.writes[i]);
    }
    forall i | 0 <= i < |s'.runs| ensures RunOk(At(s.cells, s'.runs[i].collection), s'.runs[i]) {
      if i != r {
        assert RunOk(At(s.cells, s.runs[i].collection), s.runs[i]);
      }
    }
  }

  lemma NewWriteKeepsInv(s: Store, write: Write)
    requires Inv(s) && GuardOk(s.runs, write) && write.stage.Queued?
    ensures Inv(s.(writes := s.writes + [write]))
  {
    var writes' := s.writes + [write];
    forall i | 0 <= i < |writes'|
      ensures GuardOk(s.runs, writes'[i]) && LockOk(At(s.cells, writes'[i].collection), i, writes'[i].stage)
    {
      if i < |s.writes| {
        assert GuardOk(s.runs, s.writes[i]) && LockOk(At(s.cells, s.writes[i].collection), i, s.writes[i].stage);
      }
    }
  }

  lemma LandingKeepsInv(s: Store, r: nat, change: Change, vector: Option<Vector>, now: int, pc: Pc)
    requires Inv(s) && r < |s.runs| && WellFormed(change, vector) && PastReading(pc)
    requires s.runs[r].read.Some? && !s.runs[r].pc.Sampled? && !s.runs[r].pc.RowRead?
    requires GuardOf(change) == Guarded(Expect(s.runs[r].read.value))
    requires change.GeneratedChange? ==> change.docCount == s.runs[r].read.value.docCount
    ensures Inv(Land(s, r, change, vector, now, pc))
  {
    assert RunOk(At(s.cells, s.runs[r].collection), s.runs[r]);
    RunStepKeepsInv(s, r, s.runs[r].(pc := pc));
    NewWriteKeepsInv(SetRun(s, r, s.runs[r].(pc := pc)),
                     Write(s.runs[r].collection, change, vector, now, Some(r), Queued));
  }

  lemma RememberingKeepsInv(s: Store, r: nat)
    requires Inv(s) && r < |s.runs|
    ensures Inv(Remember(SetRun(s, r, s.runs[r].(pc := Over)), r))
  {
    var run := s.runs[r];
    assert RunOk(At(s.cells, run.collection), run);
    RunStepKeepsInv(s, r, run.(pc := Over));
    var s' := Remember(SetRun(s, r, run.(pc := Over)), r);
    forall d | d in s'.memory
      ensures SampleOk(At(s.cells, d), s'.memory[d].version, s'.memory[d].sample, s'.memory[d].read)
    {
      if d != run.collection {
        assert SampleOk(At(s.cells, d), s.memory[d].version, s.memory[d].sample, s.memory[d].read);
      }
    }
  }

  lemma BeginningKeepsInv(s: Store, c: string, kind: Kind)
    requires Inv(s)
    ensures Inv(Step(s, BeginRun(c, kind)))
  {
    var s' := Step(s, BeginRun(c, kind));
    forall r | 0 <= r < |s'.runs| ensures RunOk(At(s.cells, s'.runs[r].collection), s'.runs[r]) {
      if r < |s.runs| {
        assert RunOk(At(s.cells, s.runs[r].collection), s.runs[r]);
      }
    }
    forall w | 0 <= w < |s.writes| ensures GuardOk(s'.runs, s.writes[w]) {
      assert GuardOk(s.runs, s.writes[w]);
    }
  }

  lemma RunEventKeepsInv(s: Store, e: Event)
    requires Inv(s) && Enabled(s, e)
    requires || e.RowArrives? || e.ReadRaises? || e.CompareVersions? || e.ModelGives? || e.ModelFails? || e.RunLearns?
             || e.RunStops?
    ensures Inv(Step(s, e))
  {
    var s', r := Step(s, e), e.run;
    var run := s.runs[r];
    assert RunOk(At(s.cells, run.collection), run);
    if e.RowArrives? {
      RunStepKeepsInv(s, r, run.(pc := RowRead(run.pc.tries, At(s.cells, run.collection).row)));
    } else if e.ReadRaises? {
      RememberingKeepsInv(s, r);
    } else if e.CompareVersions? {
      RunStepKeepsInv(s, r, AfterRead(s, run, run.pc.tries, run.pc.row));
    } else if e.ModelGives? {
      LandingKeepsInv(s, r, GeneratedChange(e.text, run.read.value.docCount, Expect(run.read.value)), e.vector, e.now,
                      Saving(|s.writes|));
    } else if e.ModelFails? {
      LandingKeepsInv(s, r, FailureChange(Expect(run.read.value)), None, 0, Recording(|s.writes|));
    } else if e.RunStops? {
      RunStepKeepsInv(s, r, run.(pc := Over));
    } else {
      LearningKeepsInv(s, r);
    }
  }

  lemma LearningKeepsInv(s: Store, r: nat)
    requires Inv(s) && Enabled(s, RunLearns(r))
    ensures Inv(Learn(s, r))
  {
    var run := s.runs[r];
    assert RunOk(At(s.cells, run.collection), run);
    var end := s.writes[run.pc.write].stage.end;
    if !(end.Raised? || end.outcome.LockTimeout?) {
      RunStepKeepsInv(s, r, run.(pc := Over));
    } else if run.pc.Saving? {
      LandingKeepsInv(s, r, FailureChange(Expect(run.read.value)), None, 0, Recording(|s.writes|));
    } else {
      RememberingKeepsInv(s, r);
    }
  }

  lemma StepKeepsInv(s: Store, e: Event)
    requires Inv(s) && Enabled(s, e)
    ensures Inv(Step(s, e))
  {
    if e.Commit? {
      CommitKeepsInv(s, e.write);
    } else if e.TakeLock? || e.ReleaseLock? || e.WriteFails? {
      WriteStepKeepsInv(s, e);
    } else if e.MoveVersion? || e.Touch? || e.RepairVector? || e.DeleteRow? {
      StoreStepKeepsInv(s, e);
    } else if e.BeginRun? {
      BeginningKeepsInv(s, e.collection, e.kind);
    } else if e.Submit? {
      NewWriteKeepsInv(s, Write(e.collection, e.change, e.vector, e.now, None, Queued));
    } else {
      RunEventKeepsInv(s, e);
    }
  }

  // ------------------------------------------------------------------ whole runs

  ghost predicate IsTrace(trace: seq<Store>, events: seq<Event>) {
    && |trace| == |events| + 1
    && Start(trace[0])
    && forall i | 0 <= i < |events| :: Enabled(trace[i], events[i]) && trace[i + 1] == Step(trace[i], events[i])
  }

  lemma {:induction false} TracesKeepInv(trace: seq<Store>, events: seq<Event>, k: nat)
    requires IsTrace(trace, events) && k < |trace|
    ensures Inv(trace[k])
  {
    if k > 0 {
      TracesKeepInv(trace, events, k - 1);
      StepKeepsInv(trace[k - 1], events[k - 1]);
      assert trace[k] == Step(trace[k - 1], events[k - 1]);
    }
  }

  /** The vector beside a description is absent or was computed from it, in every state of every interleaving. */
  lemma StoredVectorsBelongToTheirText(trace: seq<Store>, events: seq<Event>, k: nat, c: string)
    requires IsTrace(trace, events) && k < |trace| && At(trace[k].cells, c).row.Some?
    ensures Coherent(At(trace[k].cells, c).row.value)
  {
    TracesKeepInv(trace, events, k);
  }

  /** Manual wins: a manual description changes only when an unconditional write (set, clear, import) commits,
      or when the row is deleted. */
  lemma ManualDescriptionsChangeOnlyByTheOperator(trace: seq<Store>, events: seq<Event>, k: nat, c: string)
    requires IsTrace(trace, events) && k + 1 < |trace|
    requires At(trace[k].cells, c).row.Some? && At(trace[k].cells, c).row.value.source == Some(Manual)
    requires Described(At(trace[k + 1].cells, c).row) != Described(At(trace[k].cells, c).row)
    ensures events[k] == DeleteRow(c) ||
            (&& events[k].Commit? && events[k].write < |trace[k].writes|
             && var change := trace[k].writes[events[k].write].change;
                change.ManualSetChange? || change.ImportedChange? || change.ClearChange?)
  {
    TracesKeepInv(trace, events, k);
    assert Enabled(trace[k], events[k]) && trace[k + 1] == Step(trace[k], events[k]);
    if events[k].Commit? {
      var w := events[k].write;
      assert GuardOk(trace[k].runs, trace[k].writes[w])
             && LockOk(At(trace[k].cells, trace[k].writes[w].collection), w, trace[k].writes[w].stage);
    }
  }

  /** A generated text or a recorded failure lands only on a row that is not manual and holds the four values
      its run read, and it changes that row exactly as its fields say. */
  lemma GuardedWritesLandOnlyOnTheRowTheyRead(trace: seq<Store>, events: seq<Event>, k: nat)
    requires IsTrace(trace, events) && k + 1 < |trace| && events[k].Commit?
    requires events[k].write < |trace[k].writes| && trace[k].writes[events[k].write].run.Some?
    requires events[k].write < |trace[k + 1].writes| && trace[k + 1].writes[events[k].write].stage.Landed?
    ensures var write := trace[k].writes[events[k].write];
            var before := At(trace[k].cells, write.collection).row;
            && write.run.value < |trace[k].runs|
            && before.Some? && before.value.source != Some(Manual)
            && trace[k].runs[write.run.value].read.Some?
            && Described(before) == Described(trace[k].runs[write.run.value].read)
            && At(trace[k + 1].cells, write.collection).row
                == Some(ApplyTo(FieldsOf(write.change, write.vector, write.now), before.value))
  {
    TracesKeepInv(trace, events, k);
    assert Enabled(trace[k], events[k]) && trace[k + 1] == Step(trace[k], events[k]);
    var write := trace[k].writes[events[k].write];
    assert GuardOk(trace[k].runs, write) && LockOk(At(trace[k].cells, write.collection), events[k].write, write.stage);
    GuardAdmitsExactlyTheReadState(trace[k].runs[write.run.value].read.value, write.stage.seen);
  }

  // ------------------------------------------------------------------ the overlay

  /** The failure branch of `overlay_status`. */
  predicate ReadsFailedFromMemory(s: Store, c: string) {
    c in s.memory && s.memory[c].version == At(s.cells, c).version
  }

  /** When a remembered failure is shown, the changes committed since the failed run sampled its version are
      exactly the writes that entered the gap between commit and version move since then; without one, the
      stored description state is the sampled one, and it is the one the run read. */
  lemma ShownFailuresCountTheGap(trace: seq<Store>, events: seq<Event>, k: nat, c: string)
    requires IsTrace(trace, events) && k < |trace| && ReadsFailedFromMemory(trace[k], c)
    ensures var cell := At(trace[k].cells, c); var m := trace[k].memory[c];
            var gapAtSample := m.sample.commits - m.version;
            && 0 <= gapAtSample <= Owed(cell)
            && cell.commits - m.sample.commits == Owed(cell) - gapAtSample
            && (Owed(cell) == gapAtSample ==>
                  && Described(cell.row) == m.sample.desc
                  && (m.read.Some? ==> Described(m.read) == m.sample.desc))
  {
    TracesKeepInv(trace, events, k);
    var m := trace[k].memory[c];
    assert SampleOk(At(trace[k].cells, c), m.version, m.sample, m.read);
  }

  /** With no write inside that gap, a shown failure is about the row as it is stored: nothing was committed
      since the sample, whatever disturbed the reads of the failed run. */
  lemma ShownFailuresAreAboutTheStoredRow(trace: seq<Store>, events: seq<Event>, k: nat, c: string)
    requires IsTrace(trace, events) && k < |trace| && ReadsFailedFromMemory(trace[k], c)
    requires Owed(At(trace[k].cells, c)) == 0
    ensures trace[k].memory[c].sample.commits == At(trace[k].cells, c).commits
    ensures Described(At(trace[k].cells, c).row) == trace[k].memory[c].sample.desc
    ensures trace[k].memory[c].read.Some? ==> Described(trace[k].memory[c].read) == Described(At(trace[k].cells, c).row)
  {
    ShownFailuresCountTheGap(trace, events, k, c);
  }

  // ------------------------------------------------------------------ the object

  datatype Shown = ShownPending | ShownFailed | ShownStored(status: Option<Status>)

  function VersionIn(versions: map<string, nat>, c: string): nat {
    if c in versions then versions[c] else 0
  }

  /** The part of `DescriptionLifecycle` that remembers failures: collection to the version its run started from. */
  class FailureMemory {
    var unstored: map<string, nat>

    constructor ()
      ensures unstored == map[]
    {
      unstored := map[];
    }

    /** `_remember_unstored_failure`; `version` is `None` for a run that never held the slot. */
    method RememberUnstoredFailure(versions: map<string, nat>, collection: string, version: Option<nat>)
      modifies this
      ensures forall n :: n in unstored <==>
                (n == collection && version.Some?) || (n in old(unstored) && old(unstored)[n] == VersionIn(versions, n))
      ensures forall n | n in unstored ::
                unstored[n] == if n == collection && version.Some? then version.value else old(unstored)[n]
    {
      var current := map n | n in unstored && unstored[n] == VersionIn(versions, n) :: unstored[n];
      if version.Some? {
        current := current[collection := version.value];
      }
      unstored := current;
    }

    /** `overlay_status` */
    method OverlayStatus(versions: map<string, nat>, inFlight: set<string>, collection: string, stored: Option<Status>)
      returns (shown: Shown)
      ensures shown.ShownPending? <==> collection in inFlight
      ensures shown.ShownFailed? <==>
              collection !in inFlight && collection in unstored
                  && unstored[collection] == VersionIn(versions, collection)
      ensures shown.ShownStored? ==> shown.status == stored
    {
      if collection in inFlight {
        return ShownPending;
      }
      if collection in unstored && unstored[collection] == VersionIn(versions, collection) {
        return ShownFailed;
      }
      shown := ShownStored(stored);
    }
  }
}
