/** What a committed description write leaves in the row, field by field (archon_search/description_writer.py,
    archon_search/description_write.py), and how long a text set by the operator stays. */
module WriteEffects {
  import opened Options
  import opened DescriptionWrite
  import opened GuardedWrites

  // ------------------------------------------------------------------ one commit

  /** The six description fields. */
  predicate Fields(m: Meta, description: Option<string>, source: Option<Source>, status: Option<Status>,
                   lastDescribed: Option<int>, baseline: Option<int>, vector: Option<Vector>) {
    && m.description == description && m.source == source && m.status == status
    && m.lastDescribed == lastDescribed && m.describedAt == baseline && m.embedding == vector
  }

  predicate SameCounts(m: Meta, m': Meta) {
    m'.docCount == m.docCount && m'.chunkCount == m.chunkCount && m'.model == m.model
  }

  /** The row `m'` that a change makes of the row `m`.  A text comes with its own source, status `ok`, the time and the
      vector of the write; a set keeps the old baseline, a generation brings the document count it read, an import has
      none; a clear leaves nothing, and a failure changes the status only. */
  predicate Makes(change: Change, vector: Option<Vector>, now: int, m: Meta, m': Meta) {
    && SameCounts(m, m')
    && match change
       case GeneratedChange(text, docs, _) =>
         Fields(m', Some(text), Some(Generated), Some(Ok), Some(now), Some(docs), vector)
       case ManualSetChange(text) => Fields(m', Some(text), Some(Manual), Some(Ok), Some(now), m.describedAt, vector)
       case ImportedChange(text, source) => Fields(m', Some(text), Some(source), Some(Ok), Some(now), None, vector)
       case ClearChange => Fields(m', None, None, None, None, None, None)
       case FailureChange(_) =>
         Fields(m', m.description, m.source, Some(Failed), m.lastDescribed, m.describedAt, m.embedding)
  }

  /** Write `w` lands in step `k`. */
  ghost predicate Lands(trace: seq<Store>, events: seq<Event>, k: nat, w: nat)
    requires k < |events| && |trace| == |events| + 1
  {
    && events[k] == Commit(w) && w < |trace[k].writes| && w < |trace[k + 1].writes|
    && trace[k + 1].writes[w].stage.Landed?
  }

  /** A commit that lands makes of the stored row what its change says, one that is refused leaves every row as it is,
      and neither touches another collection.  A generated text has the document count of the row its run read as
      baseline. */
  lemma CommitsDoWhatTheirChangeSays(trace: seq<Store>, events: seq<Event>, k: nat, w: nat)
    requires IsTrace(trace, events) && k < |events| && events[k] == Commit(w)
    ensures w < |trace[k].writes| && |trace[k + 1].writes| == |trace[k].writes|
    ensures var write := trace[k].writes[w];
            var before, after := At(trace[k].cells, write.collection).row, At(trace[k + 1].cells, write.collection).row;
            && before.Some?
            && (Lands(trace, events, k, w) ==>
                  && after.Some? && Makes(write.change, write.vector, write.now, before.value, after.value)
                  && (write.change.GeneratedChange? ==>
                        && write.run.Some? && write.run.value < |trace[k].runs|
                        && trace[k].runs[write.run.value].read.Some?
                        && write.change.docCount == trace[k].runs[write.run.value].read.value.docCount))
            && (!Lands(trace, events, k, w) ==> after == before)
    ensures forall c | c != trace[k].writes[w].collection :: At(trace[k + 1].cells, c) == At(trace[k].cells, c)
  {
    TracesKeepInv(trace, events, k);
    assert Enabled(trace[k], events[k]) && trace[k + 1] == Step(trace[k], events[k]);
    var write := trace[k].writes[w];
    assert GuardOk(trace[k].runs, write) && LockOk(At(trace[k].cells, write.collection), w, write.stage);
  }

  /** A write lands exactly when nothing guards it, or the row is not manual and has the text (none and the empty text
      are one), the source, the time and the status that its run read. */
  lemma WritesLandExactlyWhen(trace: seq<Store>, events: seq<Event>, k: nat, w: nat)
    requires IsTrace(trace, events) && k < |events| && events[k] == Commit(w)
    ensures w < |trace[k].writes|
    ensures var write := trace[k].writes[w];
            var row := At(trace[k].cells, write.collection).row;
            && row.Some?
            && (write.run.None? ==> Lands(trace, events, k, w))
            && (write.run.Some? ==>
                  && write.run.value < |trace[k].runs| && trace[k].runs[write.run.value].read.Some?
                  && var read := trace[k].runs[write.run.value].read.value;
                     Lands(trace, events, k, w) <==>
                       && row.value.source != Some(Manual)
                       && (row.value.description == read.description
                           || (row.value.description in {None, Some("")} && read.description in {None, Some("")}))
                       && row.value.source == read.source && row.value.lastDescribed == read.lastDescribed
                       && row.value.status == read.status)
  {
    TracesKeepInv(trace, events, k);
    assert Enabled(trace[k], events[k]) && trace[k + 1] == Step(trace[k], events[k]);
    var write := trace[k].writes[w];
    assert GuardOk(trace[k].runs, write) && LockOk(At(trace[k].cells, write.collection), w, write.stage);
  }

  // ------------------------------------------------------------------ the operator's text

  /** Step `k` is an operator's commit on the collection, or its deletion. */
  ghost predicate OperatorActs(trace: seq<Store>, events: seq<Event>, k: nat, c: string)
    requires k < |events| && |trace| == |events| + 1
  {
    || events[k] == DeleteRow(c)
    || (events[k].Commit? && events[k].write < |trace[k].writes| && trace[k].writes[events[k].write].collection == c
        && trace[k].writes[events[k].write].run.None?)
  }

  /** The row shows a text of the operator's. */
  predicate ShowsManual(s: Store, c: string, text: string) {
    var row := At(s.cells, c).row;
    row.Some? && row.value.description == Some(text) && row.value.source == Some(Manual)
  }

  lemma ManualTextStaysForAStep(trace: seq<Store>, events: seq<Event>, k: nat, c: string, text: string)
    requires IsTrace(trace, events) && k < |events| && text != "" && ShowsManual(trace[k], c, text)
    requires !OperatorActs(trace, events, k, c)
    ensures ShowsManual(trace[k + 1], c, text)
  {
    TracesKeepInv(trace, events, k);
    assert Enabled(trace[k], events[k]) && trace[k + 1] == Step(trace[k], events[k]);
    if events[k].Commit? {
      CommitsDoWhatTheirChangeSays(trace, events, k, events[k].write);
      WritesLandExactlyWhen(trace, events, k, events[k].write);
    }
  }

  /** What the operator set is in the row right after its commit, as a manual text with status `ok`, and there it
      stays whatever generations run, fail or retry, until an operator's next commit on the collection, or its
      deletion. */
  lemma {:induction false} TheOperatorsTextStays(trace: seq<Store>, events: seq<Event>, k: nat, w: nat, n: nat)
    requires IsTrace(trace, events) && k < n < |trace| && events[k] == Commit(w)
    requires w < |trace[k].writes| && trace[k].writes[w].change.ManualSetChange?
    requires forall i | k < i < n :: !OperatorActs(trace, events, i, trace[k].writes[w].collection)
    ensures ShowsManual(trace[n], trace[k].writes[w].collection, trace[k].writes[w].change.text)
    ensures n == k + 1 ==> At(trace[n].cells, trace[k].writes[w].collection).row.value.status == Some(Ok)
    decreases n
  {
    var c, text := trace[k].writes[w].collection, trace[k].writes[w].change.text;
    TracesKeepInv(trace, events, k);
    assert GuardOk(trace[k].runs, trace[k].writes[w]);
    if n == k + 1 {
      WritesLandExactlyWhen(trace, events, k, w);
      CommitsDoWhatTheirChangeSays(trace, events, k, w);
    } else {
      var before := n - 1;
      TheOperatorsTextStays(trace, events, k, w, before);
      ManualTextStaysForAStep(trace, events, before, c, text);
    }
  }

  // ------------------------------------------------------------------ runs

  /** A run goes on with a row only if no version moved while it was read, or it was the last of three reads. */
  lemma RowsAreReadUndisturbed(s: Store, r: nat)
    requires Enabled(s, CompareVersions(r))
    ensures var run, run' := s.runs[r], Step(s, CompareVersions(r)).runs[r];
            var version := At(s.cells, run.collection).version;
            && (run'.pc.Sampled? <==> version != run.version && run.pc.tries < 3)
            && (run'.pc.Sampled? ==> run'.pc.tries == run.pc.tries + 1 && run'.version == version)
            && (!run'.pc.Sampled? ==> run'.version == run.version && run'.sample == run.sample)
            && (run'.pc.Generating? ==> run'.read == run.pc.row && run.pc.row.Some?)
            && (run'.pc.Generating? || run'.pc.Sampled? || run'.pc.Over?)
  {
  }

  ghost predicate TriesOk(s: Store) {
    forall r | 0 <= r < |s.runs| :: s.runs[r].pc.Sampled? || s.runs[r].pc.RowRead? ==> 1 <= s.runs[r].pc.tries <= 3
  }

  lemma {:induction false} AtMostThreeReads(trace: seq<Store>, events: seq<Event>, k: nat)
    requires IsTrace(trace, events) && k < |trace|
    ensures TriesOk(trace[k])
  {
    if k > 0 {
      var before := k - 1;
      AtMostThreeReads(trace, events, before);
      assert Enabled(trace[before], events[before]) && trace[k] == Step(trace[before], events[before]);
    }
  }

  /** A failure to be recorded under the four values of the row that was read. */
  function FailureRecord(c: string, read: Meta, r: nat): Write {
    var expected := ExpectedState(read.description, read.source, read.lastDescribed, read.status);
    Write(c, FailureChange(expected), None, 0, Some(r), Queued)
  }

  /** Run `r` is remembered, and of the others what holds at a version that did not move is. */
  ghost predicate RemembersToo(s: Store, s': Store, r: nat)
    requires r < |s.runs|
  {
    var run := s.runs[r];
    && (forall c :: c in s'.memory <==>
          c == run.collection || (c in s.memory && s.memory[c].version == At(s.cells, c).version))
    && (forall c | c in s'.memory && c != run.collection :: s'.memory[c] == s.memory[c])
    && s'.memory[run.collection].version == run.version
  }

  /** No failure is lost: a run whose text could not be saved hands in a guarded failure record for its collection, and
      a run whose failure record could not be stored is remembered under the version it sampled; after any other end of
      its write it is over and remembers nothing. */
  lemma FailuresAreNotLost(s: Store, r: nat)
    requires Enabled(s, RunLearns(r))
    ensures var run, s' := s.runs[r], Step(s, RunLearns(r));
            var end := s.writes[run.pc.write].stage.end;
            var lost := end in {Raised, Returned(LockTimeout)};
            && |s'.runs| == |s.runs|
            && (lost && run.pc.Saving? ==>
                  && s'.runs[r].pc == Recording(|s.writes|) && s'.memory == s.memory
                  && s'.writes == s.writes + [FailureRecord(run.collection, run.read.value, r)])
            && (lost && run.pc.Recording? ==>
                  s'.runs[r].pc == Over && s'.writes == s.writes && RemembersToo(s, s', r))
            && (!lost ==> s'.runs[r].pc == Over && s'.writes == s.writes && s'.memory == s.memory)
  {
    var end := s.writes[s.runs[r].pc.write].stage.end;
    assert end in {Raised, Returned(LockTimeout)} <==> end.Raised? || end.outcome.LockTimeout?;
  }

  /** Nor is that of a run whose read raised, and a model that fails has its failure recorded. */
  lemma EarlyFailuresAreNotLost(s: Store, r: nat)
    ensures Enabled(s, ReadRaises(r)) ==>
              var s' := Step(s, ReadRaises(r));
              |s'.runs| == |s.runs| && s'.runs[r].pc == Over && RemembersToo(s, s', r) && s'.writes == s.writes
    ensures Enabled(s, ModelFails(r)) ==>
              var run, s' := s.runs[r], Step(s, ModelFails(r));
              && |s'.runs| == |s.runs| && s'.runs[r].pc == Recording(|s.writes|) && s'.memory == s.memory
              && s'.writes == s.writes + [FailureRecord(run.collection, run.read.value, r)]
  {
  }

  // ------------------------------------------------------------------ other writers of the row

  /** An ingest leaves the description as it is, and starts a new row with none; a repair brings the missing vector of
      the stored text and nothing else. */
  lemma OthersLeaveTheDescription(s: Store, c: string, docs: nat, chunks: nat, model: string)
    ensures Enabled(s, Touch(c, docs, chunks, model)) ==>
              var before, after := At(s.cells, c).row, At(Step(s, Touch(c, docs, chunks, model)).cells, c).row;
              && after.Some? && after.value.docCount == docs && after.value.chunkCount == chunks
              && after.value.model == model
              && match before
                 case None => Fields(after.value, None, None, None, None, None, None)
                 case Some(m) =>
                   Fields(after.value, m.description, m.source, m.status, m.lastDescribed, m.describedAt, m.embedding)
    ensures Enabled(s, RepairVector(c, model)) ==>
              var m, after := At(s.cells, c).row.value, At(Step(s, RepairVector(c, model)).cells, c).row;
              && after.Some? && SameCounts(m, after.value)
              && Fields(after.value, m.description, m.source, m.status, m.lastDescribed, m.describedAt,
                        Some(Vector(model, m.description.value)))
  {
  }

  // ------------------------------------------------------------------ what a write reports

  /** The row is not what a run with this guard read. */
  predicate HasMoved(row: Meta, e: ExpectedState) {
    || row.lastDescribed != e.lastDescribed || row.status != e.status || row.source != e.source
    || (row.description != e.description && !({row.description, e.description} <= {None, Some("")}))
  }

  /** The step that ends write `w` reports what happened: nothing was there, the guard found a manual row or one that
      moved, the change landed, or the write failed. */
  lemma WritesReportWhatHappened(trace: seq<Store>, events: seq<Event>, k: nat, w: nat)
    requires IsTrace(trace, events) && k < |events| && w < |trace[k].writes|
    requires !trace[k].writes[w].stage.Ended?
    ensures w < |trace[k + 1].writes|
    ensures trace[k + 1].writes[w].stage.Ended? ==>
              var write, end := trace[k].writes[w], trace[k + 1].writes[w].stage.end;
              var row := At(trace[k].cells, write.collection).row;
              if events[k].WriteFails? then end == events[k].end && end in {Raised, Returned(LockTimeout)}
              else if write.stage.Landed? then end == Returned(Written)
              else if row.None? then end == Returned(CollectionMissing)
              else
                && GuardOf(write.change).Guarded?
                && end == Returned(if row.value.source == Some(Manual) then RefusedManual else RefusedStale)
                && (end == Returned(RefusedStale) ==> HasMoved(row.value, GuardOf(write.change).expected))
  {
    TracesKeepInv(trace, events, k);
    assert Enabled(trace[k], events[k]) && trace[k + 1] == Step(trace[k], events[k]);
    var write := trace[k].writes[w];
    assert GuardOk(trace[k].runs, write) && LockOk(At(trace[k].cells, write.collection), w, write.stage);
  }

  /** A write is past its commit, or says so. */
  predicate SaysLanded(s: Store, w: nat) {
    w < |s.writes| && s.writes[w].stage in {Landed, Ended(Returned(Written))}
  }

  lemma OnlyCommitsLand(trace: seq<Store>, events: seq<Event>, k: nat, w: nat)
    requires IsTrace(trace, events) && k < |events| && SaysLanded(trace[k + 1], w) && !SaysLanded(trace[k], w)
    ensures Lands(trace, events, k, w)
  {
    assert Enabled(trace[k], events[k]) && trace[k + 1] == Step(trace[k], events[k]);
  }

  /** A write that reports it was written landed. */
  lemma {:induction false} WrittenMeansLanded(trace: seq<Store>, events: seq<Event>, k: nat, w: nat)
    requires IsTrace(trace, events) && k < |trace| && SaysLanded(trace[k], w)
    ensures exists j: nat :: j < k && Lands(trace, events, j, w)
  {
    if k > 0 {
      var before := k - 1;
      if SaysLanded(trace[before], w) {
        WrittenMeansLanded(trace, events, before, w);
      } else {
        OnlyCommitsLand(trace, events, before, w);
      }
    }
  }
}
