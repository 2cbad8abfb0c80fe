/** `keys.json` as a file other processes may replace at any moment, and the `KeyStore` object that reads it
    through a cache keyed by file signature (archon_search/key_manager.py, `load`, `_file_signature`,
    `_load_for_update`, `_write`).

    A file state carries its signature `(mtime, size, inode)` as a number.  Signatures are never reused. */
module KeysFile {
  import opened Options
  import KS = KeyStore

  type Records = seq<KS.Record>

  datatype Content = Corrupt | Parsed(records: Records)

  datatype FileState = Absent | Present(signature: nat, content: Content)

  /** What a direct parse answers: a missing and a corrupt file both read as no keys. */
  function DirectParse(f: FileState): Records {
    if f.Present? && f.content.Parsed? then f.content.records else []
  }

  datatype Cached = Cached(signature: nat, records: Records)

  /** `history` holds every state the file went through, the current one last. */
  datatype Reader = Reader(history: seq<FileState>, cache: Option<Cached>)

  /** Two states of one signature are one state. */
  ghost predicate SignaturesAreUnique(history: seq<FileState>) {
    forall i, j | 0 <= i < |history| && 0 <= j < |history| && history[i].Present? && history[j].Present?
                  && history[i].signature == history[j].signature :: i == j
  }

  ghost predicate Known(history: seq<FileState>, signature: nat) {
    exists i | 0 <= i < |history| :: history[i].Present? && history[i].signature == signature
  }

  function Current(r: Reader): FileState
    requires r.history != []
  {
    r.history[|r.history| - 1]
  }

  /** The cached view may be old, but never stale under the signature the file has now. */
  ghost predicate Valid(r: Reader) {
    && r.history != []
    && SignaturesAreUnique(r.history)
    && (r.cache.Some? ==>
          && Known(r.history, r.cache.value.signature)
          && (Current(r).Present? && Current(r).signature == r.cache.value.signature ==>
              r.cache.value.records == DirectParse(Current(r))))
  }

  /** The file is replaced, by another process or by this one. */
  function Replaced(r: Reader, f: FileState): Reader {
    r.(history := r.history + [f])
  }

  /** What `load` remembers: the signature it saw before the read, with what the read gave. */
  function Remembered(seen: FileState, cache: Option<Cached>, f: FileState, ioError: bool): Option<Cached> {
    if seen.Absent? || ioError then cache else Some(Cached(seen.signature, DirectParse(f)))
  }

  /** `load` as its two file-system calls: the signature is taken in `seen`, the read finds `r` as it is now. */
  function Load(r: Reader, seen: FileState, ioError: bool): (Reader, Records)
    requires r.history != []
  {
    if seen.Present? && r.cache.Some? && r.cache.value.signature == seen.signature then (r, r.cache.value.records)
    else (r.(cache := Remembered(seen, r.cache, Current(r), ioError)), if ioError then [] else DirectParse(Current(r)))
  }

  lemma ReplacingKeepsValid(r: Reader, f: FileState)
    requires Valid(r) && SignaturesAreUnique(r.history + [f])
    ensures Valid(Replaced(r, f))
  {
    var r' := Replaced(r, f);
    if r.cache.Some? {
      var i :| 0 <= i < |r.history| && r.history[i].Present? && r.history[i].signature == r.cache.value.signature;
      assert r'.history[i] == r.history[i];
    }
  }

  /** A load that saw state `i` of the file first and read the current one: its answer is what a direct parse
      gives at one of those two instants, and the cache stays sound for every later load. */
  lemma LoadIsAnInstantOfTheFile(r: Reader, i: nat, ioError: bool)
    requires Valid(r) && i < |r.history|
    requires r.cache.Some? && r.history[i].Present? && r.cache.value.signature == r.history[i].signature ==>
               r.cache.value.records == DirectParse(r.history[i])
    ensures var (r', records) := Load(r, r.history[i], ioError);
            && Valid(r')
            && (|| records == DirectParse(r.history[i])
                || records == DirectParse(Current(r))
                || (ioError && records == []))
  {
    var (r', records) := Load(r, r.history[i], ioError);
    if r.history[i].Present? {
      assert Known(r.history, r.history[i].signature);
      if Current(r).Present? && Current(r).signature == r.history[i].signature {
        assert i == |r.history| - 1;
      }
    }
  }

  /** A file is parsed once per signature: what a load without an error saw is answered again without a read, whatever
      the file or a read would say then, and an I/O error is not remembered. */
  lemma UnchangedFilesAreParsedOnce(r: Reader, seen: FileState, later: Reader, ioError: bool)
    requires r.history != [] && later.history != [] && seen.Present?
    requires later.cache == Load(r, seen, false).0.cache
    ensures Load(later, seen, ioError) == (later, Load(r, seen, false).1)
    ensures Load(r, seen, true).0.cache == r.cache
    ensures Load(r, Absent, ioError).0.cache == r.cache
  {
  }

  // ------------------------------------------------------------------ every interleaving

  /** `ReplaceFile`: any writer replaces the file.  `Look`, `Finish`: the two calls of a load, with the index
      of the state that was looked at. */
  datatype Event = ReplaceFile(state: FileState) | Look | Finish(ioError: bool) | DropCache

  /** `looked` is the state in which the running load took its signature. */
  datatype Sys = Sys(reader: Reader, looked: Option<nat>, answers: seq<Records>)

  predicate Enabled(s: Sys, e: Event) {
    && s.reader.history != []
    && match e
       case ReplaceFile(_) => true
       case Look => s.looked.None?
       case Finish(_) => s.looked.Some? && s.looked.value < |s.reader.history|
       case DropCache => s.looked.None?
  }

  function Step(s: Sys, e: Event): Sys
    requires Enabled(s, e)
  {
    match e
    case ReplaceFile(f) => s.(reader := Replaced(s.reader, f))
    case Look => s.(looked := Some(|s.reader.history| - 1))
    case Finish(ioError) =>
      var (r, records) := Load(s.reader, s.reader.history[s.looked.value], ioError);
      Sys(r, None, s.answers + [records])
    case DropCache => s.(reader := s.reader.(cache := None))
  }

  /** While a load runs, the cache is also right about the state it looked at. */
  ghost predicate Inv(s: Sys) {
    && Valid(s.reader)
    && (s.looked.Some? ==>
          && s.looked.value < |s.reader.history|
          && var f := s.reader.history[s.looked.value];
             s.reader.cache.Some? && f.Present? && s.reader.cache.value.signature == f.signature ==>
               s.reader.cache.value.records == DirectParse(f))
  }

  lemma StepKeepsInv(s: Sys, e: Event)
    requires Inv(s) && Enabled(s, e) && SignaturesAreUnique(Step(s, e).reader.history)
    ensures Inv(Step(s, e))
  {
    match e {
      case ReplaceFile(f) => ReplacingKeepsValid(s.reader, f);
      case Finish(ioError) => LoadIsAnInstantOfTheFile(s.reader, s.looked.value, ioError);
      case _ =>
    }
  }

  ghost predicate IsRun(run: seq<Sys>, events: seq<Event>) {
    && |run| == |events| + 1
    && |run[0].reader.history| == 1 && run[0].reader.cache.None? && run[0].looked.None?
    && (forall i | 0 <= i < |events| :: Enabled(run[i], events[i]) && run[i + 1] == Step(run[i], events[i]))
    && (forall i | 0 <= i < |run| :: SignaturesAreUnique(run[i].reader.history))
  }

  lemma {:induction false} RunsKeepInv(run: seq<Sys>, events: seq<Event>, k: nat)
    requires IsRun(run, events) && k < |run|
    ensures Inv(run[k])
  {
    if k > 0 {
      RunsKeepInv(run, events, k - 1);
      assert run[k] == Step(run[k - 1], events[k - 1]);
      StepKeepsInv(run[k - 1], events[k - 1]);
    }
  }

  /** In every interleaving with outside writers: a load answers what a direct parse would have answered at an
      instant between its two calls (or nothing, when its own read failed). */
  lemma EveryLoadIsLinearizable(run: seq<Sys>, events: seq<Event>, k: nat)
    requires IsRun(run, events) && k < |events| && events[k].Finish?
    ensures run[k].looked.Some? && |run[k + 1].answers| == |run[k].answers| + 1
    ensures var answer := run[k + 1].answers[|run[k].answers|];
            || (events[k].ioError && answer == [])
            || exists i | run[k].looked.value <= i < |run[k].reader.history| ::
                answer == DirectParse(run[k].reader.history[i])
  {
    RunsKeepInv(run, events, k);
    assert Enabled(run[k], events[k]) && run[k + 1] == Step(run[k], events[k]);
    LoadIsAnInstantOfTheFile(run[k].reader, run[k].looked.value, events[k].ioError);
    var r := run[k].reader;
    assert Current(r) == r.history[|r.history| - 1];
  }

  // ------------------------------------------------------------------ the objects

  /** The file on disk. */
  class Disk {
    var current: FileState
    ghost var history: seq<FileState>

    ghost predicate Ok()
      reads this
    {
      history != [] && current == history[|history| - 1] && SignaturesAreUnique(history)
    }

    /** Other processes replace the file, once per state of `states`. */
    method OutsideWrites(states: seq<FileState>)
      requires Ok() && SignaturesAreUnique(history + states)
      modifies this
      ensures Ok() && history == old(history) + states
    {
      for i := 0 to |states|
        invariant Ok() && history == old(history) + states[..i]
      {
        assert history + [states[i]] == old(history) + states[..i + 1];
        assert old(history) + states == (old(history) + states[..i + 1]) + states[i + 1..];
        UniqueOnAPrefix(old(history) + states[..i + 1], states[i + 1..]);
        current, history := states[i], history + [states[i]];
      }
      assert states[..|states|] == states;
    }
  }

  lemma UniqueOnAPrefix(a: seq<FileState>, b: seq<FileState>)
    requires SignaturesAreUnique(a + b)
    ensures SignaturesAreUnique(a)
  {
    assert forall i | 0 <= i < |a| :: (a + b)[i] == a[i];
  }

  /** `KeyStore` with its read cache. */
  class KeyStore {
    const disk: Disk
    var cache: Option<Cached>

    ghost function View(): Reader
      reads this, disk
    {
      Reader(disk.history, cache)
    }

    ghost predicate Ok()
      reads this, disk
    {
      disk.Ok() && Valid(View())
    }

    constructor (disk: Disk)
      requires disk.Ok()
      ensures this.disk == disk && Ok() && cache.None?
    {
      this.disk := disk;
      cache := None;
    }

    /** `load`, with the writes of other processes that fall between its two file-system calls. */
    method LoadRecords(between: seq<FileState>, ioError: bool) returns (records: Records)
      requires Ok() && SignaturesAreUnique(disk.history + between)
      modifies this, disk
      ensures Ok() && disk.history == old(disk.history) + between
      ensures || (ioError && records == [])
              || exists i | |old(disk.history)| - 1 <= i < |disk.history| :: records == DirectParse(disk.history[i])
      ensures !ioError && old(disk.current).Present? ==> cache == Some(Cached(old(disk.current).signature, records))
      ensures ioError || old(disk.current).Absent? ==> cache == old(cache)
    {
      var seen := disk.current;
      ghost var i := |disk.history| - 1;
      ghost var before := View();
      disk.OutsideWrites(between);
      assert disk.history[i] == seen;
      assert Valid(View()) by { ManyReplacementsKeepValid(before, between); }
      LoadIsAnInstantOfTheFile(View(), i, ioError);
      assert disk.history[|disk.history| - 1] == Current(View());
      if seen.Present? && cache.Some? && cache.value.signature == seen.signature {
        return cache.value.records;
      }
      if ioError {
        return [];
      }
      records := DirectParse(disk.current);
      if seen.Present? {
        cache := Some(Cached(seen.signature, records));
      }
    }

    /** `_write`: the cached view is dropped first, then the file is replaced. */
    method WriteRecords(records: Records, signature: nat)
      requires Ok() && !Known(disk.history, signature)
      modifies this, disk
      ensures Ok() && cache.None? && disk.current == Present(signature, Parsed(records))
    {
      cache := None;
      disk.OutsideWrites([Present(signature, Parsed(records))]);
    }
  }

  lemma {:induction false} ManyReplacementsKeepValid(r: Reader, states: seq<FileState>)
    requires Valid(r) && SignaturesAreUnique(r.history + states)
    ensures Valid(r.(history := r.history + states))
    decreases |states|
  {
    if states == [] {
      assert r.history + states == r.history;
    } else {
      assert r.history + states == (r.history + [states[0]]) + states[1..];
      UniqueOnAPrefix(r.history + [states[0]], states[1..]);
      ReplacingKeepsValid(r, states[0]);
      ManyReplacementsKeepValid(Replaced(r, states[0]), states[1..]);
    }
  }
}
