/** The request and the result of the guarded description write
    (archon_search/description_write.py), and the field sets the writer builds
    (archon_search/description_writer.py).

    Embeddings come from models that are not part of this model: a vector is identified by the model that
    produced it and the text it was produced from. */
module DescriptionWrite {
  import opened Options

  datatype Source = Generated | Manual
  datatype Status = Ok | Failed
  datatype Vector = Vector(model: string, of: string)

  /** A row of the collection table: the six description fields, and the others a generation reads. */
  datatype Meta = Meta(
    description: Option<string>,
    source: Option<Source>,
    status: Option<Status>,
    lastDescribed: Option<int>,
    describedAt: Option<int>,
    embedding: Option<Vector>,
    docCount: nat,
    chunkCount: nat,
    model: string)

  /** A row without any description, as the first ingest of a collection writes it. */
  function BareRow(docCount: nat, chunkCount: nat, model: string): Meta {
    Meta(None, None, None, None, None, None, docCount, chunkCount, model)
  }

  /** The values of a row whose every change moves its `description_version`. */
  datatype DescState = DescState(description: Option<string>, source: Option<Source>, status: Option<Status>,
                                 lastDescribed: Option<int>)

  const Undescribed := DescState(None, None, None, None)

  /** An empty description and none are the same thing to the store. */
  function OrNone(d: Option<string>): Option<string> {
    if d == Some("") then None else d
  }

  function Described(row: Option<Meta>): DescState {
    match row
    case None => Undescribed
    case Some(m) => DescState(OrNone(m.description), m.source, m.status, m.lastDescribed)
  }

  /** The stored vector is absent or was computed from the text beside it. */
  ghost predicate Coherent(m: Meta) {
    m.embedding.Some? ==> m.description == Some(m.embedding.value.of)
  }

  // ------------------------------------------------------------------ the fields of one write

  datatype FieldChange<T> = Keep | SetTo(value: T) | Clear

  function Changed<T>(stored: Option<T>, c: FieldChange<T>): Option<T> {
    match c
    case Keep => stored
    case SetTo(v) => Some(v)
    case Clear => None
  }

  datatype DescriptionFields = DescriptionFields(
    description: FieldChange<string>,
    source: FieldChange<Source>,
    status: FieldChange<Status>,
    lastDescribed: FieldChange<int>,
    describedAt: FieldChange<int>,
    embedding: FieldChange<Vector>)

  /** `DescriptionFields.__post_init__`: a text is never blank, a baseline never negative, and a text that is
      set or cleared never keeps the source, the status or the vector of the old one. */
  predicate Admissible(f: DescriptionFields) {
    && f.description != SetTo("")
    && (f.describedAt.SetTo? ==> f.describedAt.value >= 0)
    && (!f.description.Keep? ==> !f.source.Keep? && !f.status.Keep? && !f.embedding.Keep?)
  }

  /** `DescriptionFields.apply_to` */
  function ApplyTo(f: DescriptionFields, m: Meta): Meta {
    m.(description := Changed(m.description, f.description),
       source := Changed(m.source, f.source),
       status := Changed(m.status, f.status),
       lastDescribed := Changed(m.lastDescribed, f.lastDescribed),
       describedAt := Changed(m.describedAt, f.describedAt),
       embedding := Changed(m.embedding, f.embedding))
  }

  /** A write brings a vector only together with the text it was computed from. */
  ghost predicate CarriesItsOwnVector(f: DescriptionFields) {
    f.embedding.SetTo? ==> f.description == SetTo(f.embedding.value.of)
  }

  /** The text and its vector change in one step: what is admissible keeps every row coherent. */
  lemma AdmissibleWritesKeepRowsCoherent(f: DescriptionFields, m: Meta)
    requires Admissible(f) && CarriesItsOwnVector(f) && Coherent(m)
    ensures Coherent(ApplyTo(f, m))
  {
  }

  // ------------------------------------------------------------------ the guard

  datatype Outcome = Written | LockTimeout | CollectionMissing | RefusedManual | RefusedStale

  /** The four values a generation read before its slow step. */
  datatype ExpectedState = ExpectedState(description: Option<string>, source: Option<Source>,
                                         lastDescribed: Option<int>, status: Option<Status>)

  function Expect(m: Meta): ExpectedState {
    ExpectedState(m.description, m.source, m.lastDescribed, m.status)
  }

  function Refusal(e: ExpectedState, row: Meta): Option<Outcome> {
    if row.source == Some(Manual) then Some(RefusedManual)
    else if && OrNone(row.description) == OrNone(e.description)
            && row.source == e.source
            && row.lastDescribed == e.lastDescribed
            && row.status == e.status
    then None
    else Some(RefusedStale)
  }

  /** A guard taken from the row `read` admits a write over `row` exactly when `row` is not manual and holds
      the description state that was read. */
  lemma GuardAdmitsExactlyTheReadState(read: Meta, row: Meta)
    ensures Refusal(Expect(read), row).None? <==>
            row.source != Some(Manual) && Described(Some(row)) == Described(Some(read))
  {
  }

  datatype Guard = Unconditional | Guarded(expected: ExpectedState)

  predicate Admits(g: Guard, row: Meta) {
    g.Guarded? ==> Refusal(g.expected, row).None?
  }

  // ------------------------------------------------------------------ the changes the writer makes

  datatype Change =
    | GeneratedChange(text: string, docCount: nat, expected: ExpectedState)
    | ManualSetChange(text: string)
    | ImportedChange(text: string, source: Source)
    | ClearChange
    | FailureChange(expected: ExpectedState)

  /** `_text_fields`, `_clear_fields` and the fields of `record_failure`.  `vector` is what embedding the text
      gave (`None`: it failed or outran its wait), `now` the clock. */
  function FieldsOf(c: Change, vector: Option<Vector>, now: int): DescriptionFields {
    var v := if vector.Some? then SetTo(vector.value) else Clear;
    match c
    case GeneratedChange(text, docCount, _) =>
      DescriptionFields(SetTo(text), SetTo(Generated), SetTo(Ok), SetTo(now), SetTo(docCount), v)
    case ManualSetChange(text) =>
      DescriptionFields(SetTo(text), SetTo(Manual), SetTo(Ok), SetTo(now), Keep, v)
    case ImportedChange(text, source) =>
      DescriptionFields(SetTo(text), SetTo(source), SetTo(Ok), SetTo(now), Clear, v)
    case ClearChange => DescriptionFields(Clear, Clear, Clear, Clear, Clear, Clear)
    case FailureChange(_) => DescriptionFields(Keep, Keep, SetTo(Failed), Keep, Keep, Keep)
  }

  function GuardOf(c: Change): Guard {
    match c
    case GeneratedChange(_, _, e) => Guarded(e)
    case FailureChange(e) => Guarded(e)
    case _ => Unconditional
  }

  predicate SetsText(c: Change) {
    c.GeneratedChange? || c.ManualSetChange? || c.ImportedChange?
  }

  /** What the writer is called with: a text that passed `check_description_text`, and a vector only of it. */
  predicate WellFormed(c: Change, vector: Option<Vector>) {
    && (SetsText(c) ==> c.text != "")
    && (vector.Some? ==> SetsText(c) && vector.value.of == c.text)
  }

  /** Every field set the writer builds passes its own constructor and brings no foreign vector. */
  lemma WriterBuildsAdmissibleFields(c: Change, vector: Option<Vector>, now: int)
    requires WellFormed(c, vector)
    ensures Admissible(FieldsOf(c, vector, now)) && CarriesItsOwnVector(FieldsOf(c, vector, now))
  {
  }

  // ------------------------------------------------------------------ who may ask for a generation

  /** Declared in the order in which waiting requests are served. */
  datatype Kind = Describe | Ingest | Backfill

  function Rank(k: Kind): nat {
    match k
    case Describe => 0
    case Ingest => 1
    case Backfill => 2
  }

  function Abs(x: int): nat {
    if x < 0 then -x else x
  }

  /** `_should_regenerate` with its ratio of one fifth. */
  predicate ShouldRegenerate(docCount: nat, chunkCount: nat, describedAt: Option<int>) {
    && chunkCount != 0
    && (describedAt.None? || describedAt.value == 0
        || (describedAt.value > 0 && 5 * Abs(docCount - describedAt.value) >= describedAt.value))
  }

  datatype GenerationRefusal = ManualWins | NotRequired

  /** `_refusal`: asked when a request arrives and again when it holds the slot. */
  function GenerationRefused(k: Kind, m: Meta): Option<GenerationRefusal> {
    if m.source == Some(Manual) then Some(ManualWins)
    else if k == Ingest && !ShouldRegenerate(m.docCount, m.chunkCount, m.describedAt) then Some(NotRequired)
    else if k == Backfill && (OrNone(m.description).Some? || m.status == Some(Failed)) then Some(NotRequired)
    else None
  }
}
