/** Scope-aligned segmentation of source text (archon_search/chunker.py, `_top_level_scopes` and
    `ASTChunker._build_segments`). The recursive sub-chunker is an oracle with a contract. */
module Segmentation {
  import opened Sorting

  datatype Scope = Scope(start: nat, end: nat)
  datatype Segment = Segment(start: nat, end: nat, text: string)
  datatype SubChunk = SubChunk(start: nat, end: nat, text: string, tokens: nat)

  type SubChunker = string -> seq<SubChunk>

  // ------------------------------------------------------------------ top-level scopes

  predicate Contains(outer: Scope, inner: Scope) {
    outer.start <= inner.start && outer.end >= inner.end
  }

  /** Entry `j` outranks entry `i`: it contains it and, when the bounds are the same, comes after it. */
  predicate Outranks(table: seq<Scope>, j: nat, i: nat)
    requires i < |table| && j < |table|
  {
    j != i && Contains(table[j], table[i]) && !(table[j] == table[i] && j < i)
  }

  ghost predicate TopLevel(table: seq<Scope>, i: nat)
    requires i < |table|
  {
    forall j: nat | j < |table| :: !Outranks(table, j, i)
  }

  /** `kept` lists the top-level positions of `table[..n]` in order. */
  ghost predicate ListsTopLevel(table: seq<Scope>, n: nat, kept: seq<nat>)
    requires n <= |table|
  {
    && (forall a, b | 0 <= a < b < |kept| :: kept[a] < kept[b])
    && (forall i: nat :: i in kept <==> i < n && TopLevel(table, i))
  }

  method TopLevelScopes(table: seq<Scope>) returns (top: seq<Scope>, ghost kept: seq<nat>)
    ensures ListsTopLevel(table, |table|, kept)
    ensures |top| == |kept| && forall a | 0 <= a < |top| :: kept[a] in kept && top[a] == table[kept[a]]
  {
    top, kept := [], [];
    for i := 0 to |table|
      invariant ListsTopLevel(table, i, kept)
      invariant |top| == |kept| && forall a | 0 <= a < |top| :: kept[a] in kept && top[a] == table[kept[a]]
    {
      var contained := false;
      var j := 0;
      while j < |table| && !contained
        invariant j <= |table|
        invariant contained ==> exists m: nat :: m < |table| && Outranks(table, m, i)
        invariant !contained ==> forall m: nat | m < j :: !Outranks(table, m, i)
      {
        if j != i && table[j].start <= table[i].start && table[j].end >= table[i].end
           && !(table[j].start == table[i].start && table[j].end == table[i].end && j < i) {
          assert Outranks(table, j, i);
          contained := true;
        }
        j := j + 1;
      }
      if !contained {
        assert forall a | 0 <= a < |kept| :: kept[a] in kept;
        top, kept := top + [table[i]], kept + [i];
      }
    }
  }

  /** No scope is lost: every entry lies within a top-level one. */
  lemma {:induction false} EveryScopeIsInATopLevelOne(table: seq<Scope>, i: nat, bound: nat) returns (k: nat)
    requires i < |table| && forall s | s in table :: s.start <= s.end <= bound
    ensures k < |table| && TopLevel(table, k) && Contains(table[k], table[i])
    decreases bound + table[i].start - table[i].end, |table| - i
  {
    if TopLevel(table, i) {
      k := i;
    } else {
      var j: nat :| j < |table| && Outranks(table, j, i);
      assert table[j] in table && table[i] in table;
      k := EveryScopeIsInATopLevelOne(table, j, bound);
    }
  }

  /** Top-level scopes do not contain one another, so just one of several equal entries is top-level. */
  lemma TopLevelScopesAreApart(table: seq<Scope>, i: nat, j: nat)
    requires i < |table| && j < |table| && i != j && TopLevel(table, i) && TopLevel(table, j)
    ensures !Contains(table[i], table[j]) && table[i] != table[j]
  {
    assert !Outranks(table, i, j) && !Outranks(table, j, i);
  }

  // ------------------------------------------------------------------ segments

  predicate IsSpace(c: char) {
    var n := c as int;
    || 0x09 <= n <= 0x0d || 0x1c <= n <= 0x20 || n == 0x85 || n == 0xa0 || n == 0x1680
    || 0x2000 <= n <= 0x200a || n == 0x2028 || n == 0x2029 || n == 0x202f || n == 0x205f || n == 0x3000
  }

  predicate Blank(t: string) {
    forall i | 0 <= i < |t| :: IsSpace(t[i])
  }

  predicate IsSlice(text: string, s: Segment) {
    s.start <= s.end <= |text| && s.text == text[s.start..s.end]
  }

  ghost predicate Ordered(segments: seq<Segment>) {
    forall i, j | 0 <= i < j < |segments| :: segments[i].end <= segments[j].start
  }

  predicate Holds(s: Segment, k: nat) {
    s.start <= k < s.end
  }

  ghost predicate Covered(segments: seq<Segment>, k: nat) {
    exists i | 0 <= i < |segments| :: Holds(segments[i], k)
  }

  /** Ordered slices of the text. */
  ghost predicate Slices(text: string, segments: seq<Segment>) {
    Ordered(segments) && forall i | 0 <= i < |segments| :: IsSlice(text, segments[i])
  }

  ghost predicate EndBy(segments: seq<Segment>, bound: nat) {
    forall i | 0 <= i < |segments| :: segments[i].end <= bound
  }

  lemma AppendSlice(text: string, segments: seq<Segment>, s: Segment)
    requires Slices(text, segments) && EndBy(segments, s.start) && IsSlice(text, s)
    ensures Slices(text, segments + [s]) && EndBy(segments + [s], s.end)
    ensures forall k :: Covered(segments + [s], k) <==> Covered(segments, k) || Holds(s, k)
  {
    var more := segments + [s];
    forall k ensures Covered(more, k) <==> Covered(segments, k) || Holds(s, k) {
      if Covered(segments, k) {
        var i :| 0 <= i < |segments| && Holds(segments[i], k);
        assert more[i] == segments[i];
      }
      assert more[|segments|] == s;
    }
    assert forall i | 0 <= i < |segments| :: segments[i].start <= segments[i].end;
  }

  /** The top-level scopes, sorted: one after the other. */
  ghost predicate InRow(text: string, scopes: seq<Scope>) {
    && (forall i | 0 <= i < |scopes| :: scopes[i].start <= scopes[i].end <= |text|)
    && (forall i, j | 0 <= i < j < |scopes| :: scopes[i].end <= scopes[j].start)
  }

  /** Step 1: scope bodies and the text around them; only white space is left out. */
  method SplitAtScopes(text: string, scopes: seq<Scope>) returns (blocks: seq<Segment>)
    requires InRow(text, scopes)
    ensures Slices(text, blocks)
    ensures forall k: nat | k < |text| && !IsSpace(text[k]) :: Covered(blocks, k)
    ensures forall s | s in scopes :: BlockOf(text, s) in blocks
  {
    blocks := [];
    var cursor := 0;
    for n := 0 to |scopes|
      invariant cursor <= |text| && (n < |scopes| ==> cursor <= scopes[n].start)
      invariant cursor == if n == 0 then 0 else scopes[n - 1].end
      invariant Slices(text, blocks) && EndBy(blocks, cursor)
      invariant forall k: nat | k < cursor && !IsSpace(text[k]) :: Covered(blocks, k)
      invariant forall i | 0 <= i < n :: BlockOf(text, scopes[i]) in blocks
    {
      var s := scopes[n];
      blocks := AddGap(text, blocks, cursor, s.start);
      var block := BlockOf(text, s);
      AppendSlice(text, blocks, block);
      blocks := blocks + [block];
      cursor := if cursor < s.end then s.end else cursor;
    }
    if cursor < |text| {
      blocks := AddGap(text, blocks, cursor, |text|);
    }
  }

  /** The text between two scopes becomes a block unless it is blank. */
  method AddGap(text: string, before: seq<Segment>, cursor: nat, end: nat) returns (blocks: seq<Segment>)
    requires cursor <= end <= |text|
    requires Slices(text, before) && EndBy(before, cursor)
    ensures Slices(text, blocks) && EndBy(blocks, end)
    ensures forall b | b in before :: b in blocks
    ensures forall k: nat | Covered(before, k) :: Covered(blocks, k)
    ensures forall k: nat | cursor <= k < end && !IsSpace(text[k]) :: Covered(blocks, k)
  {
    blocks := before;
    if end > cursor {
      var gap := Segment(cursor, end, text[cursor..end]);
      if !Blank(gap.text) {
        AppendSlice(text, blocks, gap);
        blocks := blocks + [gap];
      } else {
        assert forall k: nat | cursor <= k < end :: text[k] == gap.text[k - cursor];
      }
    }
  }

  // ------------------------------------------------------------------ the token budget

  /** Chunks that tile `t` from its beginning to its end. */
  ghost predicate Tiles(t: string, subs: seq<SubChunk>) {
    && (forall i | 0 <= i < |subs| ::
        subs[i].start <= subs[i].end <= |t| && subs[i].text == t[subs[i].start..subs[i].end])
    && (forall i | 0 <= i < |subs| :: subs[i].start == if i == 0 then 0 else subs[i - 1].end)
    && (|subs| > 0 ==> subs[|subs| - 1].end == |t|)
  }

  /** What the recursive chunker promises: a lossless tiling, none only of blank text, and one chunk only within
      the budget. */
  ghost predicate Lossless(sub: SubChunker, size: nat) {
    forall t :: Promised(sub, size, t)
  }

  ghost predicate Promised(sub: SubChunker, size: nat, t: string) {
    Tiles(t, sub(t)) && (|sub(t)| == 0 ==> Blank(t)) && (|sub(t)| == 1 ==> sub(t)[0].tokens <= size)
  }

  function Tokens(sub: SubChunker, b: Segment): nat {
    if |sub(b.text)| == 1 then sub(b.text)[0].tokens else 0
  }

  ghost function TokenSum(sub: SubChunker, blocks: seq<Segment>): nat {
    if blocks == [] then 0 else TokenSum(sub, blocks[..|blocks| - 1]) + Tokens(sub, blocks[|blocks| - 1])
  }

  /** `s` spans blocks `i` to `j` (with `j` left out), none of them oversized, and their tokens fit the budget. */
  ghost predicate Merges(sub: SubChunker, size: nat, blocks: seq<Segment>, s: Segment, i: nat, j: nat) {
    && i < j <= |blocks|
    && s.start == blocks[i].start && Last(s, sub, blocks, i, j)
    && (forall k | i <= k < j :: |sub(blocks[k].text)| <= 1)
    && TokenSum(sub, blocks[i..j]) <= size
  }

  /** `s` ends with the last of the blocks that holds any chunk. */
  ghost predicate Last(s: Segment, sub: SubChunker, blocks: seq<Segment>, i: nat, j: nat)
    requires i < j <= |blocks|
  {
    exists m | i <= m < j :: s.end == blocks[m].end && forall k | m < k < j :: |sub(blocks[k].text)| == 0
  }

  /** `s` is a piece of block `b`, which is oversized. */
  ghost predicate Piece(sub: SubChunker, b: Segment, s: Segment) {
    |sub(b.text)| > 1 && exists c | c in sub(b.text) :: s == Segment(b.start + c.start, b.start + c.end, c.text)
  }

  ghost predicate WithinBudget(sub: SubChunker, size: nat, blocks: seq<Segment>, s: Segment) {
    || (exists i: nat, j: nat :: Merges(sub, size, blocks, s, i, j))
    || (exists b | b in blocks :: Piece(sub, b, s))
  }

  function Reach(subs: seq<SubChunk>, n: nat): nat
    requires n <= |subs|
  {
    if n == 0 then 0 else subs[n - 1].end
  }

  lemma SliceOfSlice(text: string, from: nat, to: nat, start: nat, end: nat)
    requires from <= to <= |text| && start <= end <= to - from
    ensures text[from..to][start..end] == text[from + start..from + end]
  {
    var piece := text[from..to];
    forall i | 0 <= i < end - start ensures piece[start..end][i] == text[from + start..from + end][i] {
      assert piece[start + i] == text[from + start + i];
    }
  }

  /** The pieces of an oversized block, in order. */
  function PiecesOf(sub: SubChunker, b: Segment): seq<Segment> {
    seq(|sub(b.text)|, m requires 0 <= m < |sub(b.text)| =>
          Segment(b.start + sub(b.text)[m].start, b.start + sub(b.text)[m].end, sub(b.text)[m].text))
  }

  /** The inner loop over the pieces of an oversized block. */
  method AddPieces(text: string, before: seq<Segment>, b: Segment, sub: SubChunker) returns (segments: seq<Segment>)
    requires Slices(text, before) && EndBy(before, b.start) && IsSlice(text, b)
    requires Tiles(b.text, sub(b.text)) && |sub(b.text)| > 1
    ensures Slices(text, segments) && EndBy(segments, b.end)
    ensures forall k: nat :: Covered(segments, k) <==> Covered(before, k) || Holds(b, k)
    ensures forall s | s in segments :: s in before || Piece(sub, b, s)
    ensures forall s | s in before :: s in segments
    ensures segments == before + PiecesOf(sub, b)
  {
    var subs := sub(b.text);
    segments := before;
    for n := 0 to |subs|
      invariant Slices(text, segments)
      invariant segments == before + PiecesOf(sub, b)[..n]
      invariant EndBy(segments, b.start + Reach(subs, n))
      invariant forall k: nat ::
                  Covered(segments, k) <==> Covered(before, k) || (b.start <= k < b.start + Reach(subs, n))
    {
      var c := subs[n];
      var s := Segment(b.start + c.start, b.start + c.end, c.text);
      SliceOfSlice(text, b.start, b.end, c.start, c.end);
      AppendSlice(text, segments, s);
      assert PiecesOf(sub, b)[..n + 1] == PiecesOf(sub, b)[..n] + [s];
      segments := segments + [s];
    }
    assert PiecesOf(sub, b)[..|subs|] == PiecesOf(sub, b);
    PiecesArePieces(sub, b);
  }

  lemma PiecesArePieces(sub: SubChunker, b: Segment)
    requires |sub(b.text)| > 1
    ensures forall s | s in PiecesOf(sub, b) :: Piece(sub, b, s)
  {
    forall s | s in PiecesOf(sub, b) ensures Piece(sub, b, s) {
      var m :| 0 <= m < |PiecesOf(sub, b)| && PiecesOf(sub, b)[m] == s;
      assert sub(b.text)[m] in sub(b.text);
    }
  }

  lemma SumOne(sub: SubChunker, blocks: seq<Segment>, i: nat, j: nat)
    requires i <= j < |blocks|
    ensures TokenSum(sub, blocks[i..j + 1]) == TokenSum(sub, blocks[i..j]) + Tokens(sub, blocks[j])
  {
    assert blocks[i..j + 1][..j - i] == blocks[i..j];
  }

  /** The open segment after a block: either nothing is open, or blocks `from` to `n` are. */
  ghost predicate Open(text: string, sub: SubChunker, size: nat, blocks: seq<Segment>, n: nat, open: bool, s: Segment,
                       tokens: nat, from: nat) {
    open ==> IsSlice(text, s) && Merges(sub, size, blocks, s, from, n) && tokens == TokenSum(sub, blocks[from..n])
  }

  lemma OpenOne(text: string, sub: SubChunker, size: nat, blocks: seq<Segment>, n: nat)
    requires n < |blocks| && IsSlice(text, blocks[n]) && |sub(blocks[n].text)| == 1 && Tokens(sub, blocks[n]) <= size
    ensures Open(text, sub, size, blocks, n + 1, true, blocks[n], Tokens(sub, blocks[n]), n)
  {
    SumOne(sub, blocks, n, n);
    assert blocks[n..n] == [];
  }

  lemma OpenPast(text: string, sub: SubChunker, size: nat, blocks: seq<Segment>, n: nat, s: Segment, tokens: nat,
                 from: nat)
    requires n < |blocks| && |sub(blocks[n].text)| == 0
    requires Open(text, sub, size, blocks, n, true, s, tokens, from)
    ensures Open(text, sub, size, blocks, n + 1, true, s, tokens, from)
  {
    SumOne(sub, blocks, from, n);
    var m :| from <= m < n && s.end == blocks[m].end && forall k | m < k < n :: |sub(blocks[k].text)| == 0;
    assert forall k | m < k < n + 1 :: |sub(blocks[k].text)| == 0;
  }

  lemma OpenStarts(text: string, sub: SubChunker, size: nat, blocks: seq<Segment>, n: nat, s: Segment, tokens: nat,
                   from: nat)
    requires n < |blocks| && Slices(text, blocks)
    requires Open(text, sub, size, blocks, n, true, s, tokens, from)
    ensures from < n && s.start == blocks[from].start <= blocks[n].start <= blocks[n].end <= |text|
  {
    assert blocks[from].start <= blocks[from].end <= blocks[n].start;
    assert IsSlice(text, blocks[n]);
  }

  lemma OpenMore(text: string, sub: SubChunker, size: nat, blocks: seq<Segment>, n: nat, s: Segment, tokens: nat,
                 from: nat)
    requires n < |blocks| && |sub(blocks[n].text)| == 1
    requires Open(text, sub, size, blocks, n, true, s, tokens, from) && tokens + Tokens(sub, blocks[n]) <= size
    requires s.start <= blocks[n].end <= |text|
    ensures Open(text, sub, size, blocks, n + 1, true, Segment(s.start, blocks[n].end, text[s.start..blocks[n].end]),
                 tokens + Tokens(sub, blocks[n]), from)
  {
    SumOne(sub, blocks, from, n);
    var t := Segment(s.start, blocks[n].end, text[s.start..blocks[n].end]);
    assert Last(t, sub, blocks, from, n + 1) by {
      assert t.end == blocks[n].end;
    }
  }

  /** The loop's state after `n` blocks. */
  datatype Progress = Progress(segments: seq<Segment>, open: bool, cur: Segment, tokens: nat)

  ghost predicate Caught(p: Progress, k: nat) {
    Covered(p.segments, k) || (p.open && Holds(p.cur, k))
  }

  /** A segment, or the open one, holds the block whole. */
  ghost predicate Whole(p: Progress, b: Segment) {
    (exists s | s in p.segments :: Encloses(s, b)) || (p.open && Encloses(p.cur, b))
  }

  predicate Encloses(s: Segment, b: Segment) {
    s.start <= b.start && b.end <= s.end
  }

  /** No block within the budget was torn. */
  ghost predicate NothingTorn(sub: SubChunker, blocks: seq<Segment>, n: nat, p: Progress)
    requires n <= |blocks|
  {
    forall k | 0 <= k < n && |sub(blocks[k].text)| == 1 :: Whole(p, blocks[k])
  }

  ghost predicate Kept(text: string, sub: SubChunker, size: nat, blocks: seq<Segment>, n: nat, p: Progress, from: nat)
    requires n <= |blocks|
  {
    && Slices(text, p.segments) && Open(text, sub, size, blocks, n, p.open, p.cur, p.tokens, from)
    && (p.open ==> EndBy(p.segments, p.cur.start))
    && (n < |blocks| ==> EndBy(p.segments, blocks[n].start) && (p.open ==> p.cur.end <= blocks[n].start))
    && (forall s | s in p.segments :: WithinBudget(sub, size, blocks, s))
    && (forall k: nat | k < |text| && !IsSpace(text[k]) && Covered(blocks[..n], k) :: Caught(p, k))
  }

  lemma CoveredByOneMore(blocks: seq<Segment>, n: nat, k: nat)
    requires n < |blocks|
    ensures Covered(blocks[..n + 1], k) <==> Covered(blocks[..n], k) || Holds(blocks[n], k)
  {
    assert blocks[..n + 1] == blocks[..n] + [blocks[n]];
    if Covered(blocks[..n], k) {
      var i :| 0 <= i < n && Holds(blocks[..n][i], k);
      assert Holds(blocks[..n + 1][i], k);
    }
    assert blocks[..n + 1][n] == blocks[n];
  }

  lemma CaughtByOneMore(text: string, blocks: seq<Segment>, n: nat, p: Progress, q: Progress)
    requires n < |blocks|
    requires forall k: nat | k < |text| && !IsSpace(text[k]) && Covered(blocks[..n], k) :: Caught(p, k)
    requires forall k: nat | Caught(p, k) :: Caught(q, k)
    requires forall k: nat | k < |text| && !IsSpace(text[k]) && Holds(blocks[n], k) :: Caught(q, k)
    ensures forall k: nat | k < |text| && !IsSpace(text[k]) && Covered(blocks[..n + 1], k) :: Caught(q, k)
  {
    forall k: nat | k < |text| && !IsSpace(text[k]) && Covered(blocks[..n + 1], k) ensures Caught(q, k) {
      CoveredByOneMore(blocks, n, k);
    }
  }

  /** The open segment is appended. */
  lemma CloseStep(text: string, sub: SubChunker, size: nat, blocks: seq<Segment>, n: nat, p: Progress, from: nat)
    requires n <= |blocks| && Kept(text, sub, size, blocks, n, p, from) && p.open
    ensures Kept(text, sub, size, blocks, n, Progress(p.segments + [p.cur], false, p.cur, p.tokens), from)
  {
    AppendSlice(text, p.segments, p.cur);
    assert WithinBudget(sub, size, blocks, p.cur);
    assert forall k: nat | Caught(p, k) :: Covered(p.segments + [p.cur], k);
  }

  lemma SkipStep(text: string, sub: SubChunker, size: nat, blocks: seq<Segment>, n: nat, p: Progress, from: nat)
    requires n < |blocks| && Slices(text, blocks) && Kept(text, sub, size, blocks, n, p, from)
    requires |sub(blocks[n].text)| == 0 && Blank(blocks[n].text)
    ensures Kept(text, sub, size, blocks, n + 1, p, from)
  {
    if p.open {
      OpenPast(text, sub, size, blocks, n, p.cur, p.tokens, from);
    }
    var b := blocks[n];
    forall k: nat | k < |text| && Holds(b, k) ensures IsSpace(text[k]) {
      assert b.text[k - b.start] == text[k];
    }
    CaughtByOneMore(text, blocks, n, p, p);
    if n + 1 < |blocks| {
      assert blocks[n].end <= blocks[n + 1].start;
    }
  }

  lemma OpenStep(text: string, sub: SubChunker, size: nat, blocks: seq<Segment>, n: nat, p: Progress, from: nat)
    requires n < |blocks| && Slices(text, blocks) && Kept(text, sub, size, blocks, n, p, from) && !p.open
    requires |sub(blocks[n].text)| == 1 && Tokens(sub, blocks[n]) <= size
    ensures Kept(text, sub, size, blocks, n + 1, Progress(p.segments, true, blocks[n], Tokens(sub, blocks[n])), n)
  {
    OpenOne(text, sub, size, blocks, n);
    CaughtByOneMore(text, blocks, n, p, Progress(p.segments, true, blocks[n], Tokens(sub, blocks[n])));
    if n + 1 < |blocks| {
      assert blocks[n].end <= blocks[n + 1].start;
    }
  }

  lemma MoreStep(text: string, sub: SubChunker, size: nat, blocks: seq<Segment>, n: nat, p: Progress, from: nat)
    requires n < |blocks| && Slices(text, blocks) && Kept(text, sub, size, blocks, n, p, from) && p.open
    requires |sub(blocks[n].text)| == 1 && p.tokens + Tokens(sub, blocks[n]) <= size
    ensures p.cur.start <= blocks[n].end <= |text|
    ensures Kept(text, sub, size, blocks, n + 1,
                 Progress(p.segments, true, Segment(p.cur.start, blocks[n].end, text[p.cur.start..blocks[n].end]),
                          p.tokens + Tokens(sub, blocks[n])), from)
  {
    OpenStarts(text, sub, size, blocks, n, p.cur, p.tokens, from);
    OpenMore(text, sub, size, blocks, n, p.cur, p.tokens, from);
    var cur := Segment(p.cur.start, blocks[n].end, text[p.cur.start..blocks[n].end]);
    CaughtByOneMore(text, blocks, n, p, Progress(p.segments, true, cur, p.tokens + Tokens(sub, blocks[n])));
    if n + 1 < |blocks| {
      assert blocks[n].end <= blocks[n + 1].start;
    }
  }

  lemma PiecesStep(text: string, sub: SubChunker, size: nat, blocks: seq<Segment>, n: nat, p: Progress, from: nat,
                   segments: seq<Segment>)
    requires n < |blocks| && Slices(text, blocks) && Kept(text, sub, size, blocks, n, p, from) && !p.open
    requires Slices(text, segments) && EndBy(segments, blocks[n].end)
    requires forall k: nat :: Covered(segments, k) <==> Covered(p.segments, k) || Holds(blocks[n], k)
    requires forall s | s in segments :: s in p.segments || Piece(sub, blocks[n], s)
    ensures Kept(text, sub, size, blocks, n + 1, Progress(segments, false, p.cur, p.tokens), from)
  {
    assert blocks[n] in blocks;
    CaughtByOneMore(text, blocks, n, p, Progress(segments, false, p.cur, p.tokens));
    if n + 1 < |blocks| {
      assert blocks[n].end <= blocks[n + 1].start;
    }
  }

  /** Segments stay, and the open one is closed or grows. */
  ghost predicate KeepsWhole(p: Progress, q: Progress) {
    && (forall s | s in p.segments :: s in q.segments)
    && (p.open ==> p.cur in q.segments || (q.open && Encloses(q.cur, p.cur)))
  }

  lemma NothingTornYet(sub: SubChunker, blocks: seq<Segment>, n: nat, p: Progress, q: Progress)
    requires n < |blocks| && NothingTorn(sub, blocks, n, p) && KeepsWhole(p, q)
    requires |sub(blocks[n].text)| == 1 ==> Whole(q, blocks[n])
    ensures NothingTorn(sub, blocks, n + 1, q)
  {
    forall k | 0 <= k < n && |sub(blocks[k].text)| == 1 ensures Whole(q, blocks[k]) {
      assert Whole(p, blocks[k]);
    }
  }

  // ------------------------------------------------------------------ where the segments come from

  /** A segment made of blocks `first` to `last`, or one piece of an oversized block. */
  datatype Origin = Merged(first: nat, last: nat) | PieceOf(block: nat, piece: nat)

  /** Block `b` is the next after `a` that holds any chunk, and it fits the budget by itself. */
  ghost predicate NextFits(sub: SubChunker, blocks: seq<Segment>, a: nat, b: nat) {
    && a < b < |blocks| && |sub(blocks[b].text)| == 1
    && forall k | a < k < b :: |sub(blocks[k].text)| == 0
  }

  /** The segment is what its origin says, and a merged one could not have taken the next block too. */
  ghost predicate ComesFrom(sub: SubChunker, size: nat, blocks: seq<Segment>, s: Segment, o: Origin) {
    match o
    case Merged(i, a) =>
      && i <= a < |blocks| && s.start == blocks[i].start && s.end == blocks[a].end
      && |sub(blocks[i].text)| == 1 && |sub(blocks[a].text)| == 1
      && (forall k | i <= k <= a :: |sub(blocks[k].text)| <= 1)
      && TokenSum(sub, blocks[i..a + 1]) <= size
      && (forall b | NextFits(sub, blocks, a, b) :: TokenSum(sub, blocks[i..b + 1]) > size)
    case PieceOf(k, m) =>
      k < |blocks| && |sub(blocks[k].text)| > 1 && m < |sub(blocks[k].text)| && s == PiecesOf(sub, blocks[k])[m]
  }

  /** One origin for each segment. */
  ghost predicate Explained(sub: SubChunker, size: nat, blocks: seq<Segment>, segments: seq<Segment>,
                            origins: seq<Origin>) {
    |origins| == |segments| && forall x | 0 <= x < |segments| :: ComesFrom(sub, size, blocks, segments[x], origins[x])
  }

  /** Blocks are merged as far as the budget allows, and only oversized ones are split. */
  ghost predicate MergedGreedily(sub: SubChunker, size: nat, blocks: seq<Segment>, segments: seq<Segment>) {
    exists origins :: Explained(sub, size, blocks, segments, origins)
  }

  /** What is open ends with block `last`, behind which nothing held a chunk. */
  ghost predicate EndsWith(sub: SubChunker, blocks: seq<Segment>, n: nat, p: Progress, from: nat, last: nat)
    requires n <= |blocks|
  {
    p.open ==>
      && from <= last < n && p.cur.end == blocks[last].end
      && |sub(blocks[from].text)| == 1 && |sub(blocks[last].text)| == 1
      && forall k | last < k < n :: |sub(blocks[k].text)| == 0
  }

  lemma {:induction false} SumOfEmptyBlocks(sub: SubChunker, blocks: seq<Segment>, i: nat, a: nat, n: nat)
    requires i <= a < n <= |blocks| && forall k | a < k < n :: |sub(blocks[k].text)| == 0
    ensures TokenSum(sub, blocks[i..n]) == TokenSum(sub, blocks[i..a + 1])
    decreases n
  {
    if a + 1 < n {
      SumOfEmptyBlocks(sub, blocks, i, a, n - 1);
      SumOne(sub, blocks, i, n - 1);
    }
  }

  /** What is closed could not have taken the next block. */
  lemma ClosedComesFrom(text: string, sub: SubChunker, size: nat, blocks: seq<Segment>, n: nat, p: Progress, from: nat,
                        last: nat)
    requires n <= |blocks| && Kept(text, sub, size, blocks, n, p, from) && p.open
    requires EndsWith(sub, blocks, n, p, from, last)
    requires n == |blocks| || |sub(blocks[n].text)| > 1
             || (|sub(blocks[n].text)| == 1 && p.tokens + Tokens(sub, blocks[n]) > size)
    ensures ComesFrom(sub, size, blocks, p.cur, Merged(from, last))
  {
    SumOfEmptyBlocks(sub, blocks, from, last, n);
    forall b | NextFits(sub, blocks, last, b) ensures TokenSum(sub, blocks[from..b + 1]) > size {
      assert b == n;
      SumOne(sub, blocks, from, n);
    }
  }

  lemma OneMoreExplained(sub: SubChunker, size: nat, blocks: seq<Segment>, segments: seq<Segment>, origins: seq<Origin>,
                         s: Segment, o: Origin)
    requires Explained(sub, size, blocks, segments, origins) && ComesFrom(sub, size, blocks, s, o)
    ensures Explained(sub, size, blocks, segments + [s], origins + [o])
  {
  }

  lemma PiecesExplained(sub: SubChunker, size: nat, blocks: seq<Segment>, segments: seq<Segment>, origins: seq<Origin>,
                        n: nat)
    returns (more: seq<Origin>)
    requires Explained(sub, size, blocks, segments, origins) && n < |blocks| && |sub(blocks[n].text)| > 1
    ensures Explained(sub, size, blocks, segments + PiecesOf(sub, blocks[n]), more)
  {
    more := origins + seq(|sub(blocks[n].text)|, m requires 0 <= m < |sub(blocks[n].text)| => PieceOf(n, m));
  }

  /** What a turn does to the open segment, to its first and its last block, and to the origins. */
  lemma TurnExplained(text: string, sub: SubChunker, size: nat, blocks: seq<Segment>, n: nat, p: Progress, from: nat,
                      last: nat, origins: seq<Origin>, q: Progress, fromNow: nat)
    returns (lastNow: nat, originsNow: seq<Origin>)
    requires n < |blocks| && Kept(text, sub, size, blocks, n, p, from) && EndsWith(sub, blocks, n, p, from, last)
    requires Explained(sub, size, blocks, p.segments, origins) && Turned(sub, size, blocks[n], n, p, from, q, fromNow)
    ensures EndsWith(sub, blocks, n + 1, q, fromNow, lastNow)
    ensures Explained(sub, size, blocks, q.segments, originsNow)
  {
    lastNow, originsNow := last, origins;
    if |sub(blocks[n].text)| == 1 {
      lastNow := n;
      if p.open && p.tokens + Tokens(sub, blocks[n]) > size {
        ClosedComesFrom(text, sub, size, blocks, n, p, from, last);
        OneMoreExplained(sub, size, blocks, p.segments, origins, p.cur, Merged(from, last));
        originsNow := origins + [Merged(from, last)];
      }
    } else if |sub(blocks[n].text)| > 1 {
      if p.open {
        ClosedComesFrom(text, sub, size, blocks, n, p, from, last);
        OneMoreExplained(sub, size, blocks, p.segments, origins, p.cur, Merged(from, last));
        originsNow := PiecesExplained(sub, size, blocks, p.segments + [p.cur], origins + [Merged(from, last)], n);
      } else {
        originsNow := PiecesExplained(sub, size, blocks, p.segments, origins, n);
      }
    }
  }

  /** The turn of block `n`: a block without chunks changes nothing, an oversized one closes what is open and is split,
      and another one is added where it fits and opens a new segment where it does not. */
  predicate Turned(sub: SubChunker, size: nat, b: Segment, n: nat, p: Progress, from: nat, q: Progress, fromNow: nat) {
    var closed := if p.open then p.segments + [p.cur] else p.segments;
    var fits := p.open && p.tokens + Tokens(sub, b) <= size;
    if |sub(b.text)| == 0 then q == p && fromNow == from
    else if |sub(b.text)| > 1 then !q.open && q.segments == closed + PiecesOf(sub, b)
    else
      && q.open && q.cur.end == b.end && q.segments == (if fits then p.segments else closed)
      && fromNow == (if fits then from else n)
  }

  /** One turn of the loop over the blocks. */
  method AddBlock(text: string, blocks: seq<Segment>, sub: SubChunker, size: nat, n: nat, p: Progress, ghost from: nat)
    returns (q: Progress, ghost fromNow: nat)
    requires n < |blocks| && Slices(text, blocks) && Kept(text, sub, size, blocks, n, p, from)
    requires Promised(sub, size, blocks[n].text)
    ensures Kept(text, sub, size, blocks, n + 1, q, fromNow)
    ensures KeepsWhole(p, q) && (|sub(blocks[n].text)| == 1 ==> Whole(q, blocks[n]))
    ensures Turned(sub, size, blocks[n], n, p, from, q, fromNow)
  {
    var b := blocks[n];
    var subs := sub(b.text);
    q, fromNow := p, from;
    if |subs| == 0 {
      SkipStep(text, sub, size, blocks, n, p, from);
    } else if |subs| > 1 {
      if p.open {
        CloseStep(text, sub, size, blocks, n, p, from);
        q := Progress(p.segments + [p.cur], false, p.cur, p.tokens);
      }
      var segments := AddPieces(text, q.segments, b, sub);
      PiecesStep(text, sub, size, blocks, n, q, from, segments);
      q := Progress(segments, false, q.cur, q.tokens);
    } else if !p.open {
      OpenStep(text, sub, size, blocks, n, p, from);
      q, fromNow := Progress(p.segments, true, b, subs[0].tokens), n;
    } else if p.tokens + subs[0].tokens <= size {
      MoreStep(text, sub, size, blocks, n, p, from);
      q := Progress(p.segments, true, Segment(p.cur.start, b.end, text[p.cur.start..b.end]), p.tokens + subs[0].tokens);
    } else {
      CloseStep(text, sub, size, blocks, n, p, from);
      q := Progress(p.segments + [p.cur], false, p.cur, p.tokens);
      OpenStep(text, sub, size, blocks, n, q, from);
      q, fromNow := Progress(q.segments, true, b, subs[0].tokens), n;
    }
  }

  lemma ClosedIsWhole(sub: SubChunker, blocks: seq<Segment>, p: Progress)
    requires p.open && NothingTorn(sub, blocks, |blocks|, p)
    ensures NothingTorn(sub, blocks, |blocks|, Progress(p.segments + [p.cur], false, p.cur, p.tokens))
  {
    var q := Progress(p.segments + [p.cur], false, p.cur, p.tokens);
    assert p.cur in q.segments && forall s | s in p.segments :: s in q.segments;
    forall k | 0 <= k < |blocks| && |sub(blocks[k].text)| == 1 ensures Whole(q, blocks[k]) {
      assert Whole(p, blocks[k]);
    }
  }

  /** Some segment holds the block whole. */
  ghost predicate InOne(segments: seq<Segment>, b: Segment) {
    exists s | s in segments :: Encloses(s, b)
  }

  /** All that holds after `n` blocks. */
  ghost predicate MergedSoFar(text: string, sub: SubChunker, size: nat, blocks: seq<Segment>, n: nat, p: Progress,
                              from: nat, last: nat, origins: seq<Origin>)
    requires n <= |blocks|
  {
    && Kept(text, sub, size, blocks, n, p, from) && NothingTorn(sub, blocks, n, p)
    && EndsWith(sub, blocks, n, p, from, last) && Explained(sub, size, blocks, p.segments, origins)
  }

  /** The whole turn of a block. */
  method MergeBlock(text: string, blocks: seq<Segment>, sub: SubChunker, size: nat, n: nat, p: Progress,
                    ghost from: nat, ghost last: nat, ghost origins: seq<Origin>)
    returns (q: Progress, ghost fromNow: nat, ghost lastNow: nat, ghost originsNow: seq<Origin>)
    requires n < |blocks| && Slices(text, blocks) && Lossless(sub, size)
    requires MergedSoFar(text, sub, size, blocks, n, p, from, last, origins)
    ensures MergedSoFar(text, sub, size, blocks, n + 1, q, fromNow, lastNow, originsNow)
  {
    assert Promised(sub, size, blocks[n].text);
    q, fromNow := AddBlock(text, blocks, sub, size, n, p, from);
    NothingTornYet(sub, blocks, n, p, q);
    lastNow, originsNow := TurnExplained(text, sub, size, blocks, n, p, from, last, origins, q, fromNow);
  }

  /** What is merged in the end, once what is still open is closed. */
  ghost predicate AllMerged(text: string, sub: SubChunker, size: nat, blocks: seq<Segment>, segments: seq<Segment>) {
    && Slices(text, segments)
    && (forall k: nat | k < |text| && !IsSpace(text[k]) && Covered(blocks, k) :: Covered(segments, k))
    && (forall s | s in segments :: WithinBudget(sub, size, blocks, s))
    && (forall b | b in blocks && |sub(b.text)| == 1 :: InOne(segments, b))
    && MergedGreedily(sub, size, blocks, segments)
  }

  lemma NothingOpenIsMerged(text: string, sub: SubChunker, size: nat, blocks: seq<Segment>, p: Progress, from: nat,
                            last: nat, origins: seq<Origin>)
    requires MergedSoFar(text, sub, size, blocks, |blocks|, p, from, last, origins) && !p.open
    ensures AllMerged(text, sub, size, blocks, p.segments)
  {
    assert blocks[..|blocks|] == blocks;
    forall b | b in blocks && |sub(b.text)| == 1 ensures InOne(p.segments, b) {
      var k :| 0 <= k < |blocks| && blocks[k] == b;
      assert Whole(p, blocks[k]);
    }
    forall k: nat | k < |text| && !IsSpace(text[k]) && Covered(blocks, k) ensures Covered(p.segments, k) {
      assert Caught(p, k);
    }
  }

  lemma ClosingMerges(text: string, sub: SubChunker, size: nat, blocks: seq<Segment>, p: Progress, from: nat,
                      last: nat, origins: seq<Origin>)
    requires MergedSoFar(text, sub, size, blocks, |blocks|, p, from, last, origins) && p.open
    ensures AllMerged(text, sub, size, blocks, p.segments + [p.cur])
  {
    CloseStep(text, sub, size, blocks, |blocks|, p, from);
    ClosedIsWhole(sub, blocks, p);
    ClosedComesFrom(text, sub, size, blocks, |blocks|, p, from, last);
    OneMoreExplained(sub, size, blocks, p.segments, origins, p.cur, Merged(from, last));
    NothingOpenIsMerged(text, sub, size, blocks, Progress(p.segments + [p.cur], false, p.cur, p.tokens), from, last,
                        origins + [Merged(from, last)]);
  }

  /** Step 2: merge blocks up to the budget, split the oversized ones. */
  method MergeToBudget(text: string, blocks: seq<Segment>, sub: SubChunker, size: nat) returns (segments: seq<Segment>)
    requires Slices(text, blocks) && Lossless(sub, size)
    ensures Slices(text, segments)
    ensures forall k: nat | k < |text| && !IsSpace(text[k]) && Covered(blocks, k) :: Covered(segments, k)
    ensures forall s | s in segments :: WithinBudget(sub, size, blocks, s)
    ensures forall b | b in blocks && |sub(b.text)| == 1 :: InOne(segments, b)
    ensures MergedGreedily(sub, size, blocks, segments)
  {
    var p := Progress([], false, Segment(0, 0, []), 0);
    ghost var from: nat, last: nat, origins: seq<Origin> := 0, 0, [];
    for n := 0 to |blocks|
      invariant MergedSoFar(text, sub, size, blocks, n, p, from, last, origins)
    {
      p, from, last, origins := MergeBlock(text, blocks, sub, size, n, p, from, last, origins);
    }
    if p.open {
      ClosingMerges(text, sub, size, blocks, p, from, last, origins);
      segments := p.segments + [p.cur];
    } else {
      NothingOpenIsMerged(text, sub, size, blocks, p, from, last, origins);
      segments := p.segments;
    }
  }

  // ------------------------------------------------------------------ the whole segmentation

  predicate NestedOrApart(a: Scope, b: Scope) {
    Contains(a, b) || Contains(b, a) || a.end <= b.start || b.end <= a.start
  }

  /** Nested or disjoint. */
  ghost predicate Laminar(table: seq<Scope>) {
    forall a, b | a in table && b in table :: NestedOrApart(a, b)
  }

  function ByStart(): (Scope, Scope) -> bool {
    (a: Scope, b: Scope) => a.start <= b.start
  }

  ghost predicate AtTop(table: seq<Scope>, s: Scope) {
    exists i: nat :: i < |table| && table[i] == s && TopLevel(table, i)
  }

  /** `top` holds the top-level entries of the table, each once. */
  ghost predicate Tops(table: seq<Scope>, top: seq<Scope>) {
    Distinct(top) && forall s :: s in top <==> AtTop(table, s)
  }

  lemma ListedTops(table: seq<Scope>, kept: seq<nat>, top: seq<Scope>)
    requires ListsTopLevel(table, |table|, kept)
    requires |top| == |kept| && forall a | 0 <= a < |top| :: kept[a] in kept && top[a] == table[kept[a]]
    ensures Tops(table, top)
  {
    forall a, b | 0 <= a < b < |top| ensures top[a] != top[b] {
      TopLevelScopesAreApart(table, kept[a], kept[b]);
    }
    forall s | s in top ensures AtTop(table, s) {
      var a :| 0 <= a < |top| && top[a] == s;
      assert kept[a] in kept;
    }
    forall s | AtTop(table, s) ensures s in top {
      var i: nat :| i < |table| && table[i] == s && TopLevel(table, i);
      assert i in kept;
      var a :| 0 <= a < |kept| && kept[a] == i;
      assert top[a] in top;
    }
  }

  lemma FollowOneAnother(table: seq<Scope>, i: nat, j: nat)
    requires i < |table| && j < |table| && TopLevel(table, i) && TopLevel(table, j)
    requires Laminar(table) && table[i] != table[j] && table[i].start <= table[j].start
    requires table[i].start <= table[i].end && table[j].start <= table[j].end
    ensures table[i].end <= table[j].start
  {
    assert table[i] in table && table[j] in table && NestedOrApart(table[i], table[j]);
    TopLevelScopesAreApart(table, i, j);
    TopLevelScopesAreApart(table, j, i);
  }

  /** Sorted top-level scopes of a laminar table follow one another. */
  lemma SortedTopLevelInRow(text: string, table: seq<Scope>, top: seq<Scope>)
    requires Laminar(table) && forall s | s in table :: s.start <= s.end <= |text|
    requires Tops(table, top)
    ensures InRow(text, Sort(ByStart(), top))
    ensures forall s :: s in Sort(ByStart(), top) <==> s in top
  {
    var sorted := Sort(ByStart(), top);
    SortKeeps(ByStart(), top);
    SortSorts(ByStart(), top);
    PermutationsKeepDistinctness(top, sorted);
    forall a | 0 <= a < |sorted| ensures sorted[a].start <= sorted[a].end <= |text| {
      assert sorted[a] in top;
    }
    forall a, b | 0 <= a < b < |sorted| ensures sorted[a].end <= sorted[b].start {
      assert sorted[a] in top && sorted[b] in top && ByStart()(sorted[a], sorted[b]);
      var i: nat :| i < |table| && table[i] == sorted[a] && TopLevel(table, i);
      var j: nat :| j < |table| && table[j] == sorted[b] && TopLevel(table, j);
      FollowOneAnother(table, i, j);
    }
  }

  function BlockOf(text: string, s: Scope): Segment
    requires s.start <= s.end <= |text|
  {
    Segment(s.start, s.end, text[s.start..s.end])
  }

  /** Segment `i` holds position `k`, and no other segment does. */
  ghost predicate HeldBy(segments: seq<Segment>, k: nat, i: nat) {
    i < |segments| && Holds(segments[i], k) && forall j | 0 <= j < |segments| && j != i :: !Holds(segments[j], k)
  }

  lemma HeldOnce(text: string, segments: seq<Segment>, k: nat)
    requires Slices(text, segments) && Covered(segments, k)
    ensures exists i: nat :: HeldBy(segments, k, i)
  {
    var i: nat :| i < |segments| && Holds(segments[i], k);
    forall j | 0 <= j < |segments| && j != i ensures !Holds(segments[j], k) {
      assert if i < j then segments[i].end <= segments[j].start else segments[j].end <= segments[i].start;
    }
    assert HeldBy(segments, k, i);
  }

  /** `_build_segments`: ordered slices that hold every character other than white space in exactly one segment,
      each within the token budget; a top-level scope that fits the budget lies in one segment. */
  method BuildSegments(text: string, table: seq<Scope>, sub: SubChunker, size: nat)
    returns (segments: seq<Segment>, ghost blocks: seq<Segment>)
    requires Laminar(table) && forall s | s in table :: s.start <= s.end <= |text|
    requires Lossless(sub, size)
    ensures Slices(text, segments) && Slices(text, blocks)
    ensures forall k: nat | k < |text| && !IsSpace(text[k]) ::
              exists i: nat :: HeldBy(segments, k, i)
    ensures forall s | s in segments :: WithinBudget(sub, size, blocks, s)
    ensures MergedGreedily(sub, size, blocks, segments)
    ensures forall s | s in table && AtTop(table, s) :: BlockOf(text, s) in blocks
    ensures forall s | s in table && AtTop(table, s) && |sub(text[s.start..s.end])| == 1 ::
              InOne(segments, BlockOf(text, s))
  {
    var top, kept := TopLevelScopes(table);
    ListedTops(table, kept, top);
    SortedTopLevelInRow(text, table, top);
    var split := SplitAtScopes(text, Sort(ByStart(), top));
    blocks := split;
    segments := MergeToBudget(text, split, sub, size);
    forall k: nat | k < |text| && !IsSpace(text[k])
      ensures exists i: nat :: HeldBy(segments, k, i)
    {
      HeldOnce(text, segments, k);
    }
    forall s | s in table && AtTop(table, s)
      ensures BlockOf(text, s) in blocks
      ensures |sub(text[s.start..s.end])| == 1 ==> InOne(segments, BlockOf(text, s))
    {
      assert s in top;
    }
  }
}
