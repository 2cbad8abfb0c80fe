/** Page numbers after the page-break markers are cut out (archon_search/enricher.py, `_extract_page_breaks`,
    `_transform_page_table`, `_excise_markers`, `preprocess` and the page branch of `enrich_chunk`). Stated for
    every nonempty marker. */
module PageProvenance {
  import opened Options
  import opened Bisect

  const PAGE_BREAK_MARKER := "<!-- archon-search:pagebreak:v1 -->"

  datatype PageBreak = PageBreak(offset: int, page: nat)

  // ------------------------------------------------------------------ markers

  predicate MarkerAt(text: string, m: string, i: nat) {
    i + |m| <= |text| && text[i..i + |m|] == m
  }

  /** `str.find` */
  function Find(text: string, m: string, pos: nat): (r: Option<nat>)
    requires m != []
    ensures r.Some? ==> pos <= r.value && r.value + |m| <= |text|
    decreases |text| - pos
  {
    if pos + |m| > |text| then None else if MarkerAt(text, m, pos) then Some(pos) else Find(text, m, pos + 1)
  }

  lemma {:induction false} FindIsFirst(text: string, m: string, pos: nat)
    requires m != []
    ensures var r := Find(text, m, pos);
            && (r.None? ==> forall i: nat | pos <= i :: !MarkerAt(text, m, i))
            && (r.Some? ==> MarkerAt(text, m, r.value) && forall i: nat | pos <= i < r.value :: !MarkerAt(text, m, i))
    decreases |text| - pos
  {
    if pos + |m| <= |text| && !MarkerAt(text, m, pos) {
      FindIsFirst(text, m, pos + 1);
    }
  }

  /** The markers from `pos` on, leftmost first and without overlap. */
  function Markers(text: string, m: string, pos: nat): seq<nat>
    requires m != []
    decreases |text| - pos
  {
    var r := Find(text, m, pos);
    if r.None? then [] else [r.value] + Markers(text, m, r.value + |m|)
  }

  /** `str.replace` with nothing, from `pos` on. */
  function Excise(text: string, m: string, pos: nat): string
    requires m != [] && pos <= |text|
    decreases |text| - pos
  {
    var r := Find(text, m, pos);
    if r.None? then text[pos..] else text[pos..r.value] + Excise(text, m, r.value + |m|)
  }

  /** The place in the text of position `c` of what is left of it from `pos` on. */
  function Origin(text: string, m: string, pos: nat, c: nat): nat
    requires m != [] && pos <= |text|
    decreases |text| - pos
  {
    var r := Find(text, m, pos);
    if r.None? || c < r.value - pos then pos + c
    else Origin(text, m, r.value + |m|, c - (r.value - pos))
  }

  /** How many of the markers begin before `o`. */
  function MarkersBefore(markers: seq<nat>, o: nat): nat {
    if markers == [] then 0
    else MarkersBefore(markers[..|markers| - 1], o) + if markers[|markers| - 1] < o then 1 else 0
  }

  /** The markers follow one another within the text. */
  lemma {:induction false} MarkersApart(text: string, m: string, pos: nat)
    requires m != []
    ensures forall i | 0 <= i < |Markers(text, m, pos)| ::
              pos <= Markers(text, m, pos)[i] && MarkerAt(text, m, Markers(text, m, pos)[i])
    ensures forall i | 0 <= i < |Markers(text, m, pos)| - 1 ::
              Markers(text, m, pos)[i] + |m| <= Markers(text, m, pos)[i + 1]
    decreases |text| - pos
  {
    var r := Find(text, m, pos);
    if r.Some? {
      FindIsFirst(text, m, pos);
      MarkersApart(text, m, r.value + |m|);
      var all, rest := Markers(text, m, pos), Markers(text, m, r.value + |m|);
      assert forall i | 1 <= i < |all| :: all[i] == rest[i - 1];
    }
  }

  lemma CleanedAt(text: string, m: string, pos: nat, c: nat)
    requires m != [] && pos <= |text| && c < |Excise(text, m, pos)| && Find(text, m, pos).Some?
    ensures var at := Find(text, m, pos).value;
            && (c >= at - pos ==>
                c - (at - pos) < |Excise(text, m, at + |m|)|
                  && Excise(text, m, pos)[c] == Excise(text, m, at + |m|)[c - (at - pos)])
            && (c < at - pos ==> Excise(text, m, pos)[c] == text[pos + c])
  {
  }

  /** The origin of a kept character holds that character, and origins keep the order. */
  lemma OriginsHoldTheCleanedText(text: string, m: string, pos: nat, c: nat)
    requires m != [] && pos <= |text| && c < |Excise(text, m, pos)|
    ensures pos + c <= Origin(text, m, pos, c) < |text| && text[Origin(text, m, pos, c)] == Excise(text, m, pos)[c]
    ensures Origin(text, m, pos, c) < Origin(text, m, pos, c + 1)
  {
    OriginHolds(text, m, pos, c);
    OriginsIncrease(text, m, pos, c, c + 1);
  }

  lemma {:induction false} OriginHolds(text: string, m: string, pos: nat, c: nat)
    requires m != [] && pos <= |text| && c < |Excise(text, m, pos)|
    ensures pos + c <= Origin(text, m, pos, c) < |text| && text[Origin(text, m, pos, c)] == Excise(text, m, pos)[c]
    decreases |text| - pos
  {
    var r := Find(text, m, pos);
    if r.Some? {
      CleanedAt(text, m, pos, c);
      if c >= r.value - pos {
        OriginHolds(text, m, r.value + |m|, c - (r.value - pos));
      }
    }
  }

  lemma {:induction false} OriginsIncrease(text: string, m: string, pos: nat, c: nat, d: nat)
    requires m != [] && pos <= |text| && c < d
    ensures Origin(text, m, pos, c) < Origin(text, m, pos, d)
    decreases |text| - pos
  {
    var r := Find(text, m, pos);
    if r.Some? && d >= r.value - pos {
      var gap, next := r.value - pos, r.value + |m|;
      if c >= gap {
        OriginsIncrease(text, m, next, c - gap, d - gap);
      } else {
        OriginStartsHere(text, m, next, d - gap);
      }
    }
  }

  lemma {:induction false} OriginStartsHere(text: string, m: string, pos: nat, c: nat)
    requires m != [] && pos <= |text|
    ensures Origin(text, m, pos, c) >= pos + c
    decreases |text| - pos
  {
    var r := Find(text, m, pos);
    if r.Some? && c >= r.value - pos {
      OriginStartsHere(text, m, r.value + |m|, c - (r.value - pos));
    }
  }

  /** No origin lies within a marker. */
  lemma {:induction false} OriginsAvoidMarkers(text: string, m: string, pos: nat, c: nat, i: nat)
    requires m != [] && pos <= |text| && i < |Markers(text, m, pos)|
    ensures var o, at := Origin(text, m, pos, c), Markers(text, m, pos)[i]; o < at || at + |m| <= o
    decreases |text| - pos
  {
    var r := Find(text, m, pos);
    var next := r.value + |m|;
    MarkersApart(text, m, pos);
    if c >= r.value - pos {
      OriginStartsHere(text, m, next, c - (r.value - pos));
      if i > 0 {
        OriginsAvoidMarkers(text, m, next, c - (r.value - pos), i - 1);
      }
    } else if i > 0 {
      MarkersApart(text, m, next);
    }
  }

  lemma OneMore(n: nat, k: nat)
    ensures (n + 1) * k == n * k + k
  {
  }

  /** Excision takes the markers and nothing else. */
  lemma {:induction false} ExcisionTakesOnlyMarkers(text: string, m: string, pos: nat)
    requires m != [] && pos <= |text|
    ensures |Excise(text, m, pos)| + |Markers(text, m, pos)| * |m| == |text| - pos
    decreases |text| - pos
  {
    var r := Find(text, m, pos);
    if r.Some? {
      var next := r.value + |m|;
      ExcisionTakesOnlyMarkers(text, m, next);
      assert Markers(text, m, pos) == [r.value] + Markers(text, m, next);
      OneMore(|Markers(text, m, next)|, |m|);
    }
  }

  // ------------------------------------------------------------------ the table

  function PreEntries(markers: seq<nat>): seq<PageBreak> {
    seq(|markers|, i requires 0 <= i < |markers| => PageBreak(markers[i], i + 2))
  }

  function Shifted(markers: seq<nat>, len: nat, i: nat): int
    requires i < |markers|
  {
    markers[i] - i * len
  }

  function PostEntries(markers: seq<nat>, len: nat): seq<PageBreak> {
    seq(|markers|, i requires 0 <= i < |markers| => PageBreak(Shifted(markers, len, i), i + 2))
  }

  /** The first page's entry, unless a marker opens the text. */
  function Seed(text: string, m: string): seq<PageBreak> {
    if m <= text then [] else [PageBreak(0, 1)]
  }

  lemma NextEntry(text: string, m: string, pos: nat, all: seq<nat>, n: nat)
    requires m != [] && Find(text, m, pos).Some? && n <= |all| && Markers(text, m, pos) == all[n..]
    ensures var at := Find(text, m, pos).value;
            && n < |all| && Markers(text, m, at + |m|) == all[n + 1..]
            && PreEntries(all)[..n + 1] == PreEntries(all)[..n] + [PageBreak(at, n + 2)]
  {
    assert all[n..][0] == all[n] && all[n..][1..] == all[n + 1..];
  }

  lemma Regrouped(a: seq<PageBreak>, b: seq<PageBreak>, x: PageBreak)
    ensures a + b + [x] == a + (b + [x])
  {
  }

  lemma {:induction false} EveryMarkerIsListed(text: string, m: string, pos: nat, i: nat)
    requires m != [] && pos <= i && MarkerAt(text, m, i)
    ensures exists k | 0 <= k < |Markers(text, m, pos)| ::
              Markers(text, m, pos)[k] <= i < Markers(text, m, pos)[k] + |m|
    decreases |text| - pos
  {
    FindIsFirst(text, m, pos);
    var at := Find(text, m, pos).value;
    var all, rest := Markers(text, m, pos), Markers(text, m, at + |m|);
    assert all[0] == at;
    if i >= at + |m| {
      EveryMarkerIsListed(text, m, at + |m|, i);
      var k :| 0 <= k < |rest| && rest[k] <= i < rest[k] + |m|;
      assert all[k + 1] == rest[k];
    }
  }

  lemma {:induction false} MarkersAscend(text: string, m: string, i: nat, j: nat)
    requires m != [] && i < j < |Markers(text, m, 0)|
    ensures Markers(text, m, 0)[i] + |m| <= Markers(text, m, 0)[j]
  {
    MarkersApart(text, m, 0);
    if i + 1 < j {
      MarkersAscend(text, m, i, j - 1);
    }
  }

  /** Pages in order, from the first one or, where a marker opens the text, from the second; both begin at 0. */
  ghost predicate CountsPages(text: string, m: string, table: seq<PageBreak>) {
    var first := if MarkerAt(text, m, 0) then 2 else 1;
    table != [] && table[0].offset == 0 && forall i | 0 <= i < |table| :: table[i].page == first + i
  }

  /** Every other page begins at a marker, behind the end of the marker before. */
  ghost predicate BeginsAtMarkers(text: string, m: string, table: seq<PageBreak>) {
    && (forall e | e in table && e.page >= 2 :: e.offset >= 0 && MarkerAt(text, m, e.offset))
    && (forall i, j | 0 <= i < j < |table| && table[i].page >= 2 :: table[i].offset + |m| <= table[j].offset)
  }

  /** Wherever the text holds a marker, at that place or across it a page begins. */
  ghost predicate MissesNoMarker(text: string, m: string, table: seq<PageBreak>) {
    forall i: nat | MarkerAt(text, m, i) :: exists e | e in table :: e.page >= 2 && e.offset <= i < e.offset + |m|
  }

  lemma TableEntry(text: string, m: string, all: seq<nat>, k: nat)
    requires k < |all|
    ensures var n := |Seed(text, m)|;
            && n + k < |Seed(text, m) + PreEntries(all)|
            && (Seed(text, m) + PreEntries(all))[n + k] == PageBreak(all[k], k + 2)
  {
  }

  lemma EntriesBeginAtMarkers(text: string, m: string, all: seq<nat>)
    requires forall i | 0 <= i < |all| :: MarkerAt(text, m, all[i])
    requires forall i, j | 0 <= i < j < |all| :: all[i] + |m| <= all[j]
    ensures BeginsAtMarkers(text, m, Seed(text, m) + PreEntries(all))
  {
    var table, n := Seed(text, m) + PreEntries(all), |Seed(text, m)|;
    forall i | 0 <= i < |table| && table[i].page >= 2 ensures i >= n && table[i].offset == all[i - n] {
      if i >= n {
        TableEntry(text, m, all, i - n);
      }
    }
  }

  lemma TheTableBeginsAtMarkers(text: string, m: string)
    requires m != []
    ensures BeginsAtMarkers(text, m, Seed(text, m) + PreEntries(Markers(text, m, 0)))
  {
    var all := Markers(text, m, 0);
    MarkersApart(text, m, 0);
    forall i, j | 0 <= i < j < |all| ensures all[i] + |m| <= all[j] {
      MarkersAscend(text, m, i, j);
    }
    EntriesBeginAtMarkers(text, m, all);
  }

  lemma TheTableMissesNoMarker(text: string, m: string)
    requires m != []
    ensures MissesNoMarker(text, m, Seed(text, m) + PreEntries(Markers(text, m, 0)))
  {
    var all := Markers(text, m, 0);
    var table := Seed(text, m) + PreEntries(all);
    forall i: nat | MarkerAt(text, m, i)
      ensures exists e | e in table :: e.page >= 2 && e.offset <= i < e.offset + |m|
    {
      EveryMarkerIsListed(text, m, 0, i);
      var k :| 0 <= k < |all| && all[k] <= i < all[k] + |m|;
      TableEntry(text, m, all, k);
      assert PageBreak(all[k], k + 2) in table;
    }
  }

  /** Where no marker opens the text the table begins with the first page. */
  lemma TheTableCountsPages(text: string, m: string)
    requires m != []
    ensures CountsPages(text, m, Seed(text, m) + PreEntries(Markers(text, m, 0)))
  {
    var all, n := Markers(text, m, 0), |Seed(text, m)|;
    var table := Seed(text, m) + PreEntries(all);
    forall i | n <= i < |table| ensures table[i].page == i - n + 2 {
      TableEntry(text, m, all, i - n);
    }
    if MarkerAt(text, m, 0) {
      EveryMarkerIsListed(text, m, 0, 0);
      TableEntry(text, m, all, 0);
    }
  }

  /** `_extract_page_breaks` */
  method ExtractPageBreaks(text: string, m: string) returns (result: seq<PageBreak>)
    requires m != []
    ensures result == Seed(text, m) + PreEntries(Markers(text, m, 0))
  {
    result := Seed(text, m);
    var page, pos := 2, 0;
    ghost var all, n := Markers(text, m, 0), 0;
    var r := Find(text, m, pos);
    while r.Some?
      invariant r == Find(text, m, pos) && page == n + 2
      invariant 0 <= n <= |all| && Markers(text, m, pos) == all[n..]
      invariant result == Seed(text, m) + PreEntries(all)[..n]
      decreases |text| - pos
    {
      NextEntry(text, m, pos, all, n);
      Regrouped(Seed(text, m), PreEntries(all)[..n], PageBreak(r.value, page));
      result := result + [PageBreak(r.value, page)];
      page, n := page + 1, n + 1;
      pos := r.value + |m|;
      r := Find(text, m, pos);
    }
    assert n == |all|;
    assert PreEntries(all)[..n] == PreEntries(all);
  }

  /** `_transform_page_table` */
  method TransformPageTable(pre: seq<PageBreak>, len: nat) returns (post: seq<PageBreak>)
    ensures |post| == |pre|
    ensures var seeds := if pre != [] && pre[0] == PageBreak(0, 1) then 1 else 0;
            forall i | 0 <= i < |pre| ::
              post[i] == PageBreak(if i < seeds then pre[i].offset else pre[i].offset - (i - seeds) * len, pre[i].page)
  {
    post := [];
    if pre == [] {
      return;
    }
    var seeded := pre[0] == PageBreak(0, 1);
    var marker := 0;
    for i := 0 to |pre|
      invariant |post| == i && marker == if seeded && i > 0 then i - 1 else i
      invariant forall k | 0 <= k < i ::
                  post[k] == PageBreak(if seeded && k == 0 then pre[k].offset
                                       else pre[k].offset - (if seeded then k - 1 else k) * len, pre[k].page)
    {
      if i == 0 && seeded {
        post := post + [pre[i]];
      } else {
        post := post + [PageBreak(pre[i].offset - marker * len, pre[i].page)];
        marker := marker + 1;
      }
    }
  }

  function PageTable(text: string, m: string): seq<PageBreak>
    requires m != []
  {
    Seed(text, m) + PostEntries(Markers(text, m, 0), |m|)
  }

  lemma ShiftingGivesTheTable(text: string, m: string, pre: seq<PageBreak>, table: seq<PageBreak>)
    requires m != [] && pre == Seed(text, m) + PreEntries(Markers(text, m, 0)) && |table| == |pre|
    requires var seeds := if pre != [] && pre[0] == PageBreak(0, 1) then 1 else 0;
             forall i | 0 <= i < |pre| ::
               table[i] == PageBreak(if i < seeds then pre[i].offset else pre[i].offset - (i - seeds) * |m|,
                                     pre[i].page)
    ensures table == PageTable(text, m)
  {
    var seeds := |Seed(text, m)|;
    assert seeds == if pre != [] && pre[0] == PageBreak(0, 1) then 1 else 0;
    forall i | 0 <= i < |table| ensures table[i] == PageTable(text, m)[i] {
      if i >= seeds {
        assert pre[i] == PreEntries(Markers(text, m, 0))[i - seeds];
      }
    }
  }

  /** `preprocess` */
  method Preprocess(text: string, m: string := PAGE_BREAK_MARKER) returns (cleaned: string, table: seq<PageBreak>)
    requires m != []
    ensures cleaned == Excise(text, m, 0) && table == PageTable(text, m)
  {
    var pre := ExtractPageBreaks(text, m);
    table := TransformPageTable(pre, |m|);
    ShiftingGivesTheTable(text, m, pre, table);
    cleaned := Excise(text, m, 0);
  }

  // ------------------------------------------------------------------ the page of a position

  /** The shifted markers ascend. */
  lemma {:induction false} ShiftedAscend(text: string, m: string, i: nat, j: nat)
    requires m != [] && i <= j < |Markers(text, m, 0)|
    ensures Shifted(Markers(text, m, 0), |m|, i) <= Shifted(Markers(text, m, 0), |m|, j)
    decreases j
  {
    if i < j {
      MarkersApart(text, m, 0);
      ShiftedAscend(text, m, i, j - 1);
      OneMore(j - 1, |m|);
    }
  }

  lemma FirstMarker(text: string, m: string)
    requires m != []
    ensures m <= text <==> Markers(text, m, 0) != [] && Markers(text, m, 0)[0] == 0
  {
    assert m <= text <==> MarkerAt(text, m, 0);
    FindIsFirst(text, m, 0);
  }

  lemma OffsetsAscend(text: string, m: string, offsets: seq<int>)
    requires m != [] && |offsets| == |PageTable(text, m)|
    requires forall i | 0 <= i < |offsets| :: offsets[i] == PageTable(text, m)[i].offset
    ensures Ascending(offsets)
  {
    var markers, seeds := Markers(text, m, 0), |Seed(text, m)|;
    FirstMarker(text, m);
    forall i, j | 0 <= i < j < |offsets| ensures offsets[i] <= offsets[j] {
      if seeds <= i {
        ShiftedAscend(text, m, i - seeds, j - seeds);
      } else {
        ShiftedAscend(text, m, 0, j - seeds);
      }
    }
  }

  /** Of the markers from `pos` on, the first `k` are those that the shift puts at or before `c`, seen from `pos`. */
  ghost predicate CutAt(text: string, m: string, pos: nat, c: nat, k: nat)
    requires m != []
  {
    var ms := Markers(text, m, pos);
    && k <= |ms|
    && (forall i | 0 <= i < k :: ms[i] - pos - i * |m| <= c)
    && (forall i | k <= i < |ms| :: ms[i] - pos - i * |m| > c)
  }

  /** The markers the table counts for `c` are the ones that begin before the origin of `c`. */
  lemma {:induction false} CutMarkersPrecedeTheOrigin(text: string, m: string, pos: nat, c: nat, k: nat, i: nat)
    requires m != [] && pos <= |text| && CutAt(text, m, pos, c, k) && i < |Markers(text, m, pos)|
    ensures Markers(text, m, pos)[i] < Origin(text, m, pos, c) <==> i < k
    decreases |text| - pos
  {
    var at := Find(text, m, pos).value;
    var next := at + |m|;
    var ms := Markers(text, m, pos);
    if c < at - pos {
      BeforeTheFirstMarker(text, m, pos, c, k, i);
    } else {
      CutOfTheRest(text, m, pos, c, k);
      OriginStartsHere(text, m, next, c - (at - pos));
      assert ms == [at] + Markers(text, m, next);
      if i > 0 {
        CutMarkersPrecedeTheOrigin(text, m, next, c - (at - pos), k - 1, i - 1);
      }
    }
  }

  lemma BeforeTheFirstMarker(text: string, m: string, pos: nat, c: nat, k: nat, i: nat)
    requires m != [] && pos <= |text| && CutAt(text, m, pos, c, k) && i < |Markers(text, m, pos)|
    requires c < Find(text, m, pos).value - pos
    ensures k == 0 && Origin(text, m, pos, c) <= Markers(text, m, pos)[i]
  {
    var ms := Markers(text, m, pos);
    assert ms[0] - pos - 0 * |m| > c;
    if i > 0 {
      MarkersApart(text, m, Find(text, m, pos).value + |m|);
    }
  }

  lemma CutOfTheRest(text: string, m: string, pos: nat, c: nat, k: nat)
    requires m != [] && pos <= |text| && CutAt(text, m, pos, c, k)
    requires Find(text, m, pos).Some? && c >= Find(text, m, pos).value - pos
    ensures k > 0
    ensures var at := Find(text, m, pos).value; CutAt(text, m, at + |m|, c - (at - pos), k - 1)
  {
    var at := Find(text, m, pos).value;
    var ms, rest := Markers(text, m, pos), Markers(text, m, at + |m|);
    assert ms == [at] + rest;
    assert ms[0] - pos - 0 * |m| <= c;
    forall i | 0 <= i < |rest| ensures rest[i] - (at + |m|) - i * |m| <= c - (at - pos) <==> i < k - 1 {
      assert rest[i] == ms[i + 1];
      OneMore(i, |m|);
      assert ms[i + 1] - pos - (i + 1) * |m| <= c <==> i + 1 < k;
    }
  }

  lemma {:induction false} CutIsCount(markers: seq<nat>, o: nat, k: nat)
    requires k <= |markers| && forall i | 0 <= i < |markers| :: markers[i] < o <==> i < k
    ensures MarkersBefore(markers, o) == k
  {
    if markers != [] {
      CutIsCount(markers[..|markers| - 1], o, if k < |markers| then k else k - 1);
    }
  }

  /** The page of a position of the cleaned text: one more than the markers before its place in the text. */
  function PageOf(text: string, m: string, c: nat): nat
    requires m != []
  {
    1 + MarkersBefore(Markers(text, m, 0), Origin(text, m, 0, c))
  }

  /** The entry that bisection finds for a position names its page. */
  lemma BisectionFindsThePage(text: string, m: string, c: nat, k: nat)
    requires m != []
    requires var t := PageTable(text, m);
             k <= |t| && (forall i | 0 <= i < k :: t[i].offset <= c) && forall i | k <= i < |t| :: t[i].offset > c
    ensures k > 0 && PageTable(text, m)[k - 1].page == PageOf(text, m, c)
  {
    var t, markers, seeds := PageTable(text, m), Markers(text, m, 0), |Seed(text, m)|;
    FirstMarker(text, m);
    assert t[0].offset <= c;
    assert forall i | 0 <= i < |markers| :: t[i + seeds].offset == markers[i] - i * |m|;
    assert CutAt(text, m, 0, c, k - seeds);
    forall i | 0 <= i < |markers| ensures markers[i] < Origin(text, m, 0, c) <==> i < k - seeds {
      CutMarkersPrecedeTheOrigin(text, m, 0, c, k - seeds, i);
    }
    CutIsCount(markers, Origin(text, m, 0, c), k - seeds);
  }

  function Offsets(table: seq<PageBreak>): seq<int> {
    seq(|table|, i requires 0 <= i < |table| => table[i].offset)
  }

  /** The look-up: `max(0, bisect_right(offsets, c) - 1)`. */
  method LookUpPage(ghost text: string, m: string, table: seq<PageBreak>, c: nat) returns (page: nat)
    requires m != [] && table == PageTable(text, m)
    ensures page == PageOf(text, m, c)
  {
    OffsetsAscend(text, m, Offsets(table));
    var k := BisectRight(Offsets(table), c);
    assert forall i | 0 <= i < |table| :: Offsets(table)[i] == table[i].offset;
    BisectionFindsThePage(text, m, c, k);
    page := table[if k > 0 then k - 1 else 0].page;
  }

  /** The page branch of `enrich_chunk`: the first page, and the last one where it differs. */
  method EnrichPages(ghost text: string, m: string, table: seq<PageBreak>, start: nat, end: nat)
    returns (first: nat, last: Option<nat>)
    requires m != [] && table == PageTable(text, m)
    ensures first == PageOf(text, m, start)
    ensures last == if PageOf(text, m, end) == first then None else Some(PageOf(text, m, end))
  {
    first := LookUpPage(text, m, table, start);
    var final := LookUpPage(text, m, table, end);
    last := if final != first then Some(final) else None;
  }
}
