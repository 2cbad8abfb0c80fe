/** The deterministic truncation of an inspection view and the whole cross-collection inspection
    (archon_search/graph_inspector.py, the sort keys, `_truncate_graph`, `inspect_cross_collection`). */
module GraphTruncation {
  import opened Options
  import opened Sorting
  import opened Sums
  import opened GraphInspector
  import opened GraphMerge
  import Acl

  const SYNONYM_OF := "synonym_of"
  const RELATED_TO := "related_to"

  datatype Mode = Frequency | Tfidf | Importance

  // ------------------------------------------------------------------ the sort keys

  function Rank(n: NodeView): real {
    if n.pagerank.Some? then n.pagerank.value else 0.0
  }

  /** `_node_sort_key`: nulls last, best first, then by id. */
  predicate NodeLe(mode: Mode, a: NodeView, b: NodeView) {
    match mode
    case Importance =>
      if a.pagerank.None? != b.pagerank.None? then a.pagerank.Some?
      else if Rank(a) != Rank(b) then Rank(a) > Rank(b) else a.id <= b.id
    case Tfidf => if a.salience != b.salience then a.salience > b.salience else a.id <= b.id
    case Frequency => if a.count != b.count then a.count > b.count else a.id <= b.id
  }

  /** `_edge_sort_key`: heavy before light, typed before untyped, then by id. */
  predicate EdgeLe(a: EdgeView, b: EdgeView) {
    if a.weight != b.weight then a.weight > b.weight
    else if (a.rel == RELATED_TO) != (b.rel == RELATED_TO) then a.rel != RELATED_TO
    else a.id <= b.id
  }

  function NodeOrder(mode: Mode): (NodeView, NodeView) -> bool {
    (a: NodeView, b: NodeView) => NodeLe(mode, a, b)
  }

  function EdgeOrder(): (EdgeView, EdgeView) -> bool {
    (a: EdgeView, b: EdgeView) => EdgeLe(a, b)
  }

  // ------------------------------------------------------------------ what goes and what stays

  function Ids(nodes: seq<NodeView>): set<Id> {
    set n | n in nodes :: n.id
  }

  predicate Joins(e: EdgeView, ids: set<Id>) {
    e.source in ids && e.target in ids
  }

  function Synonyms(): EdgeView -> bool {
    (e: EdgeView) => e.rel == SYNONYM_OF
  }

  function Others(): EdgeView -> bool {
    (e: EdgeView) => e.rel != SYNONYM_OF
  }

  function Joining(ids: set<Id>): EdgeView -> bool {
    (e: EdgeView) => Joins(e, ids)
  }

  function OthersJoining(ids: set<Id>): EdgeView -> bool {
    (e: EdgeView) => e.rel != SYNONYM_OF && Joins(e, ids)
  }

  function WithIds(ids: set<Id>): NodeView -> bool {
    (n: NodeView) => n.id in ids
  }

  function Neither(): EdgeView -> bool {
    (e: EdgeView) => false
  }

  ghost predicate SynonymEndpoint(edges: seq<EdgeView>, id: Id) {
    exists e | e in edges :: e.rel == SYNONYM_OF && (e.source == id || e.target == id)
  }

  function Least(a: nat, b: nat): nat { if a <= b then a else b }

  lemma {:induction false} FilterOfConcat<T>(a: seq<T>, b: seq<T>, p: T -> bool)
    ensures Filter(a + b, p) == Filter(a, p) + Filter(b, p)
    decreases |b|
  {
    if b == [] {
      assert a + b == a;
    } else {
      var n := |b| - 1;
      assert (a + b)[..|a + b| - 1] == a + b[..n];
      FilterOfConcat(a, b[..n], p);
    }
  }

  lemma {:induction false} FilterAllOrNone<T>(s: seq<T>, p: T -> bool)
    ensures (forall x | x in s :: p(x)) ==> Filter(s, p) == s
    ensures (forall x | x in s :: !p(x)) ==> Filter(s, p) == []
  {
    if s != [] {
      FilterAllOrNone(s[..|s| - 1], p);
      assert s[|s| - 1] in s && s == s[..|s| - 1] + [s[|s| - 1]];
    }
  }

  lemma {:induction false} FilterTwice<T>(s: seq<T>, p: T -> bool, q: T -> bool, both: T -> bool)
    requires forall x | x in s :: both(x) <==> p(x) && q(x)
    ensures Filter(Filter(s, p), q) == Filter(s, both)
  {
    if s != [] {
      var x := s[|s| - 1];
      assert x in s;
      FilterTwice(s[..|s| - 1], p, q, both);
      FilterOfConcat(Filter(s[..|s| - 1], p), [x], q);
      assert Filter([x], q) == Filter([], q) + if q(x) then [x] else [];
      if !p(x) {
        assert Filter(s, p) == Filter(s[..|s| - 1], p);
      }
    }
  }

  lemma {:induction false} FilterCounts<T>(s: seq<T>, p: T -> bool)
    ensures forall x :: multiset(Filter(s, p))[x] == if p(x) then multiset(s)[x] else 0
  {
    if s != [] {
      FilterCounts(s[..|s| - 1], p);
      assert s == s[..|s| - 1] + [s[|s| - 1]];
    }
  }

  /** A selection of a sorted sequence is sorted. */
  lemma {:induction false} FilterOfSorted<T(!new)>(le: (T, T) -> bool, s: seq<T>, p: T -> bool)
    requires SortedBy(le, s)
    ensures SortedBy(le, Filter(s, p))
  {
    if s != [] {
      var rest, x := s[..|s| - 1], s[|s| - 1];
      FilterOfSorted(le, rest, p);
      FilterSelects(rest, p);
      assert forall y | y in Filter(rest, p) :: le(y, x);
    }
  }

  lemma SortedSplit<T>(le: (T, T) -> bool, s: seq<T>, k: nat, x: T, y: T)
    requires SortedBy(le, s) && k <= |s| && x in s[..k] && y in s[k..]
    ensures le(x, y)
  {
    var i :| 0 <= i < |s[..k]| && s[..k][i] == x;
    var j :| 0 <= j < |s[k..]| && s[k..][j] == y;
    assert s[i] == x && s[k + j] == y;
  }

  /** The loop over the synonym edges. */
  method SynonymEndpoints(synonyms: seq<EdgeView>, known: set<Id>) returns (ids: set<Id>)
    requires forall e | e in synonyms :: e.rel == SYNONYM_OF
    ensures forall id :: id in ids <==> id in known && SynonymEndpoint(synonyms, id)
  {
    ids := {};
    for i := 0 to |synonyms|
      invariant forall id :: id in ids <==> id in known && SynonymEndpoint(synonyms[..i], id)
    {
      var e := synonyms[i];
      assert synonyms[..i + 1] == synonyms[..i] + [e];
      if e.source in known {
        ids := ids + {e.source};
      }
      if e.target in known {
        ids := ids + {e.target};
      }
    }
    assert synonyms[..|synonyms|] == synonyms;
  }

  // ------------------------------------------------------------------ the result

  /** The node half: the best `maxNodes` and, behind them, exactly the other synonym endpoints. */
  ghost predicate NodesTruncated(nodes: seq<NodeView>, edges: seq<EdgeView>, maxNodes: nat, mode: Mode,
                                 out: seq<NodeView>) {
    var kept := Least(maxNodes, |nodes|);
    && multiset(out) <= multiset(nodes) && SortedBy(NodeOrder(mode), out)
    && kept <= |out|
    && (forall n | n in out[kept..] :: SynonymEndpoint(edges, n.id))
    && (forall n | n in nodes && n !in out ::
          |nodes| > maxNodes && !SynonymEndpoint(edges, n.id) && forall m | m in out[..kept] :: NodeLe(mode, m, n))
  }

  /** The edge half: only edges between returned nodes, all such synonym edges, and the best `maxEdges` others. */
  ghost predicate EdgesTruncated(edges: seq<EdgeView>, ids: set<Id>, maxEdges: nat, out: seq<EdgeView>) {
    var others := Filter(out, Others());
    && multiset(out) <= multiset(edges) && (forall e | e in out :: Joins(e, ids))
    && Filter(out, Synonyms()) == Filter(Filter(edges, Synonyms()), Joining(ids))
    && SortedBy(EdgeOrder(), others)
    && |others| == Least(maxEdges, |Filter(edges, OthersJoining(ids))|)
    && (forall e | e in edges && e !in out && Joins(e, ids) ::
        e.rel != SYNONYM_OF && forall o | o in others :: EdgeLe(o, e))
  }

  method TruncateNodes(nodes: seq<NodeView>, edges: seq<EdgeView>, maxNodes: nat, mode: Mode)
    returns (out: seq<NodeView>)
    ensures NodesTruncated(nodes, edges, maxNodes, mode, out)
  {
    var sorted := Sort(NodeOrder(mode), nodes);
    SortKeeps(NodeOrder(mode), nodes);
    SortSorts(NodeOrder(mode), nodes);
    var synonyms := Filter(edges, Synonyms());
    FilterSelects(edges, Synonyms());
    var endpoints := SynonymEndpoints(synonyms, Ids(sorted));
    var kept := Least(maxNodes, |sorted|);
    var rest := Filter(sorted[kept..], WithIds(endpoints));
    out := sorted[..kept] + rest;
    TopAndEndpoints(nodes, edges, maxNodes, mode, sorted, endpoints);
  }

  lemma TopAndEndpoints(nodes: seq<NodeView>, edges: seq<EdgeView>, maxNodes: nat, mode: Mode, sorted: seq<NodeView>,
                        endpoints: set<Id>)
    requires multiset(sorted) == multiset(nodes) && |sorted| == |nodes| && SortedBy(NodeOrder(mode), sorted)
    requires forall id :: id in endpoints <==> id in Ids(sorted) && SynonymEndpoint(edges, id)
    ensures var kept := Least(maxNodes, |sorted|);
            NodesTruncated(nodes, edges, maxNodes, mode, sorted[..kept] + Filter(sorted[kept..], WithIds(endpoints)))
  {
    var kept := Least(maxNodes, |sorted|);
    var top, tail := sorted[..kept], sorted[kept..];
    var rest := Filter(tail, WithIds(endpoints));
    var out := top + rest;
    assert sorted == top + tail;
    FilterSelects(tail, WithIds(endpoints));
    SortedTopAndRest(NodeOrder(mode), sorted, kept, WithIds(endpoints));
    assert out[kept..] == rest && out[..kept] == top;
    forall n | n in nodes && n !in out
      ensures |nodes| > maxNodes && !SynonymEndpoint(edges, n.id) && forall m | m in top :: NodeLe(mode, m, n)
    {
      SameElements(sorted, nodes);
      assert n in tail;
      assert n.id in Ids(sorted);
      forall m | m in top ensures NodeLe(mode, m, n) {
        SortedSplit(NodeOrder(mode), sorted, kept, m, n);
      }
    }
  }

  lemma SortedConcat<T>(le: (T, T) -> bool, a: seq<T>, b: seq<T>)
    requires SortedBy(le, a) && SortedBy(le, b) && forall x, y | x in a && y in b :: le(x, y)
    ensures SortedBy(le, a + b)
  {
  }

  /** A sorted head with a selection of the tail is sorted, and holds nothing new. */
  lemma SortedTopAndRest<T(!new)>(le: (T, T) -> bool, sorted: seq<T>, kept: nat, p: T -> bool)
    requires SortedBy(le, sorted) && kept <= |sorted|
    ensures SortedBy(le, sorted[..kept] + Filter(sorted[kept..], p))
    ensures multiset(sorted[..kept] + Filter(sorted[kept..], p)) <= multiset(sorted)
  {
    var top, tail := sorted[..kept], sorted[kept..];
    assert sorted == top + tail;
    FilterOfSorted(le, tail, p);
    FilterIsPart(tail, p);
    FilterSelects(tail, p);
    forall x, y | x in top && y in Filter(tail, p) ensures le(x, y) {
      SortedSplit(le, sorted, kept, x, y);
    }
    SortedConcat(le, top, Filter(tail, p));
  }

  method TruncateEdges(edges: seq<EdgeView>, ids: set<Id>, maxEdges: nat) returns (out: seq<EdgeView>, truncated: bool)
    ensures EdgesTruncated(edges, ids, maxEdges, out)
    ensures truncated <==> |Filter(edges, OthersJoining(ids))| > maxEdges
  {
    var others := Filter(Filter(edges, Others()), Joining(ids));
    FilterTwice(edges, Others(), Joining(ids), OthersJoining(ids));
    var sorted := Sort(EdgeOrder(), others);
    SortKeeps(EdgeOrder(), others);
    SortSorts(EdgeOrder(), others);
    var capped := sorted[..Least(maxEdges, |sorted|)];
    truncated := |sorted| > maxEdges;
    var synonyms := Filter(Filter(edges, Synonyms()), Joining(ids));
    out := capped + synonyms;
    CappedAndSynonyms(edges, ids, maxEdges, sorted, synonyms);
  }

  lemma SplitsBack(capped: seq<EdgeView>, synonyms: seq<EdgeView>)
    requires (forall e | e in capped :: e.rel != SYNONYM_OF) && forall e | e in synonyms :: e.rel == SYNONYM_OF
    ensures Filter(capped + synonyms, Others()) == capped && Filter(capped + synonyms, Synonyms()) == synonyms
  {
    FilterOfConcat(capped, synonyms, Others());
    FilterOfConcat(capped, synonyms, Synonyms());
    FilterAllOrNone(capped, Others());
    FilterAllOrNone(capped, Synonyms());
    FilterAllOrNone(synonyms, Others());
    FilterAllOrNone(synonyms, Synonyms());
  }

  lemma EdgeLists(edges: seq<EdgeView>, ids: set<Id>, sorted: seq<EdgeView>, synonyms: seq<EdgeView>)
    requires multiset(sorted) == multiset(Filter(edges, OthersJoining(ids)))
    requires synonyms == Filter(Filter(edges, Synonyms()), Joining(ids))
    ensures forall e :: e in sorted <==> e in edges && e.rel != SYNONYM_OF && Joins(e, ids)
    ensures forall e :: e in synonyms <==> e in edges && e.rel == SYNONYM_OF && Joins(e, ids)
  {
    FilterSelects(edges, OthersJoining(ids));
    FilterSelects(edges, Synonyms());
    FilterSelects(Filter(edges, Synonyms()), Joining(ids));
    SameElements(sorted, Filter(edges, OthersJoining(ids)));
  }

  lemma DisjointParts<T>(a: seq<T>, b: seq<T>, all: seq<T>)
    requires multiset(a) <= multiset(all) && multiset(b) <= multiset(all)
    requires forall x | x in a :: x !in b
    ensures multiset(a + b) <= multiset(all)
  {
    forall x ensures multiset(a + b)[x] <= multiset(all)[x] {
      assert multiset(a + b)[x] == multiset(a)[x] + multiset(b)[x];
      assert x in multiset(a) ==> x in a;
    }
  }

  lemma FilterIsPart<T>(s: seq<T>, p: T -> bool)
    ensures multiset(Filter(s, p)) <= multiset(s)
  {
    FilterCounts(s, p);
  }

  lemma PrefixIsPart<T>(s: seq<T>, k: nat)
    requires k <= |s|
    ensures multiset(s[..k]) <= multiset(s)
  {
    assert s == s[..k] + s[k..];
  }

  lemma NothingAdded(edges: seq<EdgeView>, ids: set<Id>, sorted: seq<EdgeView>, k: nat, synonyms: seq<EdgeView>)
    requires multiset(sorted) == multiset(Filter(edges, OthersJoining(ids))) && k <= |sorted|
    requires synonyms == Filter(Filter(edges, Synonyms()), Joining(ids))
    requires (forall e | e in sorted :: e.rel != SYNONYM_OF) && forall e | e in synonyms :: e.rel == SYNONYM_OF
    ensures multiset(sorted[..k] + synonyms) <= multiset(edges)
  {
    PrefixIsPart(sorted, k);
    FilterIsPart(edges, OthersJoining(ids));
    FilterIsPart(edges, Synonyms());
    FilterIsPart(Filter(edges, Synonyms()), Joining(ids));
    DisjointParts(sorted[..k], synonyms, edges);
  }

  lemma CountOf(edges: seq<EdgeView>, ids: set<Id>, e: EdgeView)
    ensures multiset(Filter(edges, OthersJoining(ids)))[e] ==
              if e.rel != SYNONYM_OF && Joins(e, ids) then multiset(edges)[e] else 0
    ensures multiset(Filter(Filter(edges, Synonyms()), Joining(ids)))[e] ==
              if e.rel == SYNONYM_OF && Joins(e, ids) then multiset(edges)[e] else 0
  {
    FilterCounts(edges, OthersJoining(ids));
    FilterCounts(edges, Synonyms());
    FilterCounts(Filter(edges, Synonyms()), Joining(ids));
  }

  lemma CappedAndSynonyms(edges: seq<EdgeView>, ids: set<Id>, maxEdges: nat, sorted: seq<EdgeView>,
                          synonyms: seq<EdgeView>)
    requires multiset(sorted) == multiset(Filter(edges, OthersJoining(ids))) && SortedBy(EdgeOrder(), sorted)
    requires synonyms == Filter(Filter(edges, Synonyms()), Joining(ids))
    ensures EdgesTruncated(edges, ids, maxEdges, sorted[..Least(maxEdges, |sorted|)] + synonyms)
  {
    var k := Least(maxEdges, |sorted|);
    EdgeLists(edges, ids, sorted, synonyms);
    NothingAdded(edges, ids, sorted, k, synonyms);
    assert |sorted| == |Filter(edges, OthersJoining(ids))| by {
      assert |multiset(sorted)| == |sorted|;
    }
    SplitsBack(sorted[..k], synonyms);
  }

  /** `_truncate_graph` */
  method TruncateGraph(nodes: seq<NodeView>, edges: seq<EdgeView>, maxNodes: nat, maxEdges: nat, mode: Mode)
    returns (nodesOut: seq<NodeView>, edgesOut: seq<EdgeView>, truncated: bool)
    ensures NodesTruncated(nodes, edges, maxNodes, mode, nodesOut)
    ensures EdgesTruncated(edges, Ids(nodesOut), maxEdges, edgesOut)
    ensures truncated <==> |nodes| > maxNodes || |Filter(edges, OthersJoining(Ids(nodesOut)))| > maxEdges
  {
    nodesOut := TruncateNodes(nodes, edges, maxNodes, mode);
    var edgesCut: bool;
    edgesOut, edgesCut := TruncateEdges(edges, Ids(nodesOut), maxEdges);
    truncated := |nodes| > maxNodes || edgesCut;
  }

  /** Whatever the caps: no returned edge dangles, and no synonym edge between known nodes is lost. */
  lemma SynonymEdgesSurvive(nodes: seq<NodeView>, edges: seq<EdgeView>, maxNodes: nat, maxEdges: nat, mode: Mode,
                            nodesOut: seq<NodeView>, edgesOut: seq<EdgeView>, e: EdgeView)
    requires NodesTruncated(nodes, edges, maxNodes, mode, nodesOut)
    requires EdgesTruncated(edges, Ids(nodesOut), maxEdges, edgesOut)
    ensures e in edgesOut ==> Joins(e, Ids(nodesOut))
    ensures e in edges && e.rel == SYNONYM_OF ==> (e in edgesOut <==> Joins(e, Ids(nodes)))
  {
    forall id | id in Ids(nodesOut) ensures id in Ids(nodes) {
      var n :| n in nodesOut && n.id == id;
      assert n in multiset(nodesOut) && n in nodes;
    }
    if e in edges && e.rel == SYNONYM_OF && Joins(e, Ids(nodes)) {
      var s :| s in nodes && s.id == e.source;
      var t :| t in nodes && t.id == e.target;
      assert SynonymEndpoint(edges, s.id) && SynonymEndpoint(edges, t.id);
      assert s in nodesOut && t in nodesOut;
    }
  }

  // ------------------------------------------------------------------ what the best are

  /** More mentions, or a higher score, or a known and higher rank, as the mode says; equals by id. */
  predicate NodeNoWorse(mode: Mode, a: NodeView, b: NodeView) {
    && (mode == Frequency ==> a.count >= b.count && (a.count == b.count ==> a.id <= b.id))
    && (mode == Tfidf ==> a.salience >= b.salience && (a.salience == b.salience ==> a.id <= b.id))
    && (mode == Importance ==>
          && (b.pagerank.Some? ==> a.pagerank.Some? && a.pagerank.value >= b.pagerank.value)
          && (a.pagerank == b.pagerank ==> a.id <= b.id))
  }

  /** Heavier; of equal weight one with a type of its own before a mere co-occurrence; then by id. */
  predicate EdgeNoWorse(a: EdgeView, b: EdgeView) {
    && a.weight >= b.weight
    && (a.weight == b.weight && a.rel == "related_to" ==> b.rel == "related_to")
    && (a.weight == b.weight && (a.rel == "related_to" <==> b.rel == "related_to") ==> a.id <= b.id)
  }

  lemma OrdersSayWhatIsBest(mode: Mode, a: NodeView, b: NodeView, e: EdgeView, f: EdgeView)
    ensures NodeLe(mode, a, b) <==> NodeNoWorse(mode, a, b)
    ensures EdgeLe(e, f) <==> EdgeNoWorse(e, f)
  {
  }

  /** The answer lists the best nodes first, and none that is left out is better than one of the first `maxNodes`; so do
      the edges that are no synonyms. */
  lemma TheBestComeFirst(nodes: seq<NodeView>, edges: seq<EdgeView>, maxNodes: nat, maxEdges: nat, mode: Mode,
                         nodesOut: seq<NodeView>, edgesOut: seq<EdgeView>)
    requires NodesTruncated(nodes, edges, maxNodes, mode, nodesOut)
    requires EdgesTruncated(edges, Ids(nodesOut), maxEdges, edgesOut)
    ensures forall i, j | 0 <= i < j < |nodesOut| :: NodeNoWorse(mode, nodesOut[i], nodesOut[j])
    ensures forall n, i | n in nodes && n !in nodesOut && 0 <= i < Least(maxNodes, |nodes|) ::
              NodeNoWorse(mode, nodesOut[i], n)
    ensures var others := Filter(edgesOut, Others());
            && (forall i, j | 0 <= i < j < |others| :: EdgeNoWorse(others[i], others[j]))
            && (forall e, o | e in edges && e !in edgesOut && o in others && Joins(e, Ids(nodesOut)) ::
                  EdgeNoWorse(o, e))
  {
    var others := Filter(edgesOut, Others());
    forall i, j | 0 <= i < j < |nodesOut| ensures NodeNoWorse(mode, nodesOut[i], nodesOut[j]) {
      assert NodeOrder(mode)(nodesOut[i], nodesOut[j]);
    }
    forall n, i | n in nodes && n !in nodesOut && 0 <= i < Least(maxNodes, |nodes|)
      ensures NodeNoWorse(mode, nodesOut[i], n)
    {
      assert nodesOut[i] in nodesOut[..Least(maxNodes, |nodes|)];
      assert NodeLe(mode, nodesOut[i], n);
    }
    forall i, j | 0 <= i < j < |others| ensures EdgeNoWorse(others[i], others[j]) {
      assert EdgeOrder()(others[i], others[j]);
    }
  }

  // ------------------------------------------------------------------ one result for one content

  /** The least `kept` of `all` and, behind them, exactly the others that `also` keeps. */
  ghost predicate Best<T>(le: (T, T) -> bool, all: seq<T>, kept: nat, also: T -> bool, out: seq<T>) {
    && Distinct(out) && SortedBy(le, out) && kept <= |out|
    && (forall x | x in out :: x in all)
    && (forall x | x in out[kept..] :: also(x))
    && (forall x | x in all && x !in out :: !also(x) && forall y | y in out[..kept] :: le(y, x))
  }

  lemma SomeOutsider<T>(a: set<T>, b: set<T>, x: T)
    requires |a| == |b| && x in a && x !in b
    ensures exists m | m in b :: m !in a
  {
    if b <= a {
      SubsetsAreSmaller(b, a - {x});
    }
  }

  /** Where only one of two best sequences holds an element, it ties with another. */
  lemma OutsidersTie<T>(le: (T, T) -> bool, all: seq<T>, others: seq<T>, kept: nat, also: T -> bool, a: seq<T>,
                        b: seq<T>, x: T)
    requires Best(le, all, kept, also, a) && Best(le, others, kept, also, b)
    requires forall y :: y in all <==> y in others
    requires x in a && x !in b
    ensures exists m | m in all :: m != x && le(m, x) && le(x, m)
  {
    assert a == a[..kept] + a[kept..] && b == b[..kept] + b[kept..];
    assert x in a[..kept];
    DistinctCount(a[..kept]);
    DistinctCount(b[..kept]);
    SomeOutsider(Members(a[..kept]), Members(b[..kept]), x);
    var m :| m in b[..kept] && m !in a[..kept];
    assert m in b && le(m, x);
    if m in a {
      SortedSplit(le, a, kept, x, m);
    }
  }

  /** What is best is one sequence, in whatever order the elements are listed. */
  lemma BestIsUnique<T(!new)>(le: (T, T) -> bool, all: seq<T>, others: seq<T>, kept: nat, also: T -> bool, a: seq<T>,
                              b: seq<T>)
    requires Best(le, all, kept, also, a) && Best(le, others, kept, also, b)
    requires (forall y :: y in all <==> y in others) && Antisymmetric(le, all)
    ensures a == b
  {
    forall x ensures x in a <==> x in b {
      if x in a && x !in b {
        OutsidersTie(le, all, others, kept, also, a, b, x);
      }
      if x in b && x !in a {
        OutsidersTie(le, others, all, kept, also, b, a, x);
      }
    }
    SameDistinct(a, b);
    SortedUnique(le, a, b);
  }

  /** A node without the rank of a mode that does not sort by rank. */
  function Bare(mode: Mode, n: NodeView): NodeView {
    if mode == Importance then n else n.(pagerank := None)
  }

  function Bares(mode: Mode, nodes: seq<NodeView>): seq<NodeView> {
    seq(|nodes|, i requires 0 <= i < |nodes| => Bare(mode, nodes[i]))
  }

  ghost predicate DistinctIds(nodes: seq<NodeView>) {
    forall i, j | 0 <= i < j < |nodes| :: nodes[i].id != nodes[j].id
  }

  ghost function Endpoints(edges: seq<EdgeView>): NodeView -> bool {
    (n: NodeView) => SynonymEndpoint(edges, n.id)
  }

  lemma PartsHaveDistinctIds(nodes: seq<NodeView>, out: seq<NodeView>)
    requires DistinctIds(nodes) && multiset(out) <= multiset(nodes)
    ensures DistinctIds(out)
  {
    DistinctIsCounted(nodes);
    DistinctIsCounted(out);
    forall i, j | 0 <= i < j < |out| ensures out[i].id != out[j].id {
      assert out[i] in multiset(out) && out[j] in multiset(out);
      assert out[i] in nodes && out[j] in nodes;
    }
  }

  lemma BareMembers(mode: Mode, nodes: seq<NodeView>, out: seq<NodeView>)
    requires multiset(out) <= multiset(nodes)
    ensures forall x | x in Bares(mode, out) :: x in Bares(mode, nodes)
  {
    forall x | x in Bares(mode, out) ensures x in Bares(mode, nodes) {
      var i :| 0 <= i < |out| && Bare(mode, out[i]) == x;
      assert out[i] in multiset(out) && out[i] in nodes;
      var k :| 0 <= k < |nodes| && nodes[k] == out[i];
      assert Bares(mode, nodes)[k] == x;
    }
  }

  lemma BaresStaySorted(mode: Mode, out: seq<NodeView>)
    requires DistinctIds(out) && SortedBy(NodeOrder(mode), out)
    ensures Distinct(Bares(mode, out)) && SortedBy(NodeOrder(mode), Bares(mode, out))
  {
    forall i, j | 0 <= i < j < |out| ensures NodeLe(mode, Bare(mode, out[i]), Bare(mode, out[j])) {
      assert NodeOrder(mode)(out[i], out[j]);
    }
  }

  lemma BehindAreEndpoints(edges: seq<EdgeView>, mode: Mode, out: seq<NodeView>, kept: nat)
    requires kept <= |out| && forall n | n in out[kept..] :: SynonymEndpoint(edges, n.id)
    ensures forall x | x in Bares(mode, out)[kept..] :: Endpoints(edges)(x)
  {
    forall x | x in Bares(mode, out)[kept..] ensures Endpoints(edges)(x) {
      var i :| 0 <= i < |out[kept..]| && Bare(mode, out[kept..][i]) == x;
    }
  }

  lemma BareNodesAreBest(nodes: seq<NodeView>, edges: seq<EdgeView>, maxNodes: nat, mode: Mode, out: seq<NodeView>)
    requires NodesTruncated(nodes, edges, maxNodes, mode, out) && DistinctIds(nodes)
    ensures Best(NodeOrder(mode), Bares(mode, nodes), Least(maxNodes, |nodes|), Endpoints(edges), Bares(mode, out))
  {
    var kept := Least(maxNodes, |nodes|);
    PartsHaveDistinctIds(nodes, out);
    BaresStaySorted(mode, out);
    BareMembers(mode, nodes, out);
    BehindAreEndpoints(edges, mode, out, kept);
    forall x | x in Bares(mode, nodes) && x !in Bares(mode, out)
      ensures !Endpoints(edges)(x) && forall y | y in Bares(mode, out)[..kept] :: NodeOrder(mode)(y, x)
    {
      MissingBare(nodes, edges, maxNodes, mode, out, x);
    }
  }

  lemma MissingBare(nodes: seq<NodeView>, edges: seq<EdgeView>, maxNodes: nat, mode: Mode, out: seq<NodeView>,
                    x: NodeView)
    requires NodesTruncated(nodes, edges, maxNodes, mode, out) && x in Bares(mode, nodes) && x !in Bares(mode, out)
    ensures !SynonymEndpoint(edges, x.id)
    ensures forall y | y in Bares(mode, out)[..Least(maxNodes, |nodes|)] :: NodeLe(mode, y, x)
  {
    var k :| 0 <= k < |nodes| && Bare(mode, nodes[k]) == x;
    MissingNode(nodes, edges, maxNodes, mode, out, nodes[k]);
  }

  lemma MissingNode(nodes: seq<NodeView>, edges: seq<EdgeView>, maxNodes: nat, mode: Mode, out: seq<NodeView>,
                    n: NodeView)
    requires NodesTruncated(nodes, edges, maxNodes, mode, out) && n in nodes && Bare(mode, n) !in Bares(mode, out)
    ensures !SynonymEndpoint(edges, n.id)
    ensures forall y | y in Bares(mode, out)[..Least(maxNodes, |nodes|)] :: NodeLe(mode, y, Bare(mode, n))
  {
    var kept := Least(maxNodes, |nodes|);
    forall i | 0 <= i < |out| ensures out[i] != n {
      assert Bares(mode, out)[i] == Bare(mode, out[i]);
    }
    forall y | y in Bares(mode, out)[..kept] ensures NodeLe(mode, y, Bare(mode, n)) {
      var i :| 0 <= i < kept && Bares(mode, out)[i] == y;
      assert out[..kept][i] == out[i] && out[i] in out[..kept];
      assert NodeLe(mode, out[i], n);
    }
  }

  lemma BareNodesDoNotTie(mode: Mode, nodes: seq<NodeView>)
    requires DistinctIds(nodes)
    ensures Antisymmetric(NodeOrder(mode), Bares(mode, nodes))
  {
    assert forall i | 0 <= i < |nodes| :: Bares(mode, nodes)[i].id == nodes[i].id;
  }

  lemma SameEndpoints(nodes: seq<NodeView>, edges: seq<EdgeView>, otherEdges: seq<EdgeView>, maxNodes: nat, mode: Mode,
                      out: seq<NodeView>)
    requires NodesTruncated(nodes, otherEdges, maxNodes, mode, out)
    requires forall e :: e in edges <==> e in otherEdges
    ensures NodesTruncated(nodes, edges, maxNodes, mode, out)
  {
    assert forall id :: SynonymEndpoint(edges, id) <==> SynonymEndpoint(otherEdges, id);
  }

  /** Node lists of the same content are cut to the same nodes in the same order. */
  lemma NodesAreCutAlike(nodes: seq<NodeView>, others: seq<NodeView>, edges: seq<EdgeView>, otherEdges: seq<EdgeView>,
                         maxNodes: nat, mode: Mode, out: seq<NodeView>, otherOut: seq<NodeView>)
    requires NodesTruncated(nodes, edges, maxNodes, mode, out)
    requires NodesTruncated(others, otherEdges, maxNodes, mode, otherOut)
    requires DistinctIds(nodes) && DistinctIds(others) && |nodes| == |others|
    requires forall n :: n in Bares(mode, nodes) <==> n in Bares(mode, others)
    requires forall e :: e in edges <==> e in otherEdges
    ensures Bares(mode, out) == Bares(mode, otherOut)
  {
    SameEndpoints(others, edges, otherEdges, maxNodes, mode, otherOut);
    BareNodesAreBest(nodes, edges, maxNodes, mode, out);
    BareNodesAreBest(others, edges, maxNodes, mode, otherOut);
    BareNodesDoNotTie(mode, nodes);
    BestIsUnique(NodeOrder(mode), Bares(mode, nodes), Bares(mode, others), Least(maxNodes, |nodes|), Endpoints(edges),
                 Bares(mode, out), Bares(mode, otherOut));
  }

  lemma OtherEdgesAreBest(edges: seq<EdgeView>, ids: set<Id>, maxEdges: nat, out: seq<EdgeView>)
    requires EdgesTruncated(edges, ids, maxEdges, out) && Distinct(edges)
    ensures Best(EdgeOrder(), Filter(edges, OthersJoining(ids)), Least(maxEdges, |Filter(edges, OthersJoining(ids))|),
                 Neither(), Filter(out, Others()))
  {
    FilterSelects(edges, OthersJoining(ids));
    FilterSelects(out, Others());
    FilterCounts(out, Others());
    DistinctIsCounted(edges);
    DistinctIsCounted(Filter(out, Others()));
    forall e | e in out ensures e in edges {
      assert e in multiset(out);
    }
  }

  ghost predicate DistinctEdgeIds(edges: seq<EdgeView>) {
    forall i, j | 0 <= i < j < |edges| :: edges[i].id != edges[j].id
  }

  lemma SelectionsAreAlike(edges: seq<EdgeView>, others: seq<EdgeView>, ids: set<Id>)
    requires multiset(edges) == multiset(others)
    ensures multiset(Filter(edges, OthersJoining(ids))) == multiset(Filter(others, OthersJoining(ids)))
    ensures |Filter(edges, OthersJoining(ids))| == |Filter(others, OthersJoining(ids))|
    ensures multiset(Filter(Filter(edges, Synonyms()), Joining(ids)))
              == multiset(Filter(Filter(others, Synonyms()), Joining(ids)))
  {
    forall e ensures multiset(Filter(edges, OthersJoining(ids)))[e] == multiset(Filter(others, OthersJoining(ids)))[e]
             ensures multiset(Filter(Filter(edges, Synonyms()), Joining(ids)))[e]
                       == multiset(Filter(Filter(others, Synonyms()), Joining(ids)))[e]
    {
      CountOf(edges, ids, e);
      CountOf(others, ids, e);
    }
    var rest, otherRest := Filter(edges, OthersJoining(ids)), Filter(others, OthersJoining(ids));
    assert multiset(rest) == multiset(otherRest);
    assert |rest| == |multiset(rest)| && |otherRest| == |multiset(otherRest)|;
  }

  lemma EdgesDoNotTie(edges: seq<EdgeView>, p: EdgeView -> bool)
    requires DistinctEdgeIds(edges)
    ensures Antisymmetric(EdgeOrder(), Filter(edges, p))
  {
    FilterSelects(edges, p);
  }

  /** Edge lists of the same content are cut to the same other edges in the same order, and the same synonym edges. */
  lemma EdgesAreCutAlike(edges: seq<EdgeView>, others: seq<EdgeView>, ids: set<Id>, maxEdges: nat, out: seq<EdgeView>,
                         otherOut: seq<EdgeView>)
    requires EdgesTruncated(edges, ids, maxEdges, out) && EdgesTruncated(others, ids, maxEdges, otherOut)
    requires DistinctEdgeIds(edges) && multiset(edges) == multiset(others)
    ensures Filter(out, Others()) == Filter(otherOut, Others())
    ensures multiset(Filter(out, Synonyms())) == multiset(Filter(otherOut, Synonyms()))
    ensures |Filter(edges, OthersJoining(ids))| == |Filter(others, OthersJoining(ids))|
  {
    var rest, otherRest := Filter(edges, OthersJoining(ids)), Filter(others, OthersJoining(ids));
    PermutationsKeepDistinctness(edges, others);
    SelectionsAreAlike(edges, others, ids);
    SameElements(rest, otherRest);
    OtherEdgesAreBest(edges, ids, maxEdges, out);
    OtherEdgesAreBest(others, ids, maxEdges, otherOut);
    EdgesDoNotTie(edges, OthersJoining(ids));
    BestIsUnique(EdgeOrder(), rest, otherRest, Least(maxEdges, |rest|), Neither(), Filter(out, Others()),
                 Filter(otherOut, Others()));
  }

  // ------------------------------------------------------------------ the whole inspection

  /** `_MENTIONS_SCAN_CEILING` */
  const MENTIONS_SCAN_CEILING := 500_000

  /** The scanned rows of one collection and what the caller may see of its chunks. */
  datatype Collection = Collection(nodes: seq<Node>, edges: seq<Edge>, mentions: seq<Mention>, total: nat,
                                   visibility: Acl.Visibility)

  ghost function VisibleChunks(c: Collection, id: Id): set<string> {
    set m | m in c.mentions && m.entity == id && Acl.ChunkVisible(c.visibility, m.chunk) :: m.chunk
  }

  /** A collection after the ACL. */
  ghost function PartOf(c: Collection): Part {
    Part(Filter(c.nodes, NodeTest(c.mentions, c.visibility)),
         Filter(c.edges, EdgeTest(c.nodes, c.mentions, c.visibility)),
         map m | m in c.mentions && Acl.ChunkVisible(c.visibility, m.chunk) :: m.entity := VisibleChunks(c, m.entity),
         c.total)
  }

  ghost function PartsOf(collections: seq<Collection>): seq<Part> {
    FlatMap(collections, (c: Collection) => [PartOf(c)])
  }

  /** `_apply_tfidf`, with the floored logarithm as `idf`. */
  function Scored(mode: Mode, idf: Id -> real, n: NodeView): NodeView {
    if mode == Tfidf then n.(salience := n.salience * idf(n.id)) else n
  }

  /** A chunk the caller may see, in which a collection mentions both ends of the edge. */
  ghost predicate SeenIn(collections: seq<Collection>, id: Id, chunk: string) {
    exists c, e | c in collections && e in c.edges ::
      && e.id == id && Mention(e.source, chunk) in c.mentions && Mention(e.target, chunk) in c.mentions
      && Acl.ChunkVisible(c.visibility, chunk)
  }

  lemma ChunkIsSeen(collections: seq<Collection>, p: Part, e: Edge, chunk: string)
    requires p in PartsOf(collections) && e in p.edges
    requires chunk in ItemsAt(p.chunks, e.source) * ItemsAt(p.chunks, e.target)
    ensures SeenIn(collections, e.id, chunk)
  {
    var c := PartsComeFromCollections(collections, p);
    FilterSelects(c.edges, EdgeTest(c.nodes, c.mentions, c.visibility));
    assert chunk in VisibleChunks(c, e.source) && chunk in VisibleChunks(c, e.target);
  }

  lemma ChunksAreSeen(collections: seq<Collection>, edges: Table<EdgeView>, id: Id)
    requires EdgesMerged(AllEdgeItems(PartsOf(collections)), edges) && id in edges.rows
    ensures |edges.rows[id].chunks| <= MAX_SOURCE_CHUNK_IDS
    ensures forall chunk | chunk in edges.rows[id].chunks :: SeenIn(collections, id, chunk)
  {
    var parts := PartsOf(collections);
    MergedChunksAreVisible(parts, edges, id);
    forall chunk | chunk in edges.rows[id].chunks ensures SeenIn(collections, id, chunk) {
      assert MetIn(parts, id, chunk);
      var i, e :| 0 <= i < |parts| && e in parts[i].edges && e.id == id
          && chunk in ItemsAt(parts[i].chunks, e.source) * ItemsAt(parts[i].chunks, e.target);
      ChunkIsSeen(collections, parts[i], e, chunk);
    }
  }

  lemma LoadedIsThePart(c: Collection, p: Part)
    requires p.total == c.total && Describes(p.chunks, c.mentions, c.visibility, false)
    requires forall id :: id in p.chunks <==> ItemsAt(p.chunks, id) != {}
    requires p.nodes == PartOf(c).nodes && p.edges == PartOf(c).edges
    ensures p == PartOf(c)
  {
    var chunks := PartOf(c).chunks;
    forall id ensures ItemsAt(p.chunks, id) == VisibleChunks(c, id) {
      forall chunk ensures chunk in ItemsAt(p.chunks, id) <==> chunk in VisibleChunks(c, id) {
        if chunk in ItemsAt(p.chunks, id) {
          assert Mention(id, chunk) in c.mentions;
        }
      }
    }
    forall id ensures id in p.chunks <==> id in chunks {
      if id in p.chunks {
        var chunk :| chunk in VisibleChunks(c, id);
      }
      if id in chunks {
        var m :| m in c.mentions && Acl.ChunkVisible(c.visibility, m.chunk) && m.entity == id;
        assert m.chunk in VisibleChunks(c, id);
      }
    }
    assert p.chunks == chunks;
  }

  ghost predicate CeilingHit(collections: seq<Collection>) {
    exists c | c in collections :: |c.mentions| >= MENTIONS_SCAN_CEILING
  }

  method LoadAll(collections: seq<Collection>) returns (parts: seq<Part>, ceilingHit: bool)
    ensures parts == PartsOf(collections)
    ensures ceilingHit <==> CeilingHit(collections)
  {
    parts, ceilingHit := [], false;
    for k := 0 to |collections|
      invariant parts == PartsOf(collections[..k])
      invariant ceilingHit <==> CeilingHit(collections[..k])
    {
      var c := collections[k];
      assert collections[..k + 1] == collections[..k] + [c] && collections[..k + 1][..k] == collections[..k];
      var p := LoadAclVisibleGraph(c.nodes, c.edges, c.mentions, c.total, c.visibility);
      LoadedIsThePart(c, p);
      parts := parts + [p];
      ceilingHit := ceilingHit || |c.mentions| >= MENTIONS_SCAN_CEILING;
    }
    assert collections[..|collections|] == collections;
  }

  function ScoredList(list: seq<NodeView>, mode: Mode, idf: Id -> real): seq<NodeView> {
    seq(|list|, i requires 0 <= i < |list| => Scored(mode, idf, list[i]))
  }

  lemma ListedNode(items: seq<NodeItem>, t: Table<NodeView>, mode: Mode, idf: Id -> real, n: NodeView)
    requires NodesMerged(items, t) && n in ScoredList(t.Values(), mode, idf)
    ensures n.id in t.rows && n == Scored(mode, idf, t.rows[n.id]) && NodeMerged(items, n.id, t.rows[n.id])
  {
    var i :| 0 <= i < |t.keys| && ScoredList(t.Values(), mode, idf)[i] == n;
    assert t.keys[i] in t.keys;
    assert NodeMerged(items, t.keys[i], t.rows[t.keys[i]]);
  }

  lemma ListedEdge(items: seq<EdgeItem>, t: Table<EdgeView>, e: EdgeView)
    requires EdgesMerged(items, t) && e in t.Values()
    ensures e.id in t.rows && t.rows[e.id] == e && EdgeMerged(items, e.id, e)
  {
    var i :| 0 <= i < |t.keys| && t.Values()[i] == e;
    assert t.keys[i] in t.keys;
  }

  /** The answer; the counts are those before the truncation. */
  datatype GraphView = GraphView(nodes: seq<NodeView>, edges: seq<EdgeView>, nodeCount: nat, edgeCount: nat,
                                 truncated: bool)

  /** The view cut from the tables that merge the visible parts of the collections. */
  ghost predicate CutFrom(collections: seq<Collection>, maxNodes: nat, maxEdges: nat, mode: Mode, idf: Id -> real,
                          nodeTable: Table<NodeView>, edgeTable: Table<EdgeView>, v: GraphView) {
    && NodesMerged(AllNodeItems(PartsOf(collections)), nodeTable)
    && EdgesMerged(AllEdgeItems(PartsOf(collections)), edgeTable)
    && NodesTruncated(ScoredList(nodeTable.Values(), mode, idf), edgeTable.Values(), maxNodes, mode, v.nodes)
    && EdgesTruncated(edgeTable.Values(), Ids(v.nodes), maxEdges, v.edges)
    && v.nodeCount == |nodeTable.keys| && v.edgeCount == |edgeTable.keys|
    && (v.truncated <==> v.nodeCount > maxNodes || |Filter(edgeTable.Values(), OthersJoining(Ids(v.nodes)))| > maxEdges
                         || CeilingHit(collections))
  }

  ghost predicate IsView(collections: seq<Collection>, maxNodes: nat, maxEdges: nat, mode: Mode, idf: Id -> real,
                         v: GraphView) {
    exists nodeTable, edgeTable :: CutFrom(collections, maxNodes, maxEdges, mode, idf, nodeTable, edgeTable, v)
  }

  /** The node shows the merged figures of its rows, its salience weighted by the factor of its id where the mode asks
      for it. */
  ghost predicate ShowsMerged(collections: seq<Collection>, mode: Mode, idf: Id -> real, n: NodeView) {
    exists m ::
      && NodeMerged(AllNodeItems(PartsOf(collections)), n.id, m)
      && n.id == m.id && n.count == m.count && n.pagerank == m.pagerank
      && n.salience == (if mode == Tfidf then m.salience * idf(m.id) else m.salience)
  }

  /** `inspect_cross_collection`: every returned node and edge carries the merged figures of the parts the caller
      may see, no edge dangles, and every chunk id is one the caller may see. */
  method InspectCrossCollection(collections: seq<Collection>, maxNodes: nat, maxEdges: nat, mode: Mode, idf: Id -> real)
    returns (v: GraphView)
    ensures IsView(collections, maxNodes, maxEdges, mode, idf, v)
    ensures forall n | n in v.nodes :: ShowsMerged(collections, mode, idf, n)
    ensures forall i, j | 0 <= i < j < |v.nodes| :: NodeNoWorse(mode, v.nodes[i], v.nodes[j])
    ensures forall n | n in v.nodes ::
              exists m :: NodeMerged(AllNodeItems(PartsOf(collections)), n.id, m) && n == Scored(mode, idf, m)
    ensures forall e | e in v.edges :: EdgeMerged(AllEdgeItems(PartsOf(collections)), e.id, e)
    ensures forall e, chunk | e in v.edges && chunk in e.chunks :: SeenIn(collections, e.id, chunk)
    ensures forall e | e in v.edges :: |e.chunks| <= MAX_SOURCE_CHUNK_IDS
  {
    var parts, ceilingHit := LoadAll(collections);
    var nodeTable, edgeTable := MergeCollections(parts);
    var list := ScoredList(nodeTable.Values(), mode, idf);
    var nodes, edges, cut := TruncateGraph(list, edgeTable.Values(), maxNodes, maxEdges, mode);
    v := GraphView(nodes, edges, |nodeTable.keys|, |edgeTable.keys|, cut || ceilingHit);
    assert CutFrom(collections, maxNodes, maxEdges, mode, idf, nodeTable, edgeTable, v);
    ViewsHoldMergedRows(collections, maxNodes, maxEdges, mode, idf, nodeTable, edgeTable, v);
    TheBestComeFirst(list, edgeTable.Values(), maxNodes, maxEdges, mode, nodes, edges);
    forall n | n in v.nodes ensures ShowsMerged(collections, mode, idf, n) {
      var m :| NodeMerged(AllNodeItems(PartsOf(collections)), n.id, m) && n == Scored(mode, idf, m);
    }
  }

  lemma ViewsHoldMergedRows(collections: seq<Collection>, maxNodes: nat, maxEdges: nat, mode: Mode, idf: Id -> real,
                            nodeTable: Table<NodeView>, edgeTable: Table<EdgeView>, v: GraphView)
    requires CutFrom(collections, maxNodes, maxEdges, mode, idf, nodeTable, edgeTable, v)
    ensures forall n | n in v.nodes ::
              exists m :: NodeMerged(AllNodeItems(PartsOf(collections)), n.id, m) && n == Scored(mode, idf, m)
    ensures forall e | e in v.edges :: EdgeMerged(AllEdgeItems(PartsOf(collections)), e.id, e)
    ensures forall e, chunk | e in v.edges && chunk in e.chunks :: SeenIn(collections, e.id, chunk)
    ensures forall e | e in v.edges :: |e.chunks| <= MAX_SOURCE_CHUNK_IDS
  {
    forall n | n in v.nodes
      ensures exists m :: NodeMerged(AllNodeItems(PartsOf(collections)), n.id, m) && n == Scored(mode, idf, m)
    {
      assert n in multiset(v.nodes);
      ListedNode(AllNodeItems(PartsOf(collections)), nodeTable, mode, idf, n);
    }
    forall e | e in v.edges
      ensures EdgeMerged(AllEdgeItems(PartsOf(collections)), e.id, e) && |e.chunks| <= MAX_SOURCE_CHUNK_IDS
      ensures forall chunk | chunk in e.chunks :: SeenIn(collections, e.id, chunk)
    {
      assert e in multiset(v.edges);
      ListedEdge(AllEdgeItems(PartsOf(collections)), edgeTable, e);
      ChunksAreSeen(collections, edgeTable, e.id);
    }
  }

  // ------------------------------------------------------------------ the order of the collections

  lemma RowsOf<V>(t: Table<V>)
    requires t.Valid()
    ensures |t.Values()| == |t.keys| && t.rows.Keys == Members(t.keys) && |t.keys| == |t.rows.Keys|
    ensures forall id | id in t.rows :: exists i | 0 <= i < |t.keys| :: t.keys[i] == id && t.Values()[i] == t.rows[id]
  {
    DistinctCount(t.keys);
    assert t.rows.Keys == Members(t.keys);
    forall id | id in t.rows ensures exists i | 0 <= i < |t.keys| :: t.keys[i] == id && t.Values()[i] == t.rows[id] {
      assert id in t.keys;
      var i :| 0 <= i < |t.keys| && t.keys[i] == id;
      assert t.Values()[i] == t.rows[id];
    }
  }

  lemma NodeListIds(items: seq<NodeItem>, t: Table<NodeView>, mode: Mode, idf: Id -> real)
    requires NodesMerged(items, t)
    ensures DistinctIds(ScoredList(t.Values(), mode, idf))
  {
    forall i | 0 <= i < |t.keys| ensures ScoredList(t.Values(), mode, idf)[i].id == t.keys[i] {
      assert t.keys[i] in t.keys;
      assert NodeMerged(items, t.keys[i], t.rows[t.keys[i]]);
    }
  }

  lemma EdgeListIds(items: seq<EdgeItem>, t: Table<EdgeView>)
    requires EdgesMerged(items, t)
    ensures DistinctEdgeIds(t.Values())
  {
    forall i | 0 <= i < |t.keys| ensures t.Values()[i].id == t.keys[i] {
      assert t.keys[i] in t.keys;
      assert EdgeMerged(items, t.keys[i], t.rows[t.keys[i]]);
    }
  }

  /** The same figures, and the same rank where the mode sorts by rank. */
  ghost predicate SameFigures(mode: Mode, s: Table<NodeView>, t: Table<NodeView>) {
    s.rows.Keys == t.rows.Keys && forall id | id in s.rows :: Bare(mode, s.rows[id]) == Bare(mode, t.rows[id])
  }

  lemma ScoredAlike(mode: Mode, idf: Id -> real, m: NodeView, n: NodeView)
    requires Bare(mode, m) == Bare(mode, n)
    ensures Bare(mode, Scored(mode, idf, m)) == Bare(mode, Scored(mode, idf, n))
  {
  }

  lemma BareNodeAt(t: Table<NodeView>, mode: Mode, idf: Id -> real, k: nat)
    requires t.Valid() && k < |t.keys|
    ensures t.keys[k] in t.rows && |Bares(mode, ScoredList(t.Values(), mode, idf))| == |t.keys|
    ensures Bares(mode, ScoredList(t.Values(), mode, idf))[k] == Bare(mode, Scored(mode, idf, t.rows[t.keys[k]]))
  {
    assert t.keys[k] in t.keys;
  }

  lemma SameNodes(s: Table<NodeView>, t: Table<NodeView>, mode: Mode, idf: Id -> real, x: NodeView)
    requires s.Valid() && t.Valid() && SameFigures(mode, s, t)
    requires x in Bares(mode, ScoredList(s.Values(), mode, idf))
    ensures x in Bares(mode, ScoredList(t.Values(), mode, idf))
  {
    var i :| 0 <= i < |s.keys| && Bares(mode, ScoredList(s.Values(), mode, idf))[i] == x;
    BareNodeAt(s, mode, idf, i);
    var k :| 0 <= k < |t.keys| && t.keys[k] == s.keys[i];
    BareNodeAt(t, mode, idf, k);
    ScoredAlike(mode, idf, s.rows[s.keys[i]], t.rows[t.keys[k]]);
  }

  lemma SameEdges(items: seq<EdgeItem>, others: seq<EdgeItem>, s: Table<EdgeView>, t: Table<EdgeView>)
    requires EdgesMerged(items, s) && EdgesMerged(others, t) && s.rows == t.rows
    ensures multiset(s.Values()) == multiset(t.Values())
  {
    EdgeListIds(items, s);
    EdgeListIds(others, t);
    RowsOf(s);
    RowsOf(t);
    forall e ensures e in s.Values() <==> e in t.Values() {
      if e in s.Values() {
        ListedEdge(items, s, e);
      }
      if e in t.Values() {
        ListedEdge(others, t, e);
      }
    }
    SameDistinct(s.Values(), t.Values());
  }

  lemma SameTables(collections: seq<Collection>, others: seq<Collection>, mode: Mode,
                   nodes: Table<NodeView>, edges: Table<EdgeView>, otherNodes: Table<NodeView>,
                   otherEdges: Table<EdgeView>)
    requires multiset(collections) == multiset(others)
    requires NodesMerged(AllNodeItems(PartsOf(collections)), nodes)
    requires EdgesMerged(AllEdgeItems(PartsOf(collections)), edges)
    requires NodesMerged(AllNodeItems(PartsOf(others)), otherNodes)
    requires EdgesMerged(AllEdgeItems(PartsOf(others)), otherEdges)
    requires EdgeIdsAreHashes(AllEdgeItems(PartsOf(collections)))
    requires mode == Importance ==> forall id :: RanksAgree(PartsOf(collections), id)
    ensures SameFigures(mode, nodes, otherNodes) && edges.rows == otherEdges.rows
  {
    var parts, otherParts := PartsOf(collections), PartsOf(others);
    FlatMapsOfPermutations(collections, others, (c: Collection) => [PartOf(c)]);
    TheOrderOfCollectionsDoesNotMatter(parts, otherParts, nodes, edges, otherNodes, otherEdges);
    forall id | id in nodes.rows ensures Bare(mode, nodes.rows[id]) == Bare(mode, otherNodes.rows[id]) {
      assert NodeMerged(AllNodeItems(parts), id, nodes.rows[id])
             && NodeMerged(AllNodeItems(otherParts), id, otherNodes.rows[id]);
      if mode == Importance {
        AgreedRanksIgnoreOrder(parts, id, parts, otherParts, nodes.rows[id].pagerank, otherNodes.rows[id].pagerank);
      }
    }
  }

  /** Equal answers, but for the order of the synonym edges and for ranks that the mode does not sort by. */
  ghost predicate SameView(mode: Mode, v: GraphView, w: GraphView) {
    && Bares(mode, v.nodes) == Bares(mode, w.nodes)
    && Filter(v.edges, Others()) == Filter(w.edges, Others())
    && multiset(Filter(v.edges, Synonyms())) == multiset(Filter(w.edges, Synonyms()))
    && v.nodeCount == w.nodeCount && v.edgeCount == w.edgeCount && v.truncated == w.truncated
  }

  lemma SameNodesAreCut(collections: seq<Collection>, others: seq<Collection>, maxNodes: nat, maxEdges: nat, mode: Mode,
                        idf: Id -> real, nodes: Table<NodeView>, edges: Table<EdgeView>, otherNodes: Table<NodeView>,
                        otherEdges: Table<EdgeView>, v: GraphView, w: GraphView)
    requires CutFrom(collections, maxNodes, maxEdges, mode, idf, nodes, edges, v)
    requires CutFrom(others, maxNodes, maxEdges, mode, idf, otherNodes, otherEdges, w)
    requires SameFigures(mode, nodes, otherNodes) && edges.rows == otherEdges.rows
    requires multiset(collections) == multiset(others)
    ensures Bares(mode, v.nodes) == Bares(mode, w.nodes) && v.nodeCount == w.nodeCount && v.edgeCount == w.edgeCount
    ensures multiset(edges.Values()) == multiset(otherEdges.Values()) && DistinctEdgeIds(edges.Values())
  {
    var items, otherItems := AllNodeItems(PartsOf(collections)), AllNodeItems(PartsOf(others));
    NodeListIds(items, nodes, mode, idf);
    NodeListIds(otherItems, otherNodes, mode, idf);
    RowsOf(nodes);
    RowsOf(otherNodes);
    forall x
      ensures x in Bares(mode, ScoredList(nodes.Values(), mode, idf)) <==>
                x in Bares(mode, ScoredList(otherNodes.Values(), mode, idf))
    {
      if x in Bares(mode, ScoredList(nodes.Values(), mode, idf)) {
        SameNodes(nodes, otherNodes, mode, idf, x);
      }
      if x in Bares(mode, ScoredList(otherNodes.Values(), mode, idf)) {
        SameNodes(otherNodes, nodes, mode, idf, x);
      }
    }
    SameEdges(AllEdgeItems(PartsOf(collections)), AllEdgeItems(PartsOf(others)), edges, otherEdges);
    EdgeListIds(AllEdgeItems(PartsOf(collections)), edges);
    RowsOf(edges);
    RowsOf(otherEdges);
    SameElements(edges.Values(), otherEdges.Values());
    NodesAreCutAlike(ScoredList(nodes.Values(), mode, idf), ScoredList(otherNodes.Values(), mode, idf), edges.Values(),
                     otherEdges.Values(), maxNodes, mode, v.nodes, w.nodes);
  }

  lemma SameIds(mode: Mode, a: seq<NodeView>, b: seq<NodeView>)
    requires Bares(mode, a) == Bares(mode, b)
    ensures Ids(a) == Ids(b)
  {
    forall i | 0 <= i < |a| ensures |b| == |a| && a[i].id == b[i].id {
      assert Bares(mode, a)[i] == Bares(mode, b)[i] && |Bares(mode, a)| == |Bares(mode, b)|;
    }
    assert |Bares(mode, a)| == |Bares(mode, b)|;
  }

  /** Listing the collections in another order answers the same view, where the mode does not sort by rank or the
      collections agree on the ranks. */
  lemma TheOrderOfCollectionsDoesNotChangeTheView(collections: seq<Collection>, others: seq<Collection>, maxNodes: nat,
                                                  maxEdges: nat, mode: Mode, idf: Id -> real, v: GraphView,
                                                  w: GraphView)
    requires multiset(collections) == multiset(others)
    requires IsView(collections, maxNodes, maxEdges, mode, idf, v) && IsView(others, maxNodes, maxEdges, mode, idf, w)
    requires EdgeIdsAreHashes(AllEdgeItems(PartsOf(collections)))
    requires mode == Importance ==> forall id :: RanksAgree(PartsOf(collections), id)
    ensures SameView(mode, v, w)
  {
    var nodes, edges :| CutFrom(collections, maxNodes, maxEdges, mode, idf, nodes, edges, v);
    var otherNodes, otherEdges :| CutFrom(others, maxNodes, maxEdges, mode, idf, otherNodes, otherEdges, w);
    SameTables(collections, others, mode, nodes, edges, otherNodes, otherEdges);
    SameNodesAreCut(collections, others, maxNodes, maxEdges, mode, idf, nodes, edges, otherNodes, otherEdges, v, w);
    SameIds(mode, v.nodes, w.nodes);
    EdgesAreCutAlike(edges.Values(), otherEdges.Values(), Ids(v.nodes), maxEdges, v.edges, w.edges);
    SameElements(collections, others);
  }

  lemma TheFirstCollectionRanks(collections: seq<Collection>, c: Collection, id: Id, r: real)
    returns (order: seq<Collection>)
    requires c in collections && FirstRank(NodeItems(PartOf(c)), id, Some(r))
    ensures multiset(order) == multiset(collections) && FirstRank(AllNodeItems(PartsOf(order)), id, Some(r))
  {
    var rest := ToFront(collections, c);
    order := [c] + rest;
    FlatMapOfCons(c, rest, (c: Collection) => [PartOf(c)]);
    FlatMapOfCons(PartOf(c), PartsOf(rest), (p: Part) => NodeItems(p));
    FirstRankOfConcat(NodeItems(PartOf(c)), AllNodeItems(PartsOf(rest)), id, r);
  }

  lemma OneFirstRank(items: seq<NodeItem>, id: Id, r: Option<real>, s: Option<real>)
    requires FirstRank(items, id, r) && FirstRank(items, id, s)
    ensures r == s
  {
    assert forall k | 0 <= k < |items| :: items[k] in items;
  }

  /** A view that is not cut shows every entity that has a rank. */
  lemma UncutViewsShow(collections: seq<Collection>, maxNodes: nat, maxEdges: nat, idf: Id -> real, v: GraphView,
                       id: Id, r: real)
    requires IsView(collections, maxNodes, maxEdges, Importance, idf, v) && v.nodeCount <= maxNodes
    requires FirstRank(AllNodeItems(PartsOf(collections)), id, Some(r))
    ensures exists n | n in v.nodes :: n.id == id
  {
    var items := AllNodeItems(PartsOf(collections));
    var nodes, edges :| CutFrom(collections, maxNodes, maxEdges, Importance, idf, nodes, edges, v);
    var k :| 0 <= k < |items| && items[k].id == id;
    assert items[k] in items && id in nodes.rows;
    RowsOf(nodes);
    var i :| 0 <= i < |nodes.keys| && nodes.keys[i] == id && nodes.Values()[i] == nodes.rows[id];
    var list := ScoredList(nodes.Values(), Importance, idf);
    assert list[i] == nodes.rows[id] && list[i] in list && NodeMerged(items, id, list[i]);
  }

  /** What a view shows of an entity is its merged rank. */
  lemma ShownRanks(collections: seq<Collection>, maxNodes: nat, maxEdges: nat, idf: Id -> real, v: GraphView,
                   n: NodeView, r: real)
    requires IsView(collections, maxNodes, maxEdges, Importance, idf, v) && n in v.nodes
    requires FirstRank(AllNodeItems(PartsOf(collections)), n.id, Some(r))
    ensures n.pagerank == Some(r)
  {
    var nodes, edges :| CutFrom(collections, maxNodes, maxEdges, Importance, idf, nodes, edges, v);
    ViewsHoldMergedRows(collections, maxNodes, maxEdges, Importance, idf, nodes, edges, v);
    var m :| NodeMerged(AllNodeItems(PartsOf(collections)), n.id, m) && n == Scored(Importance, idf, m);
    OneFirstRank(AllNodeItems(PartsOf(collections)), n.id, n.pagerank, Some(r));
  }

  lemma PartsComeFromCollections(collections: seq<Collection>, p: Part) returns (c: Collection)
    requires p in PartsOf(collections)
    ensures c in collections && p == PartOf(c)
  {
    FlatMapMembers(collections, (c: Collection) => [PartOf(c)]);
    c :| c in collections && p in [PartOf(c)];
  }

  lemma TwoRanks(collections: seq<Collection>, id: Id) returns (c: Collection, d: Collection, r: real, s: real)
    requires !RanksAgree(PartsOf(collections), id)
    ensures c in collections && d in collections && r != s
    ensures FirstRank(NodeItems(PartOf(c)), id, Some(r)) && FirstRank(NodeItems(PartOf(d)), id, Some(s))
  {
    var p, q;
    p, q, r, s :| p in PartsOf(collections) && q in PartsOf(collections)
      && FirstRank(NodeItems(p), id, Some(r)) && FirstRank(NodeItems(q), id, Some(s)) && r != s;
    c := PartsComeFromCollections(collections, p);
    d := PartsComeFromCollections(collections, q);
  }

  /** Where collections rank an entity differently, two orders of them show different views, unless one is cut. */
  lemma DifferentRanksShow(collections: seq<Collection>, id: Id) returns (a: seq<Collection>, b: seq<Collection>)
    requires !RanksAgree(PartsOf(collections), id)
    ensures multiset(a) == multiset(collections) == multiset(b)
    ensures forall maxNodes: nat, maxEdges: nat, idf: Id -> real, v, w |
              && IsView(a, maxNodes, maxEdges, Importance, idf, v) && IsView(b, maxNodes, maxEdges, Importance, idf, w)
              && v.nodeCount <= maxNodes :: !SameView(Importance, v, w)
  {
    var c, d, r, s := TwoRanks(collections, id);
    a := TheFirstCollectionRanks(collections, c, id, r);
    b := TheFirstCollectionRanks(collections, d, id, s);
    forall maxNodes: nat, maxEdges: nat, idf: Id -> real, v, w |
      && IsView(a, maxNodes, maxEdges, Importance, idf, v) && IsView(b, maxNodes, maxEdges, Importance, idf, w)
      && v.nodeCount <= maxNodes
      ensures !SameView(Importance, v, w)
    {
      ViewsDiffer(a, b, maxNodes, maxEdges, idf, v, w, id, r, s);
    }
  }

  lemma SameViewsByRankAreEqual(v: GraphView, w: GraphView)
    ensures SameView(Importance, v, w) ==> v.nodes == w.nodes
  {
    assert Bares(Importance, v.nodes) == v.nodes && Bares(Importance, w.nodes) == w.nodes;
  }

  lemma ViewsDiffer(a: seq<Collection>, b: seq<Collection>, maxNodes: nat, maxEdges: nat, idf: Id -> real,
                    v: GraphView, w: GraphView, id: Id, r: real, s: real)
    requires IsView(a, maxNodes, maxEdges, Importance, idf, v) && IsView(b, maxNodes, maxEdges, Importance, idf, w)
    requires FirstRank(AllNodeItems(PartsOf(a)), id, Some(r)) && FirstRank(AllNodeItems(PartsOf(b)), id, Some(s))
    requires r != s && v.nodeCount <= maxNodes
    ensures !SameView(Importance, v, w)
  {
    UncutViewsShow(a, maxNodes, maxEdges, idf, v, id, r);
    var n :| n in v.nodes && n.id == id;
    ShownRanks(a, maxNodes, maxEdges, idf, v, n, r);
    if n in w.nodes {
      ShownRanks(b, maxNodes, maxEdges, idf, w, n, s);
    }
    SameViewsByRankAreEqual(v, w);
  }

  /** Two collections that rank their one entity differently. */
  lemma RanksCanDiffer()
    ensures var all := Acl.Visibility({}, {});
            var c := Collection([Node(0, "a", Some(1.0))], [], [], 1, all);
            var d := Collection([Node(0, "b", Some(2.0))], [], [], 1, all);
            !RanksAgree(PartsOf([c, d]), 0)
  {
    var all := Acl.Visibility({}, {});
    var c := Collection([Node(0, "a", Some(1.0))], [], [], 1, all);
    var d := Collection([Node(0, "b", Some(2.0))], [], [], 1, all);
    ThePartOfOneNode(c);
    ThePartOfOneNode(d);
    FlatMapMembers([c, d], (c: Collection) => [PartOf(c)]);
    assert PartOf(c) in [PartOf(c)] && PartOf(d) in [PartOf(d)];
  }

  lemma ThePartOfOneNode(c: Collection)
    requires c.mentions == [] && |c.nodes| == 1 && Acl.DocVisible(c.visibility, c.nodes[0].doc)
    requires c.nodes[0].pagerank.Some?
    ensures FirstRank(NodeItems(PartOf(c)), c.nodes[0].id, c.nodes[0].pagerank)
  {
    var items := NodeItems(PartOf(c));
    FilterAllOrNone(c.nodes, NodeTest(c.mentions, c.visibility));
    assert PartOf(c).nodes == c.nodes;
    assert items[0].id == c.nodes[0].id && items[0].pagerank == c.nodes[0].pagerank;
  }
}
