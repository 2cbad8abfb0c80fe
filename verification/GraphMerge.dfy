/** The merge of several collections' graphs into one (archon_search/graph_inspector.py, the loops of
    `inspect_cross_collection`). Salience is a real number, and a capped `source_chunk_ids` list is the set it
    lists in sorted order. */
module GraphMerge {
  import opened Options
  import opened Sorting
  import opened Sums
  import opened SmallestIds
  import opened GraphInspector

  const MAX_SOURCE_CHUNK_IDS := 20

  datatype NodeView = NodeView(id: Id, count: nat, salience: real, pagerank: Option<real>)
  datatype EdgeView = EdgeView(id: Id, source: Id, target: Id, rel: string, weight: nat, chunks: set<string>)

  /** What one collection says of an entity, and of an edge: `met` holds every chunk the endpoints share. */
  datatype NodeItem = NodeItem(id: Id, count: nat, salience: real, pagerank: Option<real>)
  datatype EdgeItem = EdgeItem(id: Id, source: Id, target: Id, rel: string, met: set<string>)

  function Min(a: real, b: real): real { if a <= b then a else b }
  function AtLeastOne(n: nat): nat { if n < 1 then 1 else n }

  function NodeItemOf(p: Part, n: Node): NodeItem {
    var count := |ItemsAt(p.chunks, n.id)|;
    NodeItem(n.id, count, if p.total > 0 then Min(count as real / p.total as real, 1.0) else 0.0, n.pagerank)
  }

  function EdgeItemOf(p: Part, e: Edge): EdgeItem {
    EdgeItem(e.id, e.source, e.target, e.rel, ItemsAt(p.chunks, e.source) * ItemsAt(p.chunks, e.target))
  }

  ghost function NodeItems(p: Part): seq<NodeItem> {
    seq(|p.nodes|, i requires 0 <= i < |p.nodes| => NodeItemOf(p, p.nodes[i]))
  }

  ghost function EdgeItems(p: Part): seq<EdgeItem> {
    seq(|p.edges|, i requires 0 <= i < |p.edges| => EdgeItemOf(p, p.edges[i]))
  }

  ghost function AllNodeItems(parts: seq<Part>): seq<NodeItem> {
    FlatMap(parts, (p: Part) => NodeItems(p))
  }

  ghost function AllEdgeItems(parts: seq<Part>): seq<EdgeItem> {
    FlatMap(parts, (p: Part) => EdgeItems(p))
  }

  // ------------------------------------------------------------------ closed forms

  ghost function CountTerm(id: Id): NodeItem -> real {
    (i: NodeItem) => if i.id == id then i.count as real else 0.0
  }

  ghost function SalienceTerm(id: Id): NodeItem -> real {
    (i: NodeItem) => if i.id == id then Times(i.count, i.salience) else 0.0
  }

  ghost function WeightTerm(id: Id): EdgeItem -> real {
    (i: EdgeItem) => if i.id == id then |i.met| as real else 0.0
  }

  ghost function Met(items: seq<EdgeItem>, id: Id): set<string> {
    set i, c | i in items && i.id == id && c in i.met :: c
  }

  /** The average of the saliences, weighted by the counts. */
  ghost function AverageSalience(items: seq<NodeItem>, id: Id): real {
    Ratio(Sum(items, SalienceTerm(id)), Sum(items, CountTerm(id)))
  }

  ghost function Ratio(sum: real, count: real): real {
    if count == 0.0 then 0.0 else sum / count
  }

  /** The first rank that is not null. */
  ghost predicate FirstRank(items: seq<NodeItem>, id: Id, rank: Option<real>) {
    match rank
    case None => forall i | i in items && i.id == id :: i.pagerank.None?
    case Some(_) =>
      exists k | 0 <= k < |items| ::
        items[k].id == id && items[k].pagerank == rank
            && forall j | 0 <= j < k && items[j].id == id :: items[j].pagerank.None?
  }

  ghost predicate NodeMerged(items: seq<NodeItem>, id: Id, n: NodeView) {
    && n.id == id
    && n.count as real == Sum(items, CountTerm(id))
    && n.salience == AverageSalience(items, id)
    && FirstRank(items, id, n.pagerank)
  }

  ghost predicate EdgeMerged(items: seq<EdgeItem>, id: Id, e: EdgeView) {
    && e.id == id
    && e.weight as real == Sum(items, WeightTerm(id))
    && e.chunks == Smallest(MAX_SOURCE_CHUNK_IDS, Met(items, id))
    && exists i | i in items :: i.id == id && e.source == i.source && e.target == i.target && e.rel == i.rel
  }

  /** A dict: its keys in the order they first came, and its rows. */
  datatype Table<V> = Table(keys: seq<Id>, rows: map<Id, V>) {
    ghost predicate Valid() {
      Distinct(keys) && forall id :: id in keys <==> id in rows
    }

    function Put(id: Id, v: V): Table<V> {
      Table(if id in rows then keys else keys + [id], rows[id := v])
    }

    function Values(): seq<V>
      requires Valid()
    {
      seq(|keys|, i requires 0 <= i < |keys| => assert keys[i] in keys; rows[keys[i]])
    }

    lemma PutKeepsValid(id: Id, v: V)
      requires Valid()
      ensures Put(id, v).Valid()
    {
      if id !in rows {
        DistinctAround(id, keys);
      }
    }
  }

  ghost predicate NodesMerged(items: seq<NodeItem>, t: Table<NodeView>) {
    && t.Valid()
    && (forall id :: id in t.rows <==> exists i | i in items :: i.id == id)
    && (forall id | id in t.rows :: NodeMerged(items, id, t.rows[id]))
  }

  ghost predicate EdgesMerged(items: seq<EdgeItem>, t: Table<EdgeView>) {
    && t.Valid()
    && (forall id :: id in t.rows <==> exists i | i in items :: i.id == id)
    && (forall id | id in t.rows :: EdgeMerged(items, id, t.rows[id]))
  }

  // ------------------------------------------------------------------ one more item

  ghost predicate Sane(i: NodeItem) {
    0.0 <= i.salience <= 1.0 && (i.count == 0 ==> i.salience == 0.0)
  }

  /** Weighted saliences never add up to more than the weights: the clamp of the merged salience is idle. */
  lemma {:induction false} SaliencesStayBelowCounts(items: seq<NodeItem>, id: Id)
    requires forall i | i in items :: Sane(i)
    ensures 0.0 <= Sum(items, SalienceTerm(id)) <= Sum(items, CountTerm(id))
  {
    if items != [] {
      var x := items[|items| - 1];
      assert x in items;
      SaliencesStayBelowCounts(items[..|items| - 1], id);
      AtMostItself(x.count, x.salience);
      assert 0.0 <= SalienceTerm(id)(x) <= CountTerm(id)(x);
    }
  }

  lemma {:induction false} AbsentIdsAddNothing(items: seq<NodeItem>, id: Id)
    requires forall i | i in items :: i.id != id
    ensures Sum(items, CountTerm(id)) == 0.0 == Sum(items, SalienceTerm(id))
  {
    if items != [] {
      AbsentIdsAddNothing(items[..|items| - 1], id);
      assert items[|items| - 1] in items;
    }
  }

  lemma {:induction false} AbsentEdgesAddNothing(items: seq<EdgeItem>, id: Id)
    requires forall i | i in items :: i.id != id
    ensures Sum(items, WeightTerm(id)) == 0.0 && Met(items, id) == {}
  {
    if items != [] {
      AbsentEdgesAddNothing(items[..|items| - 1], id);
      assert items[|items| - 1] in items;
    }
  }

  function Times(count: nat, salience: real): real {
    count as real * salience
  }

  function MergedSalience(one: real, other: real, count: nat): real {
    Min((one + other) / AtLeastOne(count) as real, 1.0)
  }

  function MergedNode(have: NodeView, x: NodeItem): NodeView {
    var count := have.count + x.count;
    NodeView(x.id, count, MergedSalience(Times(have.count, have.salience), Times(x.count, x.salience), count),
             if have.pagerank.Some? then have.pagerank else x.pagerank)
  }

  function MergedEdge(have: EdgeView, x: EdgeItem): EdgeView {
    EdgeView(x.id, x.source, x.target, x.rel, have.weight + |x.met|,
             Smallest(MAX_SOURCE_CHUNK_IDS, have.chunks + Smallest(MAX_SOURCE_CHUNK_IDS, x.met)))
  }

  lemma FirstRankStep(items: seq<NodeItem>, x: NodeItem, id: Id, rank: Option<real>)
    requires FirstRank(items, id, rank)
    ensures FirstRank(items + [x], id, if rank.Some? || x.id != id then rank else x.pagerank)
  {
    var more := items + [x];
    assert more[|items|] == x;
    if rank.Some? {
      var k :| 0 <= k < |items| && items[k].id == id && items[k].pagerank == rank
          && forall j | 0 <= j < k && items[j].id == id :: items[j].pagerank.None?;
      assert more[k] == items[k];
    } else {
      assert forall j | 0 <= j < |items| :: items[j] in items;
    }
  }

  lemma RatioUndone(sum: real, count: nat)
    requires 0.0 <= sum <= count as real
    ensures Times(count, Ratio(sum, count as real)) == sum
    ensures Ratio(sum, count as real) <= 1.0
  {
    if count != 0 {
      assert count as real * (sum / count as real) == sum;
    }
  }

  /** Dividing by at least one changes nothing for a sum that vanishes with its count, and the clamp is idle. */
  lemma Divided(one: real, other: real, count: nat)
    requires 0.0 <= one + other <= count as real
    ensures MergedSalience(one, other, count) == Ratio(one + other, count as real)
  {
    RatioUndone(one + other, count);
  }

  lemma AtMostItself(count: nat, salience: real)
    requires 0.0 <= salience <= 1.0
    ensures 0.0 <= Times(count, salience) <= count as real
  {
    assert count as real * salience <= count as real * 1.0;
  }

  lemma MergedNodeStep(items: seq<NodeItem>, x: NodeItem, have: NodeView)
    requires forall i | i in items :: Sane(i)
    requires Sane(x) && NodeMerged(items, x.id, have)
    ensures NodeMerged(items + [x], x.id, MergedNode(have, x))
  {
    SaliencesStayBelowCounts(items, x.id);
    RatioUndone(Sum(items, SalienceTerm(x.id)), have.count);
    AtMostItself(x.count, x.salience);
    Divided(Times(have.count, have.salience), Times(x.count, x.salience), have.count + x.count);
    FirstRankStep(items, x, x.id, have.pagerank);
  }

  lemma FirstNodeStep(items: seq<NodeItem>, x: NodeItem)
    requires forall i | i in items :: i.id != x.id
    requires Sane(x)
    ensures NodeMerged(items + [x], x.id, NodeView(x.id, x.count, x.salience, x.pagerank))
  {
    AbsentIdsAddNothing(items, x.id);
    FirstRankStep(items, x, x.id, None);
    if x.count > 0 {
      var n := x.count as real;
      assert n * x.salience / n == x.salience;
    }
  }

  lemma OtherNodeStep(items: seq<NodeItem>, x: NodeItem, id: Id, n: NodeView)
    requires NodeMerged(items, id, n) && x.id != id
    ensures NodeMerged(items + [x], id, n)
  {
    FirstRankStep(items, x, id, n.pagerank);
  }

  lemma MetStep(items: seq<EdgeItem>, x: EdgeItem, id: Id)
    ensures Met(items + [x], id) == Met(items, id) + if x.id == id then x.met else {}
  {
  }

  lemma MergedEdgeStep(items: seq<EdgeItem>, x: EdgeItem, have: EdgeView)
    requires EdgeMerged(items, x.id, have)
    ensures EdgeMerged(items + [x], x.id, MergedEdge(have, x))
  {
    MetStep(items, x, x.id);
    SmallestOfUnion(MAX_SOURCE_CHUNK_IDS, Met(items, x.id), x.met);
    assert x in items + [x];
  }

  lemma FirstEdgeStep(items: seq<EdgeItem>, x: EdgeItem)
    requires forall i | i in items :: i.id != x.id
    ensures EdgeMerged(items + [x], x.id,
                       EdgeView(x.id, x.source, x.target, x.rel, |x.met|, Smallest(MAX_SOURCE_CHUNK_IDS, x.met)))
  {
    MetStep(items, x, x.id);
    AbsentEdgesAddNothing(items, x.id);
    assert x in items + [x];
    assert {} + x.met == x.met;
  }

  lemma OtherEdgeStep(items: seq<EdgeItem>, x: EdgeItem, id: Id, e: EdgeView)
    requires EdgeMerged(items, id, e) && x.id != id
    ensures EdgeMerged(items + [x], id, e)
  {
    MetStep(items, x, id);
    assert Met(items + [x], id) == Met(items, id);
    var i :| i in items && i.id == id && e.source == i.source && e.target == i.target && e.rel == i.rel;
    assert i in items + [x];
  }

  // ------------------------------------------------------------------ the merge loops

  function AddNode(t: Table<NodeView>, x: NodeItem): Table<NodeView> {
    t.Put(x.id, if x.id in t.rows then MergedNode(t.rows[x.id], x) else NodeView(x.id, x.count, x.salience, x.pagerank))
  }

  function AddEdge(t: Table<EdgeView>, x: EdgeItem): Table<EdgeView> {
    t.Put(x.id, if x.id in t.rows then MergedEdge(t.rows[x.id], x)
                else EdgeView(x.id, x.source, x.target, x.rel, |x.met|, Smallest(MAX_SOURCE_CHUNK_IDS, x.met)))
  }

  lemma AddNodeStep(items: seq<NodeItem>, t: Table<NodeView>, x: NodeItem)
    requires NodesMerged(items, t) && (forall i | i in items :: Sane(i)) && Sane(x)
    ensures NodesMerged(items + [x], AddNode(t, x))
  {
    var more, after := items + [x], AddNode(t, x);
    t.PutKeepsValid(x.id, after.rows[x.id]);
    forall id ensures id in after.rows <==> exists i | i in more :: i.id == id {
      if id in t.rows {
        var i :| i in items && i.id == id;
        assert i in more;
      }
      assert x in more;
    }
    forall id | id in after.rows ensures NodeMerged(more, id, after.rows[id]) {
      if id != x.id {
        OtherNodeStep(items, x, id, t.rows[id]);
      } else if id in t.rows {
        MergedNodeStep(items, x, t.rows[id]);
      } else {
        FirstNodeStep(items, x);
      }
    }
  }

  lemma AddEdgeStep(items: seq<EdgeItem>, t: Table<EdgeView>, x: EdgeItem)
    requires EdgesMerged(items, t)
    ensures EdgesMerged(items + [x], AddEdge(t, x))
  {
    var more, after := items + [x], AddEdge(t, x);
    t.PutKeepsValid(x.id, after.rows[x.id]);
    forall id ensures id in after.rows <==> exists i | i in more :: i.id == id {
      if id in t.rows {
        var i :| i in items && i.id == id;
        assert i in more;
      }
      assert x in more;
    }
    forall id | id in after.rows ensures EdgeMerged(more, id, after.rows[id]) {
      if id != x.id {
        OtherEdgeStep(items, x, id, t.rows[id]);
      } else if id in t.rows {
        MergedEdgeStep(items, x, t.rows[id]);
      } else {
        FirstEdgeStep(items, x);
      }
    }
  }

  /** The inner loop over one collection's nodes. */
  method MergeNodes(p: Part, ghost items: seq<NodeItem>, before: Table<NodeView>) returns (t: Table<NodeView>)
    requires NodesMerged(items, before) && forall i | i in items :: Sane(i)
    ensures NodesMerged(items + NodeItems(p), t)
    ensures forall i | i in items + NodeItems(p) :: Sane(i)
  {
    t := before;
    ghost var all := NodeItems(p);
    assert items + all[..0] == items;
    for k := 0 to |p.nodes|
      invariant NodesMerged(items + all[..k], t)
      invariant forall i | i in items + all[..k] :: Sane(i)
    {
      var x := NodeItemOf(p, p.nodes[k]);
      AddNodeStep(items + all[..k], t, x);
      t := AddNode(t, x);
      assert items + all[..k + 1] == items + all[..k] + [x];
    }
    assert all[..|p.nodes|] == all;
  }

  /** The inner loop over one collection's edges. */
  method MergeEdges(p: Part, ghost items: seq<EdgeItem>, before: Table<EdgeView>) returns (t: Table<EdgeView>)
    requires EdgesMerged(items, before)
    ensures EdgesMerged(items + EdgeItems(p), t)
  {
    t := before;
    ghost var all := EdgeItems(p);
    assert items + all[..0] == items;
    for k := 0 to |p.edges|
      invariant EdgesMerged(items + all[..k], t)
    {
      var x := EdgeItemOf(p, p.edges[k]);
      AddEdgeStep(items + all[..k], t, x);
      t := AddEdge(t, x);
      assert items + all[..k + 1] == items + all[..k] + [x];
    }
    assert all[..|p.edges|] == all;
  }

  /** The merge over all collections computes the closed forms. */
  method MergeCollections(parts: seq<Part>) returns (nodes: Table<NodeView>, edges: Table<EdgeView>)
    ensures NodesMerged(AllNodeItems(parts), nodes)
    ensures EdgesMerged(AllEdgeItems(parts), edges)
  {
    nodes, edges := Table([], map[]), Table([], map[]);
    for k := 0 to |parts|
      invariant NodesMerged(AllNodeItems(parts[..k]), nodes)
      invariant forall i | i in AllNodeItems(parts[..k]) :: Sane(i)
      invariant EdgesMerged(AllEdgeItems(parts[..k]), edges)
    {
      assert parts[..k + 1][..k] == parts[..k];
      nodes := MergeNodes(parts[k], AllNodeItems(parts[..k]), nodes);
      edges := MergeEdges(parts[k], AllEdgeItems(parts[..k]), edges);
    }
    assert parts[..|parts|] == parts;
  }

  // ------------------------------------------------------------------ the order of the collections

  /** An edge id is a hash of the endpoints and the relationship. */
  ghost predicate EdgeIdsAreHashes(items: seq<EdgeItem>) {
    forall a, b | a in items && b in items && a.id == b.id ::
        a.source == b.source && a.target == b.target && a.rel == b.rel
  }

  lemma NodeFiguresAgreeAt(a: seq<NodeItem>, b: seq<NodeItem>, id: Id, m: NodeView, n: NodeView)
    requires multiset(a) == multiset(b) && NodeMerged(a, id, m) && NodeMerged(b, id, n)
    ensures m.count == n.count && m.salience == n.salience
  {
    SumsIgnoreOrder(a, b, CountTerm(id));
    SumsIgnoreOrder(a, b, SalienceTerm(id));
  }

  lemma NodeFiguresAgree(a: seq<NodeItem>, b: seq<NodeItem>, s: Table<NodeView>, t: Table<NodeView>)
    requires multiset(a) == multiset(b) && NodesMerged(a, s) && NodesMerged(b, t)
    ensures s.rows.Keys == t.rows.Keys
    ensures forall id | id in s.rows ::
              s.rows[id].count == t.rows[id].count && s.rows[id].salience == t.rows[id].salience
  {
    assert s.rows.Keys == t.rows.Keys by {
      SameElements(a, b);
    }
    forall id | id in s.rows
      ensures s.rows[id].count == t.rows[id].count && s.rows[id].salience == t.rows[id].salience
    {
      NodeFiguresAgreeAt(a, b, id, s.rows[id], t.rows[id]);
    }
  }

  lemma EdgeRowsAgreeAt(a: seq<EdgeItem>, b: seq<EdgeItem>, id: Id, e: EdgeView, f: EdgeView)
    requires multiset(a) == multiset(b) && EdgeMerged(a, id, e) && EdgeMerged(b, id, f) && EdgeIdsAreHashes(a)
    ensures e == f
  {
    SameElements(a, b);
    SumsIgnoreOrder(a, b, WeightTerm(id));
    assert Met(a, id) == Met(b, id);
    var i :| i in a && i.id == id && e.source == i.source && e.target == i.target && e.rel == i.rel;
    var j :| j in b && j.id == id && f.source == j.source && f.target == j.target && f.rel == j.rel;
    assert j in a;
  }

  lemma EdgeRowsAgree(a: seq<EdgeItem>, b: seq<EdgeItem>, s: Table<EdgeView>, t: Table<EdgeView>)
    requires multiset(a) == multiset(b) && EdgesMerged(a, s) && EdgesMerged(b, t) && EdgeIdsAreHashes(a)
    ensures s.rows == t.rows
  {
    assert s.rows.Keys == t.rows.Keys by {
      SameElements(a, b);
    }
    forall id | id in s.rows ensures s.rows[id] == t.rows[id] {
      EdgeRowsAgreeAt(a, b, id, s.rows[id], t.rows[id]);
    }
  }

  /** Listing the collections in another order changes no chunk count, salience, edge weight or chunk id. */
  lemma TheOrderOfCollectionsDoesNotMatter(parts: seq<Part>, others: seq<Part>,
                                           nodes: Table<NodeView>, edges: Table<EdgeView>,
                                           otherNodes: Table<NodeView>, otherEdges: Table<EdgeView>)
    requires multiset(parts) == multiset(others)
    requires NodesMerged(AllNodeItems(parts), nodes) && EdgesMerged(AllEdgeItems(parts), edges)
    requires NodesMerged(AllNodeItems(others), otherNodes) && EdgesMerged(AllEdgeItems(others), otherEdges)
    requires EdgeIdsAreHashes(AllEdgeItems(parts))
    ensures nodes.rows.Keys == otherNodes.rows.Keys
    ensures forall id | id in nodes.rows ::
              && nodes.rows[id].count == otherNodes.rows[id].count
              && nodes.rows[id].salience == otherNodes.rows[id].salience
    ensures edges.rows == otherEdges.rows
  {
    FlatMapsOfPermutations(parts, others, (p: Part) => NodeItems(p));
    FlatMapsOfPermutations(parts, others, (p: Part) => EdgeItems(p));
    NodeFiguresAgree(AllNodeItems(parts), AllNodeItems(others), nodes, otherNodes);
    EdgeRowsAgree(AllEdgeItems(parts), AllEdgeItems(others), edges, otherEdges);
  }

  /** A chunk that one collection has at both ends of the edge. */
  ghost predicate MetIn(parts: seq<Part>, id: Id, chunk: string) {
    exists i, e | 0 <= i < |parts| && e in parts[i].edges ::
      e.id == id && chunk in ItemsAt(parts[i].chunks, e.source) * ItemsAt(parts[i].chunks, e.target)
  }

  /** The id lists are short, and every id on them is a chunk that some part lets the caller see at both ends. */
  lemma MergedChunksAreVisible(parts: seq<Part>, edges: Table<EdgeView>, id: Id)
    requires EdgesMerged(AllEdgeItems(parts), edges) && id in edges.rows
    ensures |edges.rows[id].chunks| <= MAX_SOURCE_CHUNK_IDS
    ensures forall c | c in edges.rows[id].chunks :: MetIn(parts, id, c)
  {
    var items := AllEdgeItems(parts);
    SmallestCount(MAX_SOURCE_CHUNK_IDS, Met(items, id));
    FlatMapMembers(parts, (p: Part) => EdgeItems(p));
    forall c | c in edges.rows[id].chunks ensures MetIn(parts, id, c) {
      assert c in Met(items, id);
      var x :| x in items && x.id == id && c in x.met;
      var p :| p in parts && x in EdgeItems(p);
      var i :| 0 <= i < |parts| && parts[i] == p;
      var k :| 0 <= k < |EdgeItems(p)| && EdgeItems(p)[k] == x;
      assert p.edges[k] in parts[i].edges;
    }
  }

  // ------------------------------------------------------------------ the figures, from the rows

  /** In how many visible chunks the collection mentions the entity. */
  ghost function ChunkCount(p: Part, id: Id): real {
    if id in p.chunks then |p.chunks[id]| as real else 0.0
  }

  /** The entity's share of the collection's chunks, at most one. */
  ghost function Share(p: Part, id: Id): real {
    if p.total == 0 || ChunkCount(p, id) == 0.0 then 0.0
    else if ChunkCount(p, id) >= p.total as real then 1.0
    else ChunkCount(p, id) / p.total as real
  }

  /** The chunks that both ends of the edge are visibly mentioned in. */
  ghost function SharedChunks(p: Part, e: Edge): set<string> {
    set c | e.source in p.chunks && e.target in p.chunks && c in p.chunks[e.source] && c in p.chunks[e.target]
  }

  ghost function RowCount(p: Part, id: Id): Node -> real {
    (n: Node) => if n.id == id then ChunkCount(p, id) else 0.0
  }

  ghost function RowShare(p: Part, id: Id): Node -> real {
    (n: Node) => if n.id == id then ChunkCount(p, id) * Share(p, id) else 0.0
  }

  ghost function RowWeight(p: Part, id: Id): Edge -> real {
    (e: Edge) => if e.id == id then |SharedChunks(p, e)| as real else 0.0
  }

  ghost function RowsCount(id: Id): Part -> real {
    (p: Part) => Sum(p.nodes, RowCount(p, id))
  }

  ghost function RowsShare(id: Id): Part -> real {
    (p: Part) => Sum(p.nodes, RowShare(p, id))
  }

  ghost function RowsWeight(id: Id): Part -> real {
    (p: Part) => Sum(p.edges, RowWeight(p, id))
  }

  lemma CountsOfAPart(p: Part, id: Id)
    ensures Sum(NodeItems(p), CountTerm(id)) == RowsCount(id)(p)
    ensures Sum(NodeItems(p), SalienceTerm(id)) == RowsShare(id)(p)
  {
    forall i | 0 <= i < |p.nodes|
      ensures SalienceTerm(id)(NodeItems(p)[i]) == RowShare(p, id)(p.nodes[i])
      ensures CountTerm(id)(NodeItems(p)[i]) == RowCount(p, id)(p.nodes[i])
    {
      ItemsShare(p, p.nodes[i]);
    }
    SumOfTerms(NodeItems(p), p.nodes, CountTerm(id), RowCount(p, id));
    SumOfTerms(NodeItems(p), p.nodes, SalienceTerm(id), RowShare(p, id));
  }

  lemma ItemsShare(p: Part, n: Node)
    ensures NodeItemOf(p, n).count as real == ChunkCount(p, n.id)
    ensures NodeItemOf(p, n).salience == Share(p, n.id)
  {
    var count, total := ChunkCount(p, n.id), p.total as real;
    if p.total > 0 {
      AtLeastTheWhole(count, total);
    }
  }

  lemma AtLeastTheWhole(part: real, whole: real)
    requires whole > 0.0
    ensures part >= whole <==> part / whole >= 1.0
  {
    var q := part / whole;
    assert (q - 1.0) * whole == part - whole;
  }

  lemma WeightsOfAPart(p: Part, id: Id)
    ensures Sum(EdgeItems(p), WeightTerm(id)) == RowsWeight(id)(p)
  {
    forall e | e in p.edges ensures EdgeItemOf(p, e).met == SharedChunks(p, e) {
    }
    SumOfTerms(EdgeItems(p), p.edges, WeightTerm(id), RowWeight(p, id));
  }

  /** A merged node counts, over its rows in all collections, the visible chunks that mention it; its salience is the
      average of its shares weighted by those counts. */
  lemma MergedNodesCountMentions(parts: seq<Part>, id: Id, n: NodeView)
    requires NodeMerged(AllNodeItems(parts), id, n)
    ensures n.id == id && n.count as real == Sum(parts, RowsCount(id))
    ensures n.salience == if n.count == 0 then 0.0 else Sum(parts, RowsShare(id)) / n.count as real
  {
    forall p | p in parts
      ensures RowsCount(id)(p) == Sum(NodeItems(p), CountTerm(id))
      ensures RowsShare(id)(p) == Sum(NodeItems(p), SalienceTerm(id))
    {
      CountsOfAPart(p, id);
    }
    SumOfFlatMap(parts, (p: Part) => NodeItems(p), CountTerm(id), RowsCount(id));
    SumOfFlatMap(parts, (p: Part) => NodeItems(p), SalienceTerm(id), RowsShare(id));
  }

  /** A merged edge weighs, over its rows in all collections, the visible chunks both its ends are mentioned in, and it
      lists the smallest of exactly those chunks. */
  lemma MergedEdgesWeighSharedChunks(parts: seq<Part>, id: Id, e: EdgeView)
    requires EdgeMerged(AllEdgeItems(parts), id, e)
    ensures e.id == id && e.weight as real == Sum(parts, RowsWeight(id))
    ensures e.chunks == Smallest(20, Met(AllEdgeItems(parts), id))
    ensures forall c :: c in Met(AllEdgeItems(parts), id) <==>
                        exists p, row | p in parts && row in p.edges :: row.id == id && c in SharedChunks(p, row)
    ensures exists p, row | p in parts && row in p.edges ::
              row.id == id && e.source == row.source && e.target == row.target && e.rel == row.rel
  {
    forall p | p in parts ensures RowsWeight(id)(p) == Sum(EdgeItems(p), WeightTerm(id)) {
      WeightsOfAPart(p, id);
    }
    SumOfFlatMap(parts, (p: Part) => EdgeItems(p), WeightTerm(id), RowsWeight(id));
    FlatMapMembers(parts, (p: Part) => EdgeItems(p));
    forall c ensures c in Met(AllEdgeItems(parts), id) <==>
                     exists p, row | p in parts && row in p.edges :: row.id == id && c in SharedChunks(p, row)
    {
      SharedChunksAreMet(parts, id, c);
    }
    var x :| x in AllEdgeItems(parts) && x.id == id && e.source == x.source && e.target == x.target && e.rel == x.rel;
    var p, row := RowOfItem(parts, x);
  }

  lemma RowOfItem(parts: seq<Part>, x: EdgeItem) returns (p: Part, row: Edge)
    requires x in AllEdgeItems(parts)
    ensures p in parts && row in p.edges && x.id == row.id && x.source == row.source && x.target == row.target
    ensures x.rel == row.rel && x.met == SharedChunks(p, row)
  {
    FlatMapMembers(parts, (p: Part) => EdgeItems(p));
    p :| p in parts && x in EdgeItems(p);
    var k :| 0 <= k < |p.edges| && EdgeItems(p)[k] == x;
    row := p.edges[k];
  }

  lemma SharedChunksAreMet(parts: seq<Part>, id: Id, c: string)
    ensures c in Met(AllEdgeItems(parts), id) <==>
            exists p, row | p in parts && row in p.edges :: row.id == id && c in SharedChunks(p, row)
  {
    if c in Met(AllEdgeItems(parts), id) {
      var x :| x in AllEdgeItems(parts) && x.id == id && c in x.met;
      var p, row := RowOfItem(parts, x);
    }
    if p, row :| p in parts && row in p.edges && row.id == id && c in SharedChunks(p, row) {
      var k :| 0 <= k < |p.edges| && p.edges[k] == row;
      var x := EdgeItems(p)[k];
      assert x == EdgeItemOf(p, row) && x.met == SharedChunks(p, row);
      InFlatMap(parts, (p: Part) => EdgeItems(p), p, x);
    }
  }

  // ------------------------------------------------------------------ ranks and the order of the collections

  /** No two collections have different first ranks for the entity. */
  ghost predicate RanksAgree(parts: seq<Part>, id: Id) {
    forall p, q, r: real, s: real |
      p in parts && q in parts && FirstRank(NodeItems(p), id, Some(r)) && FirstRank(NodeItems(q), id, Some(s)) :: r == s
  }

  /** Every order of the collections merges the same rank. */
  ghost predicate RankIgnoresOrder(parts: seq<Part>, id: Id) {
    forall a: seq<Part>, b: seq<Part>, r, s |
      && multiset(a) == multiset(parts) == multiset(b)
      && FirstRank(AllNodeItems(a), id, r) && FirstRank(AllNodeItems(b), id, s) :: r == s
  }

  lemma FirstRankOfConcat(a: seq<NodeItem>, b: seq<NodeItem>, id: Id, r: real)
    ensures FirstRank(a, id, Some(r)) ==> FirstRank(a + b, id, Some(r))
    ensures FirstRank(a + b, id, Some(r)) ==> FirstRank(a, id, Some(r)) || FirstRank(b, id, Some(r))
  {
    var c := a + b;
    if FirstRank(a, id, Some(r)) {
      var k :| 0 <= k < |a| && a[k].id == id && a[k].pagerank == Some(r)
               && forall j | 0 <= j < k && a[j].id == id :: a[j].pagerank.None?;
      assert c[k] == a[k];
    }
    if FirstRank(c, id, Some(r)) {
      var k :| 0 <= k < |c| && c[k].id == id && c[k].pagerank == Some(r)
               && forall j | 0 <= j < k && c[j].id == id :: c[j].pagerank.None?;
      assert forall j | 0 <= j < |a| :: c[j] == a[j];
      assert forall j | 0 <= j < |b| :: c[|a| + j] == b[j];
      if k >= |a| {
        assert b[k - |a|] == c[k];
      }
    }
  }

  /** The rank of the whole is that of one collection. */
  lemma {:induction false} SomePartRanks(parts: seq<Part>, id: Id, r: real) returns (p: Part)
    requires FirstRank(AllNodeItems(parts), id, Some(r))
    ensures p in parts && FirstRank(NodeItems(p), id, Some(r))
  {
    var front, last := parts[..|parts| - 1], parts[|parts| - 1];
    FirstRankOfConcat(AllNodeItems(front), NodeItems(last), id, r);
    if FirstRank(NodeItems(last), id, Some(r)) {
      p := last;
    } else {
      p := SomePartRanks(front, id, r);
    }
  }

  /** Listed first, a collection that has a rank for the entity gives it. */
  lemma TheFirstPartRanks(parts: seq<Part>, p: Part, id: Id, r: real) returns (order: seq<Part>)
    requires p in parts && FirstRank(NodeItems(p), id, Some(r))
    ensures multiset(order) == multiset(parts) && FirstRank(AllNodeItems(order), id, Some(r))
  {
    var rest := ToFront(parts, p);
    order := [p] + rest;
    FlatMapOfCons(p, rest, (p: Part) => NodeItems(p));
    FirstRankOfConcat(NodeItems(p), AllNodeItems(rest), id, r);
  }

  lemma NoRankAnywhere(a: seq<Part>, b: seq<Part>, id: Id, s: real)
    requires multiset(a) == multiset(b) && FirstRank(AllNodeItems(a), id, None)
    ensures !FirstRank(AllNodeItems(b), id, Some(s))
  {
    FlatMapsOfPermutations(a, b, (p: Part) => NodeItems(p));
    SameElements(AllNodeItems(a), AllNodeItems(b));
    forall k | 0 <= k < |AllNodeItems(b)| && AllNodeItems(b)[k].id == id ensures AllNodeItems(b)[k].pagerank.None? {
      assert AllNodeItems(b)[k] in AllNodeItems(a);
    }
  }

  lemma AgreedRanksIgnoreOrder(parts: seq<Part>, id: Id, a: seq<Part>, b: seq<Part>, r: Option<real>, s: Option<real>)
    requires RanksAgree(parts, id) && multiset(a) == multiset(parts) == multiset(b)
    requires FirstRank(AllNodeItems(a), id, r) && FirstRank(AllNodeItems(b), id, s)
    ensures r == s
  {
    SameElements(a, parts);
    SameElements(b, parts);
    if r.Some? && s.Some? {
      var p := SomePartRanks(a, id, r.value);
      var q := SomePartRanks(b, id, s.value);
    } else if r.Some? {
      NoRankAnywhere(b, a, id, r.value);
    } else if s.Some? {
      NoRankAnywhere(a, b, id, s.value);
    }
  }

  /** The merged rank of an entity is the same for every order of the collections if and only if no two of them have
      different ranks for it. */
  lemma RanksIgnoreOrderExactlyWhenTheyAgree(parts: seq<Part>, id: Id)
    ensures RankIgnoresOrder(parts, id) <==> RanksAgree(parts, id)
  {
    if RanksAgree(parts, id) {
      forall a: seq<Part>, b: seq<Part>, r, s |
        && multiset(a) == multiset(parts) == multiset(b)
        && FirstRank(AllNodeItems(a), id, r) && FirstRank(AllNodeItems(b), id, s)
        ensures r == s
      {
        AgreedRanksIgnoreOrder(parts, id, a, b, r, s);
      }
    }
    if RankIgnoresOrder(parts, id) {
      forall p, q, r: real, s: real |
        p in parts && q in parts && FirstRank(NodeItems(p), id, Some(r)) && FirstRank(NodeItems(q), id, Some(s))
        ensures r == s
      {
        var a := TheFirstPartRanks(parts, p, id, r);
        var b := TheFirstPartRanks(parts, q, id, s);
        assert Some(r) == Some(s);
      }
    }
  }
}
