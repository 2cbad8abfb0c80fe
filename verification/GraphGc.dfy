/** Garbage collection of the entity graph (archon_search/graph_store.py, `prune_stale_mentions` and
    `delete_orphan_nodes_and_edges`).

    Entity and edge ids are SHA-256 digests, here numbers.  A table is the sequence of its rows, or absent. */
module GraphGc {
  import opened Options
  import opened Sorting

  type Id = nat

  datatype Node = Node(id: Id, entityType: string, subtype: Option<string>)
  datatype Edge = Edge(id: Id, source: Id, target: Id, rel: string, extraction: Option<string>)
  datatype Mention = Mention(entity: Id, chunk: string)

  const DELETE_BATCH_SIZE := 500

  // ------------------------------------------------------------------ what is exempt

  /** `_edge_is_defref` */
  predicate IsDefRef(e: Edge) {
    || e.extraction == Some("extracted") || e.extraction == Some("inferred")
    || e.rel in {"calls", "imports", "defines", "inherits"}
  }

  predicate EndsWith(s: string, suffix: string) {
    |suffix| <= |s| && s[|s| - |suffix|..] == suffix
  }

  /** `_node_is_module_pseudo` */
  predicate IsModulePseudo(n: Node) {
    n.entityType == "code_symbol" && n.subtype.Some? && EndsWith(n.subtype.value, "-defref-module")
  }

  /** Relationship types that only prose extraction produces. */
  predicate IsMentionDerived(rel: string) {
    rel in {"related_to", "uses", "implements", "depends_on"}
  }

  // ------------------------------------------------------------------ what is garbage

  predicate Mentioned(mentions: seq<Mention>, id: Id) {
    exists i | 0 <= i < |mentions| :: mentions[i].entity == id
  }

  ghost predicate CoMentioned(mentions: seq<Mention>, a: Id, b: Id) {
    exists c: string :: Mention(a, c) in mentions && Mention(b, c) in mentions
  }

  predicate IsDefRefEndpoint(edges: seq<Edge>, id: Id) {
    exists i | 0 <= i < |edges| :: IsDefRef(edges[i]) && (edges[i].source == id || edges[i].target == id)
  }

  /** The exemptions go by id: a row shares that of any row with its id. */
  predicate IsPseudoId(nodes: seq<Node>, id: Id) {
    exists i | 0 <= i < |nodes| :: IsModulePseudo(nodes[i]) && nodes[i].id == id
  }

  predicate IsExempt(edges: seq<Edge>, id: Id) {
    exists i | 0 <= i < |edges| :: IsDefRef(edges[i]) && edges[i].id == id
  }

  predicate IsOrphan(n: Node, nodes: seq<Node>, edges: seq<Edge>, mentions: seq<Mention>) {
    !Mentioned(mentions, n.id) && !IsPseudoId(nodes, n.id) && !IsDefRefEndpoint(edges, n.id)
  }

  function OrphanIds(nodes: seq<Node>, edges: seq<Edge>, mentions: seq<Mention>): set<Id> {
    set n | n in nodes && IsOrphan(n, nodes, edges, mentions) :: n.id
  }

  /** An edge is collected with an endpoint, or because no chunk supports the relationship any more. */
  ghost predicate IsDoomed(e: Edge, edges: seq<Edge>, orphans: set<Id>, mentions: seq<Mention>) {
    && !IsExempt(edges, e.id)
    && (|| e.source in orphans || e.target in orphans
        || (IsMentionDerived(e.rel) && !CoMentioned(mentions, e.source, e.target)))
  }

  ghost function DoomedIds(edges: seq<Edge>, orphans: set<Id>, mentions: seq<Mention>): set<Id> {
    set e | e in edges && IsDoomed(e, edges, orphans, mentions) :: e.id
  }

  /** A table after `DELETE WHERE key IN gone`. */
  function Keep<T(!new), K>(rows: seq<T>, key: T -> K, gone: set<K>): (kept: seq<T>)
    ensures forall r :: r in kept <==> r in rows && key(r) !in gone
  {
    if rows == [] then []
    else
      assert rows == [rows[0]] + rows[1..];
      if key(rows[0]) in gone then Keep(rows[1..], key, gone) else [rows[0]] + Keep(rows[1..], key, gone)
  }

  function NodeId(n: Node): Id {
    n.id
  }

  function EdgeId(e: Edge): Id {
    e.id
  }

  function ChunkOf(m: Mention): string {
    m.chunk
  }

  /** The chunks of mentions that are not live any more. */
  function StaleChunks(mentions: seq<Mention>, live: set<string>): set<string> {
    set m | m in mentions && m.chunk !in live :: m.chunk
  }

  function Prune(mentions: seq<Mention>, live: set<string>): (kept: seq<Mention>)
    ensures forall m :: m in kept <==> m in mentions && m.chunk in live
  {
    Keep(mentions, ChunkOf, StaleChunks(mentions, live))
  }

  /** One pass that is not skipped, on tables that exist. */
  ghost function Collect(nodes: seq<Node>, edges: seq<Edge>, mentions: seq<Mention>): (seq<Node>, seq<Edge>) {
    var orphans := OrphanIds(nodes, edges, mentions);
    (Keep(nodes, NodeId, orphans), Keep(edges, EdgeId, DoomedIds(edges, orphans, mentions)))
  }

  ghost predicate UniqueIds(nodes: seq<Node>, edges: seq<Edge>) {
    && (forall i, j | 0 <= i < j < |nodes| :: nodes[i].id != nodes[j].id)
    && (forall i, j | 0 <= i < j < |edges| :: edges[i].id != edges[j].id)
  }

  // ------------------------------------------------------------------ what a pass guarantees

  /** Under unique ids an exemption by id is the row's own. */
  lemma SameIdSameRow(nodes: seq<Node>, edges: seq<Edge>)
    requires UniqueIds(nodes, edges)
    ensures forall a, b | a in edges && b in edges && a.id == b.id :: a == b
    ensures forall n | n in nodes :: IsPseudoId(nodes, n.id) <==> IsModulePseudo(n)
    ensures forall e | e in edges :: IsExempt(edges, e.id) <==> IsDefRef(e)
  {
    forall n | n in nodes ensures IsPseudoId(nodes, n.id) <==> IsModulePseudo(n) {
      var i :| 0 <= i < |nodes| && nodes[i] == n;
    }
    forall e | e in edges ensures IsExempt(edges, e.id) <==> IsDefRef(e) {
      var i :| 0 <= i < |edges| && edges[i] == e;
    }
  }

  /** A node goes exactly when it is an orphan, an edge exactly when it is doomed. */
  lemma ExactlyTheGarbageGoes(nodes: seq<Node>, edges: seq<Edge>, mentions: seq<Mention>)
    ensures var (nodes', edges') := Collect(nodes, edges, mentions);
            var orphans := OrphanIds(nodes, edges, mentions);
            && (forall n | n in nodes :: n in nodes' <==> !IsOrphan(n, nodes, edges, mentions))
            && (forall n | n in nodes' :: n in nodes) && (forall e | e in edges' :: e in edges)
            && (UniqueIds(nodes, edges) ==>
                forall e | e in edges :: e in edges' <==> !IsDoomed(e, edges, orphans, mentions))
  {
    var orphans := OrphanIds(nodes, edges, mentions);
    forall n | n in nodes ensures n.id in orphans <==> IsOrphan(n, nodes, edges, mentions) {
      if n.id in orphans {
        var m :| m in nodes && IsOrphan(m, nodes, edges, mentions) && m.id == n.id;
      }
    }
    var doomed := DoomedIds(edges, orphans, mentions);
    if UniqueIds(nodes, edges) {
      SameIdSameRow(nodes, edges);
      forall e | e in edges ensures e.id in doomed <==> IsDoomed(e, edges, orphans, mentions) {
        if e.id in doomed {
          var d :| d in edges && IsDoomed(d, edges, orphans, mentions) && d.id == e.id;
        }
      }
    }
  }

  /** A file-scoped node of the def/ref walker. */
  ghost predicate IsModuleNode(n: Node) {
    n.entityType == "code_symbol" && exists path: string :: n.subtype == Some(path + "-defref-module")
  }

  lemma ModuleNodesEndSo(n: Node)
    ensures IsModulePseudo(n) <==> IsModuleNode(n)
  {
    var suffix := "-defref-module";
    if IsModulePseudo(n) {
      var s := n.subtype.value;
      assert s == s[..|s| - |suffix|] + suffix;
    }
    if path: string :| n.subtype == Some(path + suffix) {
      assert (path + suffix)[|path|..] == suffix;
    }
  }

  /** A relation between symbols of the code. */
  predicate IsCodeRelation(e: Edge) {
    e.rel in {"calls", "imports", "defines", "inherits"} || e.extraction in {Some("extracted"), Some("inferred")}
  }

  /** A node goes exactly when no chunk mentions it, no row of its id is a module node, and no code relation has it as
      an end. */
  lemma NodesGoExactlyWhen(nodes: seq<Node>, edges: seq<Edge>, mentions: seq<Mention>, n: Node)
    requires n in nodes
    ensures n !in Collect(nodes, edges, mentions).0 <==>
              && (forall m | m in mentions :: m.entity != n.id)
              && (forall x | x in nodes && x.id == n.id :: !IsModuleNode(x))
              && (forall e | e in edges && IsCodeRelation(e) :: e.source != n.id && e.target != n.id)
  {
    ExactlyTheGarbageGoes(nodes, edges, mentions);
    forall x ensures IsModulePseudo(x) <==> IsModuleNode(x) {
      ModuleNodesEndSo(x);
    }
    assert Mentioned(mentions, n.id) <==> exists m | m in mentions :: m.entity == n.id;
    assert IsPseudoId(nodes, n.id) <==> exists x | x in nodes :: x.id == n.id && IsModuleNode(x);
    assert IsDefRefEndpoint(edges, n.id) <==>
           exists e | e in edges :: IsCodeRelation(e) && (e.source == n.id || e.target == n.id);
  }

  /** Of edges with ids of their own, one goes exactly when it is no code relation, and an end of it goes or it is a
      relation that only prose gives and no chunk mentions both its ends any more. */
  lemma EdgesGoExactlyWhen(nodes: seq<Node>, edges: seq<Edge>, mentions: seq<Mention>, e: Edge)
    requires UniqueIds(nodes, edges) && e in edges
    ensures var (nodes', edges') := Collect(nodes, edges, mentions);
            e !in edges' <==>
              && !IsCodeRelation(e)
              && (|| (exists n | n in nodes && n !in nodes' :: n.id == e.source || n.id == e.target)
                  || (e.rel in {"related_to", "uses", "implements", "depends_on"}
                      && forall c: string :: Mention(e.source, c) !in mentions || Mention(e.target, c) !in mentions))
  {
    var (nodes', edges') := Collect(nodes, edges, mentions);
    var orphans := OrphanIds(nodes, edges, mentions);
    ExactlyTheGarbageGoes(nodes, edges, mentions);
    SameIdSameRow(nodes, edges);
    forall v: Id ensures v in orphans <==> exists n | n in nodes && n !in nodes' :: n.id == v {
      if v in orphans {
        var n :| n in nodes && IsOrphan(n, nodes, edges, mentions) && n.id == v;
      }
    }
  }

  /** No surviving edge touches a deleted node, and every surviving prose edge that is not exempt is
      co-mentioned in some chunk. */
  lemma SurvivingEdgesAreSupported(nodes: seq<Node>, edges: seq<Edge>, mentions: seq<Mention>, e: Edge)
    requires UniqueIds(nodes, edges) && e in Collect(nodes, edges, mentions).1
    ensures e.source !in OrphanIds(nodes, edges, mentions) && e.target !in OrphanIds(nodes, edges, mentions)
    ensures IsMentionDerived(e.rel) && !IsDefRef(e) ==> CoMentioned(mentions, e.source, e.target)
  {
    ExactlyTheGarbageGoes(nodes, edges, mentions);
    SameIdSameRow(nodes, edges);
    if IsDefRef(e) {
      var i :| 0 <= i < |edges| && edges[i] == e;
      assert IsDefRefEndpoint(edges, e.source) && IsDefRefEndpoint(edges, e.target);
    }
  }

  /** After pruning, the chunk that supports a surviving prose edge is a live one. */
  lemma SurvivingEdgesAreSupportedByLiveChunks(nodes: seq<Node>, edges: seq<Edge>, mentions: seq<Mention>,
                                               live: set<string>, e: Edge)
    requires UniqueIds(nodes, edges) && e in Collect(nodes, edges, Prune(mentions, live)).1
    requires IsMentionDerived(e.rel) && !IsDefRef(e)
    ensures exists c | c in live :: Mention(e.source, c) in mentions && Mention(e.target, c) in mentions
  {
    SurvivingEdgesAreSupported(nodes, edges, Prune(mentions, live), e);
    var c: string :| Mention(e.source, c) in Prune(mentions, live) && Mention(e.target, c) in Prune(mentions, live);
    assert Mention(e.source, c).chunk in live;
  }

  lemma {:induction false} NothingToDrop<T(!new), K>(rows: seq<T>, key: T -> K)
    ensures Keep(rows, key, {}) == rows
  {
    if rows != [] {
      NothingToDrop(rows[1..], key);
    }
  }

  /** A second pass over the result deletes nothing. */
  lemma ASecondPassDeletesNothing(nodes: seq<Node>, edges: seq<Edge>, mentions: seq<Mention>)
    requires UniqueIds(nodes, edges)
    ensures var (nodes', edges') := Collect(nodes, edges, mentions);
            Collect(nodes', edges', mentions) == (nodes', edges')
  {
    var (nodes', edges') := Collect(nodes, edges, mentions);
    var orphans := OrphanIds(nodes, edges, mentions);
    ExactlyTheGarbageGoes(nodes, edges, mentions);
    SameIdSameRow(nodes, edges);
    forall n | n in nodes' ensures !IsOrphan(n, nodes', edges', mentions) {
      ExemptionsStay(nodes, edges, mentions, n);
    }
    assert OrphanIds(nodes', edges', mentions) == {};
    forall e | e in edges' ensures !IsDoomed(e, edges', {}, mentions) {
      assert !IsDoomed(e, edges, orphans, mentions);
      if IsDefRef(e) {
        var i :| 0 <= i < |edges'| && edges'[i] == e;
        assert IsExempt(edges', e.id);
      }
    }
    assert DoomedIds(edges', {}, mentions) == {};
    NothingToDrop(nodes', NodeId);
    NothingToDrop(edges', EdgeId);
  }

  /** What exempted a surviving node survives too. */
  lemma ExemptionsStay(nodes: seq<Node>, edges: seq<Edge>, mentions: seq<Mention>, n: Node)
    requires UniqueIds(nodes, edges) && n in Collect(nodes, edges, mentions).0
    ensures var (nodes', edges') := Collect(nodes, edges, mentions); !IsOrphan(n, nodes', edges', mentions)
  {
    var (nodes', edges') := Collect(nodes, edges, mentions);
    ExactlyTheGarbageGoes(nodes, edges, mentions);
    SameIdSameRow(nodes, edges);
    if IsModulePseudo(n) {
      var i :| 0 <= i < |nodes'| && nodes'[i] == n;
      assert IsPseudoId(nodes', n.id);
    }
    if IsDefRefEndpoint(edges, n.id) {
      var i :| 0 <= i < |edges| && IsDefRef(edges[i]) && (edges[i].source == n.id || edges[i].target == n.id);
      assert edges[i] in edges && edges[i] in edges';
      var j :| 0 <= j < |edges'| && edges'[j] == edges[i];
      assert IsDefRefEndpoint(edges', n.id);
    }
  }

  // ------------------------------------------------------------------ counting

  /** `[row for row in rows if bad(row)]` */
  function Garbage<T>(rows: seq<T>, bad: T -> bool): seq<T> {
    if rows == [] then [] else if bad(rows[0]) then [rows[0]] + Garbage(rows[1..], bad) else Garbage(rows[1..], bad)
  }

  lemma {:induction false} GarbageCounts<T(!new), K>(rows: seq<T>, key: T -> K, gone: set<K>, bad: T -> bool)
    requires forall r | r in rows :: key(r) in gone <==> bad(r)
    ensures |Keep(rows, key, gone)| + |Garbage(rows, bad)| == |rows|
  {
    if rows != [] {
      assert rows[0] in rows && forall r | r in rows[1..] :: r in rows;
      GarbageCounts(rows[1..], key, gone, bad);
    }
  }

  lemma {:induction false} GarbageGrows<T>(rows: seq<T>, last: T, bad: T -> bool)
    ensures Garbage(rows + [last], bad) == Garbage(rows, bad) + (if bad(last) then [last] else [])
  {
    if rows == [] {
      assert rows + [last] == [last];
    } else {
      assert (rows + [last])[1..] == rows[1..] + [last];
      GarbageGrows(rows[1..], last, bad);
    }
  }

  lemma {:induction false} KeepInSteps<T(!new), K>(rows: seq<T>, key: T -> K, a: set<K>, b: set<K>)
    ensures Keep(Keep(rows, key, a), key, b) == Keep(rows, key, a + b)
  {
    if rows != [] {
      KeepInSteps(rows[1..], key, a, b);
      var k := Keep(rows[1..], key, a);
      assert ([rows[0]] + k)[1..] == k;
    }
  }

  // ------------------------------------------------------------------ the loops

  datatype GcPassResult = GcPassResult(orphanNodesRemoved: nat, orphanEdgesRemoved: nat)

  /** `table.delete(_where_in(column, ids))` in batches. */
  method DeleteInBatches<T(!new), K(==)>(rows: seq<T>, key: T -> K, ids: seq<K>) returns (left: seq<T>)
    ensures left == Keep(rows, key, Members(ids))
  {
    left := rows;
    NothingToDrop(rows, key);
    assert Members(ids[..0]) == {};
    var i := 0;
    while i < |ids|
      invariant 0 <= i <= |ids| && left == Keep(rows, key, Members(ids[..i]))
    {
      var end := if i + DELETE_BATCH_SIZE < |ids| then i + DELETE_BATCH_SIZE else |ids|;
      var batch := ids[i..end];
      KeepInSteps(rows, key, Members(ids[..i]), Members(batch));
      assert ids[..end] == ids[..i] + batch;
      assert Members(ids[..end]) == Members(ids[..i]) + Members(batch);
      left := Keep(left, key, Members(batch));
      i := end;
    }
    assert ids[..|ids|] == ids;
  }

  /** Entity to the chunks it is mentioned in. */
  method ChunksOfEntities(rows: seq<Mention>) returns (chunks: map<Id, set<string>>)
    ensures forall id :: id in chunks <==> Mentioned(rows, id)
    ensures forall id, c | id in chunks :: c in chunks[id] <==> Mention(id, c) in rows
  {
    chunks := map[];
    for i := 0 to |rows|
      invariant forall id :: id in chunks <==> exists j | 0 <= j < i :: rows[j].entity == id
      invariant forall id, c | id in chunks :: c in chunks[id] <==> Mention(id, c) in rows[..i]
    {
      var m := rows[i];
      assert rows[..i + 1] == rows[..i] + [m];
      var had := if m.entity in chunks then chunks[m.entity] else {};
      assert forall c :: c in had <==> Mention(m.entity, c) in rows[..i];
      chunks := chunks[m.entity := had + {m.chunk}];
    }
    assert rows[..|rows|] == rows;
  }

  ghost predicate Describes(chunks: map<Id, set<string>>, rows: seq<Mention>) {
    && (forall id :: id in chunks <==> Mentioned(rows, id))
    && (forall id, c | id in chunks :: c in chunks[id] <==> Mention(id, c) in rows)
  }

  lemma EmptyTogether(chunks: map<Id, set<string>>, rows: seq<Mention>)
    requires forall id :: id in chunks <==> Mentioned(rows, id)
    ensures chunks == map[] <==> rows == []
  {
    if rows != [] {
      assert Mentioned(rows, rows[0].entity);
    } else {
      assert forall id :: !Mentioned(rows, id);
    }
  }

  lemma CommonChunks(chunks: map<Id, set<string>>, rows: seq<Mention>, a: Id, b: Id)
    requires Describes(chunks, rows)
    ensures ItemsAt(chunks, a) * ItemsAt(chunks, b) != {} <==> CoMentioned(rows, a, b)
  {
    if CoMentioned(rows, a, b) {
      var c: string :| Mention(a, c) in rows && Mention(b, c) in rows;
      assert Mentioned(rows, a) && Mentioned(rows, b);
      assert c in ItemsAt(chunks, a) * ItemsAt(chunks, b);
    }
    if c :| c in ItemsAt(chunks, a) * ItemsAt(chunks, b) {
      assert Mention(a, c) in rows && Mention(b, c) in rows;
    }
  }

  /** Endpoints and ids of def/ref edges. */
  method DefRefExemptions(rows: seq<Edge>) returns (nodeIds: set<Id>, edgeIds: set<Id>)
    ensures forall id :: id in nodeIds <==> IsDefRefEndpoint(rows, id)
    ensures forall id :: id in edgeIds <==> IsExempt(rows, id)
  {
    nodeIds, edgeIds := {}, {};
    for i := 0 to |rows|
      invariant forall id ::
                  id in nodeIds <==>
                    exists j | 0 <= j < i :: IsDefRef(rows[j]) && (rows[j].source == id || rows[j].target == id)
      invariant forall id :: id in edgeIds <==> exists j | 0 <= j < i :: IsDefRef(rows[j]) && rows[j].id == id
    {
      if IsDefRef(rows[i]) {
        nodeIds := nodeIds + {rows[i].source, rows[i].target};
        edgeIds := edgeIds + {rows[i].id};
      }
    }
  }

  /** The ids of module pseudo nodes. */
  method PseudoIds(nodes: seq<Node>) returns (ids: set<Id>)
    ensures forall id :: id in ids <==> IsPseudoId(nodes, id)
  {
    ids := {};
    for i := 0 to |nodes|
      invariant forall id :: id in ids <==> exists j | 0 <= j < i :: IsModulePseudo(nodes[j]) && nodes[j].id == id
    {
      if IsModulePseudo(nodes[i]) {
        ids := ids + {nodes[i].id};
      }
    }
  }

  ghost function OrphanTest(nodes: seq<Node>, edges: seq<Edge>, mentions: seq<Mention>): Node -> bool {
    (n: Node) => IsOrphan(n, nodes, edges, mentions)
  }

  /** The ids of the orphan nodes, one per row. */
  method ListOrphans(nodes: seq<Node>, ghost edges: seq<Edge>, ghost mentions: seq<Mention>,
                     chunks: map<Id, set<string>>, pseudo: set<Id>, exempt: set<Id>)
    returns (orphans: seq<Id>)
    requires Describes(chunks, mentions) && (forall id :: id in exempt <==> IsDefRefEndpoint(edges, id))
    requires forall id :: id in pseudo <==> IsPseudoId(nodes, id)
    ensures Members(orphans) == OrphanIds(nodes, edges, mentions)
    ensures |orphans| == |Garbage(nodes, OrphanTest(nodes, edges, mentions))|
  {
    orphans := [];
    ghost var bad := OrphanTest(nodes, edges, mentions);
    for i := 0 to |nodes|
      invariant forall id ::
                  id in orphans <==> exists n | n in nodes[..i] :: n.id == id && IsOrphan(n, nodes, edges, mentions)
      invariant |orphans| == |Garbage(nodes[..i], bad)|
    {
      var n := nodes[i];
      assert nodes[..i + 1] == nodes[..i] + [n];
      GarbageGrows(nodes[..i], n, bad);
      assert bad(n) <==> n.id !in chunks && n.id !in pseudo && n.id !in exempt;
      if n.id !in chunks && n.id !in pseudo && n.id !in exempt {
        orphans := orphans + [n.id];
      }
    }
    assert nodes[..|nodes|] == nodes;
  }

  /** Step 3: an endpoint is an orphan. */
  predicate GoesWithEndpoint(e: Edge, edges: seq<Edge>, orphans: set<Id>) {
    !IsExempt(edges, e.id) && (e.source in orphans || e.target in orphans)
  }

  /** Step 3b: no chunk mentions both endpoints; `gone` are the ids of step 3. */
  predicate IsUnsupported(e: Edge, edges: seq<Edge>, gone: set<Id>, chunks: map<Id, set<string>>) {
    && IsMentionDerived(e.rel) && !IsExempt(edges, e.id) && e.id !in gone && !IsDefRef(e)
    && ItemsAt(chunks, e.source) * ItemsAt(chunks, e.target) == {}
  }

  ghost function EndpointTest(edges: seq<Edge>, orphans: set<Id>): Edge -> bool {
    (e: Edge) => GoesWithEndpoint(e, edges, orphans)
  }

  function GoneWithEndpoints(edges: seq<Edge>, orphans: set<Id>): set<Id> {
    set e | e in edges && GoesWithEndpoint(e, edges, orphans) :: e.id
  }

  ghost function SupportTest(edges: seq<Edge>, orphans: set<Id>, chunks: map<Id, set<string>>): Edge -> bool {
    (e: Edge) => IsUnsupported(e, edges, GoneWithEndpoints(edges, orphans), chunks)
  }

  /** Step 3, one id per row. */
  method ListGoneWithEndpoints(edges: seq<Edge>, orphans: set<Id>, exempt: set<Id>) returns (gone: seq<Id>)
    requires forall id :: id in exempt <==> IsExempt(edges, id)
    ensures Members(gone) == GoneWithEndpoints(edges, orphans)
    ensures |gone| == |Garbage(edges, EndpointTest(edges, orphans))|
  {
    ghost var goes := EndpointTest(edges, orphans);
    gone := [];
    for i := 0 to |edges|
      invariant forall id ::
                  id in gone <==> exists e | e in edges[..i] :: e.id == id && GoesWithEndpoint(e, edges, orphans)
      invariant |gone| == |Garbage(edges[..i], goes)|
    {
      var e := edges[i];
      assert edges[..i + 1] == edges[..i] + [e];
      GarbageGrows(edges[..i], e, goes);
      assert goes(e) <==> e.id !in exempt && (e.source in orphans || e.target in orphans);
      if e.id !in exempt && (e.source in orphans || e.target in orphans) {
        gone := gone + [e.id];
      }
    }
    assert edges[..|edges|] == edges;
  }

  /** Step 3b, one id per row. */
  method ListUnsupported(edges: seq<Edge>, ghost orphans: set<Id>, gone: set<Id>, exempt: set<Id>,
                         chunks: map<Id, set<string>>)
    returns (more: seq<Id>)
    requires (forall id :: id in exempt <==> IsExempt(edges, id)) && gone == GoneWithEndpoints(edges, orphans)
    ensures forall id :: id in more <==> exists e | e in edges :: e.id == id && IsUnsupported(e, edges, gone, chunks)
    ensures |more| == |Garbage(edges, SupportTest(edges, orphans, chunks))|
  {
    ghost var unsupported := SupportTest(edges, orphans, chunks);
    more := [];
    for i := 0 to |edges|
      invariant forall id ::
                  id in more <==> exists e | e in edges[..i] :: e.id == id && IsUnsupported(e, edges, gone, chunks)
      invariant |more| == |Garbage(edges[..i], unsupported)|
    {
      var e := edges[i];
      assert edges[..i + 1] == edges[..i] + [e];
      GarbageGrows(edges[..i], e, unsupported);
      var meets := ItemsAt(chunks, e.source) * ItemsAt(chunks, e.target) != {};
      assert unsupported(e) <==> IsMentionDerived(e.rel) && e.id !in exempt && e.id !in gone && !IsDefRef(e) && !meets;
      if IsMentionDerived(e.rel) && e.id !in exempt && e.id !in gone && !IsDefRef(e) && !meets {
        more := more + [e.id];
      }
    }
    assert edges[..|edges|] == edges;
  }

  lemma DoomedInTwoSteps(edges: seq<Edge>, orphans: set<Id>, mentions: seq<Mention>, chunks: map<Id, set<string>>,
                         id: Id)
    requires Describes(chunks, mentions)
    ensures var gone := GoneWithEndpoints(edges, orphans);
            id in DoomedIds(edges, orphans, mentions) <==>
                id in gone || exists e | e in edges :: e.id == id && IsUnsupported(e, edges, gone, chunks)
  {
    var gone := GoneWithEndpoints(edges, orphans);
    if id in DoomedIds(edges, orphans, mentions) {
      var e :| e in edges && IsDoomed(e, edges, orphans, mentions) && e.id == id;
      CommonChunks(chunks, mentions, e.source, e.target);
      NotDefRef(edges, e);
      assert GoesWithEndpoint(e, edges, orphans) || id in gone || IsUnsupported(e, edges, gone, chunks);
    }
    if e :| e in edges && e.id == id && IsUnsupported(e, edges, gone, chunks) {
      CommonChunks(chunks, mentions, e.source, e.target);
    }
  }

  lemma NotDefRef(edges: seq<Edge>, e: Edge)
    requires e in edges && !IsExempt(edges, e.id)
    ensures !IsDefRef(e)
  {
    var i :| 0 <= i < |edges| && edges[i] == e;
  }

  /** The ids of the doomed edges: those that go with an endpoint, then those no chunk supports. */
  method ListDoomed(edges: seq<Edge>, orphans: set<Id>, ghost mentions: seq<Mention>, chunks: map<Id, set<string>>,
                    exempt: set<Id>)
    returns (doomed: seq<Id>)
    requires Describes(chunks, mentions) && forall id :: id in exempt <==> IsExempt(edges, id)
    ensures Members(doomed) == DoomedIds(edges, orphans, mentions)
    ensures |doomed|
              == |Garbage(edges, EndpointTest(edges, orphans))| + |Garbage(edges, SupportTest(edges, orphans, chunks))|
  {
    var gone := ListGoneWithEndpoints(edges, orphans, exempt);
    var goneIds := set id | id in gone;
    assert goneIds == Members(gone);
    var more := ListUnsupported(edges, orphans, goneIds, exempt, chunks);
    forall id ensures id in gone + more <==> id in DoomedIds(edges, orphans, mentions) {
      DoomedInTwoSteps(edges, orphans, mentions, chunks, id);
    }
    doomed := gone + more;
  }

  /** The graph tables of one collection; a table that does not exist is `None`. */
  class GraphTables {
    var nodes: Option<seq<Node>>
    var edges: Option<seq<Edge>>
    var mentions: Option<seq<Mention>>

    constructor (nodes: Option<seq<Node>>, edges: Option<seq<Edge>>, mentions: Option<seq<Mention>>)
      ensures this.nodes == nodes && this.edges == edges && this.mentions == mentions
    {
      this.nodes, this.edges, this.mentions := nodes, edges, mentions;
    }

    /** `prune_stale_mentions`: `pruned` counts the rows that were stale. */
    method PruneStaleMentions(live: set<string>) returns (pruned: nat)
      modifies this`mentions
      ensures mentions.Some? == old(mentions).Some? && (mentions.None? ==> pruned == 0)
      ensures mentions.Some? ==>
                mentions.value == Prune(old(mentions).value, live) && |mentions.value| + pruned == |old(mentions).value|
    {
      if mentions.None? {
        return 0;
      }
      var rows := mentions.value;
      var stale := [];
      ghost var isStale := (m: Mention) => m.chunk !in live;
      for i := 0 to |rows|
        invariant forall c :: c in stale <==> exists m | m in rows[..i] :: m.chunk == c && m.chunk !in live
        invariant |stale| == |Garbage(rows[..i], isStale)|
      {
        assert rows[..i + 1] == rows[..i] + [rows[i]];
        GarbageGrows(rows[..i], rows[i], isStale);
        if rows[i].chunk !in live {
          stale := stale + [rows[i].chunk];
        }
      }
      assert rows[..|rows|] == rows;
      assert Members(stale) == StaleChunks(rows, live);
      GarbageCounts(rows, ChunkOf, StaleChunks(rows, live), isStale);
      var left := DeleteInBatches(rows, ChunkOf, stale);
      mentions := Some(left);
      pruned := |stale|;
    }

    /** Whether a pass runs: there are mentions to judge by, or the caller knows that no chunk is live. */
    predicate Judgeable(noLiveChunks: bool)
      reads this
    {
      mentions.Some? && nodes.Some? && (mentions.value != [] || noLiveChunks)
    }

    /** `delete_orphan_nodes_and_edges` */
    method DeleteOrphanNodesAndEdges(noLiveChunks: bool) returns (result: GcPassResult)
      modifies this`nodes, this`edges
      ensures edges.Some? == old(edges).Some? && nodes.Some? == old(nodes).Some?
      ensures !old(Judgeable(noLiveChunks)) ==>
                nodes == old(nodes) && edges == old(edges) && result == GcPassResult(0, 0)
      ensures old(Judgeable(noLiveChunks)) ==>
                (nodes.value, edges.GetOr([])) == Collect(old(nodes).value, old(edges).GetOr([]), mentions.value)
      ensures old(Judgeable(noLiveChunks)) ==> |nodes.value| + result.orphanNodesRemoved == |old(nodes).value|
      ensures old(Judgeable(noLiveChunks)) && UniqueIds(old(nodes).value, old(edges).GetOr([])) ==>
                |edges.GetOr([])| + result.orphanEdgesRemoved == |old(edges).GetOr([])|
    {
      if mentions.None? {
        return GcPassResult(0, 0);
      }
      var chunks := ChunksOfEntities(mentions.value);
      EmptyTogether(chunks, mentions.value);
      if chunks == map[] && !noLiveChunks {
        return GcPassResult(0, 0);
      }
      if nodes.None? {
        return GcPassResult(0, 0);
      }
      var nodeRows, edgeRows := nodes.value, edges.GetOr([]);
      var orphans, doomed := ListGarbage(nodeRows, edgeRows, mentions.value, chunks);
      if edges.Some? {
        var left := DeleteInBatches(edgeRows, EdgeId, doomed);
        edges := Some(left);
      } else {
        assert Keep(edgeRows, EdgeId, Members(doomed)) == [];
      }
      var left := DeleteInBatches(nodeRows, NodeId, orphans);
      nodes := Some(left);
      result := GcPassResult(|orphans|, |doomed|);
    }
  }

  /** Steps 2 to 3b: what to delete. */
  method ListGarbage(nodes: seq<Node>, edges: seq<Edge>, ghost mentions: seq<Mention>, chunks: map<Id, set<string>>)
    returns (orphans: seq<Id>, doomed: seq<Id>)
    requires Describes(chunks, mentions)
    ensures Members(orphans) == OrphanIds(nodes, edges, mentions)
    ensures Members(doomed) == DoomedIds(edges, OrphanIds(nodes, edges, mentions), mentions)
    ensures |Collect(nodes, edges, mentions).0| + |orphans| == |nodes|
    ensures UniqueIds(nodes, edges) ==> |Collect(nodes, edges, mentions).1| + |doomed| == |edges|
  {
    var pseudo := PseudoIds(nodes);
    var exemptNodes, exemptEdges := DefRefExemptions(edges);
    orphans := ListOrphans(nodes, edges, mentions, chunks, pseudo, exemptNodes);
    var orphanSet := set id | id in orphans;
    assert orphanSet == Members(orphans);
    doomed := ListDoomed(edges, orphanSet, mentions, chunks, exemptEdges);
    OrphanCountIsExact(nodes, edges, mentions);
    if UniqueIds(nodes, edges) {
      CountsAreExact(nodes, edges, mentions, chunks);
    }
  }

  lemma {:induction false} DisjointGarbage<T>(rows: seq<T>, a: T -> bool, b: T -> bool, both: T -> bool)
    requires forall r | r in rows :: !(a(r) && b(r)) && (both(r) <==> a(r) || b(r))
    ensures |Garbage(rows, both)| == |Garbage(rows, a)| + |Garbage(rows, b)|
  {
    if rows != [] {
      assert rows[0] in rows && forall r | r in rows[1..] :: r in rows;
      DisjointGarbage(rows[1..], a, b, both);
    }
  }

  /** One orphan id is listed per row that goes. */
  lemma OrphanCountIsExact(nodes: seq<Node>, edges: seq<Edge>, mentions: seq<Mention>)
    ensures |Collect(nodes, edges, mentions).0| + |Garbage(nodes, OrphanTest(nodes, edges, mentions))| == |nodes|
  {
    var orphans := OrphanIds(nodes, edges, mentions);
    forall n | n in nodes ensures n.id in orphans <==> IsOrphan(n, nodes, edges, mentions) {
      if n.id in orphans {
        var m :| m in nodes && IsOrphan(m, nodes, edges, mentions) && m.id == n.id;
      }
    }
    GarbageCounts(nodes, NodeId, orphans, OrphanTest(nodes, edges, mentions));
  }

  /** Under unique ids the edge lists count exactly the rows that go. */
  lemma CountsAreExact(nodes: seq<Node>, edges: seq<Edge>, mentions: seq<Mention>, chunks: map<Id, set<string>>)
    requires UniqueIds(nodes, edges) && Describes(chunks, mentions)
    ensures var orphans := OrphanIds(nodes, edges, mentions);
            |Collect(nodes, edges, mentions).1| + |Garbage(edges, EndpointTest(edges, orphans))|
                + |Garbage(edges, SupportTest(edges, orphans, chunks))| == |edges|
  {
    var orphans := OrphanIds(nodes, edges, mentions);
    var gone := GoneWithEndpoints(edges, orphans);
    var bad := (e: Edge) => GoesWithEndpoint(e, edges, orphans) || IsUnsupported(e, edges, gone, chunks);
    SameIdSameRow(nodes, edges);
    forall e | e in edges
      ensures e.id in DoomedIds(edges, orphans, mentions) <==> bad(e)
      ensures !(GoesWithEndpoint(e, edges, orphans) && IsUnsupported(e, edges, gone, chunks))
    {
      DoomedInTwoSteps(edges, orphans, mentions, chunks, e.id);
    }
    GarbageCounts(edges, EdgeId, DoomedIds(edges, orphans, mentions), bad);
    DisjointGarbage(edges, EndpointTest(edges, orphans), SupportTest(edges, orphans, chunks), bad);
  }
}
