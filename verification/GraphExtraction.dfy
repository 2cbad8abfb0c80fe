/** Extraction of entities and relationships from the chunks of one document
    (archon_search/graph_extractor.py, `GraphExtractor.extract` and `_build_typed_relation_edge`), and why a
    later garbage collection leaves what it emitted for live chunks alone.

    The prose engine's answer is part of the input.  Stable ids are digests, given as functions; nothing here needs
    them to be injective. */
module GraphExtraction {
  import opened Options
  import opened GraphGc

  datatype Entity = Entity(text: string, kind: string)
  datatype Relation = Relation(head: string, tail: string, kind: string)
  datatype CodeChunk = CodeChunk(chunkId: string, qualifiedName: string, subtype: Option<string>)
  datatype TextChunk = TextChunk(chunkId: string, entities: seq<Entity>, relations: seq<Relation>)

  const RELATED_TO := "related_to"
  const CODE_SYMBOL := "code_symbol"

  predicate IsEntityType(kind: string) {
    kind in {"person", "concept", "system", "event", "code_symbol"}
  }

  predicate IsRelationshipType(kind: string) {
    kind in {"uses", "implements", "depends_on", "related_to", "synonym_of", "calls", "imports", "defines", "inherits"}
  }

  /** `make_stable_entity_id` and `make_stable_edge_id`. */
  datatype Ids = Ids(entity: (string, string) -> Id, edge: (Id, Id, string) -> Id)

  /** What has been collected so far: nodes by id, mention rows, edges by id. */
  datatype Graph = Graph(nodes: map<Id, Node>, mentions: seq<Mention>, edges: map<Id, Edge>)

  /** Every node is mentioned, and the two endpoints of every edge are mentioned in one chunk. */
  ghost predicate Supported(g: Graph) {
    && (forall k | k in g.nodes :: g.nodes[k].id == k && Mentioned(g.mentions, k))
    && (forall k | k in g.edges :: g.edges[k].id == k && CoMentioned(g.mentions, g.edges[k].source, g.edges[k].target))
  }

  /** Mentions only of the given chunks. */
  ghost predicate OnlyOf(mentions: seq<Mention>, chunks: set<string>) {
    forall m | m in mentions :: m.chunk in chunks
  }

  /** `g` grew into `h` by mentions of `ids` in one chunk and nodes for them. */
  ghost predicate Grows(g: Graph, h: Graph, chunkId: string, ids: iset<Id>) {
    && h.edges == g.edges
    && (forall k :: k in h.nodes <==> k in g.nodes || k in ids)
    && (forall k | k in g.nodes :: k in h.nodes && h.nodes[k] == g.nodes[k])
    && (forall m :: m in h.mentions <==> m in g.mentions || (m.chunk == chunkId && m.entity in ids))
  }

  // ------------------------------------------------------------------ node rows

  /** A node, unless its id is taken. */
  function WithNode(nodes: map<Id, Node>, n: Node): map<Id, Node> {
    if n.id in nodes then nodes else nodes[n.id := n]
  }

  function WithNodes(nodes: map<Id, Node>, rows: seq<Node>): map<Id, Node> {
    if rows == [] then nodes else WithNode(WithNodes(nodes, rows[..|rows| - 1]), rows[|rows| - 1])
  }

  /** `n` is the first row of its id. */
  ghost predicate IsFirst(rows: seq<Node>, n: Node) {
    exists i | 0 <= i < |rows| :: rows[i] == n && forall j | 0 <= j < i :: rows[j].id != n.id
  }

  lemma {:induction false} RowsGiveTheKeys(rows: seq<Node>, k: Id)
    ensures k in WithNodes(map[], rows) <==> exists i | 0 <= i < |rows| :: rows[i].id == k
    ensures k in WithNodes(map[], rows) ==> WithNodes(map[], rows)[k].id == k
  {
    if rows != [] {
      var before := rows[..|rows| - 1];
      RowsGiveTheKeys(before, k);
      if i :| 0 <= i < |before| && before[i].id == k {
        assert rows[i].id == k;
      }
    }
  }

  lemma FirstStaysFirst(rows: seq<Node>, n: Node)
    requires rows != [] && IsFirst(rows[..|rows| - 1], n)
    ensures IsFirst(rows, n)
  {
    var before := rows[..|rows| - 1];
    var i :| 0 <= i < |before| && before[i] == n && forall j | 0 <= j < i :: before[j].id != n.id;
    assert rows[i] == before[i] && forall j | 0 <= j < i :: rows[j] == before[j];
  }

  lemma {:induction false} TheFirstRowsStay(rows: seq<Node>, k: Id)
    requires k in WithNodes(map[], rows)
    ensures IsFirst(rows, WithNodes(map[], rows)[k])
  {
    var before, last := rows[..|rows| - 1], rows[|rows| - 1];
    if k in WithNodes(map[], before) {
      TheFirstRowsStay(before, k);
      FirstStaysFirst(rows, WithNodes(map[], before)[k]);
    } else {
      RowsGiveTheKeys(before, k);
      assert last.id == k && forall j | 0 <= j < |before| :: rows[j] == before[j];
    }
  }

  lemma {:induction false} WithNodesInTwo(nodes: map<Id, Node>, a: seq<Node>, b: seq<Node>)
    ensures WithNodes(WithNodes(nodes, a), b) == WithNodes(nodes, a + b)
    decreases |b|
  {
    if b == [] {
      assert a + b == a;
    } else {
      var n := |b| - 1;
      assert (a + b)[..|a + b| - 1] == a + b[..n];
      WithNodesInTwo(nodes, a, b[..n]);
    }
  }

  lemma MoreMentionsSupportMore(g: Graph, h: Graph)
    requires Supported(g) && h.nodes == g.nodes && h.edges == g.edges && forall m | m in g.mentions :: m in h.mentions
    ensures Supported(h)
  {
    forall k | k in h.nodes ensures Mentioned(h.mentions, k) {
      var i :| 0 <= i < |g.mentions| && g.mentions[i].entity == k;
      assert g.mentions[i] in h.mentions;
    }
    forall k | k in h.edges ensures CoMentioned(h.mentions, h.edges[k].source, h.edges[k].target) {
      var c: string :| Mention(g.edges[k].source, c) in g.mentions && Mention(g.edges[k].target, c) in g.mentions;
    }
  }

  /** A node, if it is new, and its mention in a chunk. */
  method AddMention(g: Graph, node: Node, chunkId: string) returns (h: Graph)
    requires Supported(g)
    ensures Supported(h) && Grows(g, h, chunkId, iset{node.id}) && h.nodes == WithNode(g.nodes, node)
  {
    var mentions := g.mentions + [Mention(node.id, chunkId)];
    MoreMentionsSupportMore(g, g.(mentions := mentions));
    assert mentions[|mentions| - 1].entity == node.id;
    h := g.(mentions := mentions, nodes := if node.id in g.nodes then g.nodes else g.nodes[node.id := node]);
  }

  function CodeId(ids: Ids, chunk: CodeChunk): Id {
    ids.entity(CODE_SYMBOL, chunk.qualifiedName)
  }

  function CodeNode(ids: Ids, chunk: CodeChunk): Node {
    Node(CodeId(ids, chunk), CODE_SYMBOL, chunk.subtype)
  }

  /** The code-symbol path: one entity per code chunk, so no pair to relate. */
  method ExtractCode(g: Graph, ids: Ids, chunk: CodeChunk) returns (h: Graph)
    requires Supported(g)
    ensures Supported(h) && Grows(g, h, chunk.chunkId, iset{CodeId(ids, chunk)})
    ensures h.nodes == WithNode(g.nodes, CodeNode(ids, chunk))
  {
    h := AddMention(g, CodeNode(ids, chunk), chunk.chunkId);
  }

  function IdOf(ids: Ids, e: Entity): Id {
    ids.entity(e.kind, e.text)
  }

  /** The entities of a chunk whose type the graph knows. */
  ghost predicate InChunk(chunk: TextChunk, ids: Ids, id: Id) {
    AmongEntities(chunk.entities, ids, id)
  }

  ghost predicate AmongEntities(entities: seq<Entity>, ids: Ids, id: Id) {
    exists e | e in entities :: IsEntityType(e.kind) && ids.entity(e.kind, e.text) == id
  }

  ghost function EntityIds(entities: seq<Entity>, ids: Ids): iset<Id> {
    iset id | AmongEntities(entities, ids, id)
  }

  /** The node rows of entities, in order. */
  function EntityNodes(ids: Ids, entities: seq<Entity>): seq<Node> {
    if entities == [] then []
    else
      var last := entities[|entities| - 1];
      EntityNodes(ids, entities[..|entities| - 1])
      + if IsEntityType(last.kind) then [Node(ids.entity(last.kind, last.text), last.kind, None)] else []
  }

  /** What a name stands for in a chunk: its last entity of a known type. */
  function NameTable(ids: Ids, entities: seq<Entity>): map<string, Id> {
    if entities == [] then map[]
    else
      var last, before := entities[|entities| - 1], NameTable(ids, entities[..|entities| - 1]);
      if IsEntityType(last.kind) then before[last.text := IdOf(ids, last)] else before
  }

  lemma OneMoreEntity(entities: seq<Entity>, ids: Ids, i: nat)
    requires i < |entities|
    ensures var e := entities[i];
            EntityIds(entities[..i + 1], ids)
            == EntityIds(entities[..i], ids) + if IsEntityType(e.kind) then iset{IdOf(ids, e)} else iset{}
    ensures NameTable(ids, entities[..i + 1]) ==
            if IsEntityType(entities[i].kind)
            then NameTable(ids, entities[..i])[entities[i].text := IdOf(ids, entities[i])]
            else NameTable(ids, entities[..i])
    ensures forall nodes :: WithNodes(nodes, EntityNodes(ids, entities[..i + 1])) ==
                            if IsEntityType(entities[i].kind)
                            then WithNode(WithNodes(nodes, EntityNodes(ids, entities[..i])),
                                          Node(IdOf(ids, entities[i]), entities[i].kind, None))
                            else WithNodes(nodes, EntityNodes(ids, entities[..i]))
  {
    var e := entities[i];
    var before := EntityNodes(ids, entities[..i]);
    assert entities[..i + 1][..i] == entities[..i];
    assert (before + [Node(IdOf(ids, e), e.kind, None)])[..|before|] == before && before + [] == before;
    assert entities[..i + 1] == entities[..i] + [e] && entities[..i + 1][..i] == entities[..i];
    forall id
      ensures AmongEntities(entities[..i + 1], ids, id) <==>
                AmongEntities(entities[..i], ids, id) || (IsEntityType(e.kind) && id == IdOf(ids, e))
    {
    }
  }

  lemma GrowsFurther(f: Graph, g: Graph, h: Graph, chunkId: string, a: iset<Id>, b: iset<Id>)
    requires Grows(f, g, chunkId, a) && Grows(g, h, chunkId, b)
    ensures Grows(f, h, chunkId, a + b)
  {
  }

  /** The entities of a text chunk: an off-vocabulary label is skipped, a name stands for its last entity. */
  method ExtractEntities(g: Graph, ids: Ids, chunk: TextChunk) returns (h: Graph, here: seq<Id>, named: map<string, Id>)
    requires Supported(g)
    ensures Supported(h) && Grows(g, h, chunk.chunkId, EntityIds(chunk.entities, ids))
    ensures forall id :: id in here <==> InChunk(chunk, ids, id)
    ensures named == NameTable(ids, chunk.entities) && forall t | t in named :: named[t] in here
    ensures h.nodes == WithNodes(g.nodes, EntityNodes(ids, chunk.entities))
  {
    h, here, named := g, [], map[];
    for i := 0 to |chunk.entities|
      invariant Supported(h) && Grows(g, h, chunk.chunkId, EntityIds(chunk.entities[..i], ids))
      invariant forall id :: id in here <==> id in EntityIds(chunk.entities[..i], ids)
      invariant named == NameTable(ids, chunk.entities[..i]) && forall t | t in named :: named[t] in here
      invariant h.nodes == WithNodes(g.nodes, EntityNodes(ids, chunk.entities[..i]))
    {
      var e := chunk.entities[i];
      OneMoreEntity(chunk.entities, ids, i);
      if IsEntityType(e.kind) {
        var id := IdOf(ids, e);
        ghost var before := h;
        h := AddMention(h, Node(id, e.kind, None), chunk.chunkId);
        GrowsFurther(g, before, h, chunk.chunkId, EntityIds(chunk.entities[..i], ids), iset{id});
        here := here + [id];
        named := named[e.text := id];
      }
    }
    assert chunk.entities[..|chunk.entities|] == chunk.entities;
  }

  /** `_build_typed_relation_edge` */
  function TypedEdge(ids: Ids, source: Id, target: Id, kind: string): Option<Edge> {
    if kind == RELATED_TO || source == target || !IsRelationshipType(kind) then None
    else Some(Edge(ids.edge(source, target, kind), source, target, kind, None))
  }

  /** The directed edge a relation of a chunk stands for, when both ends are known and the label is usable. */
  function RelationEdge(ids: Ids, c: TextChunk, r: Relation): Option<Edge> {
    var named := NameTable(ids, c.entities);
    if r.head in named && r.tail in named then TypedEdge(ids, named[r.head], named[r.tail], r.kind) else None
  }

  /** The id of a directed edge of the chunk. */
  ghost predicate Typed(ids: Ids, c: TextChunk, relations: seq<Relation>, k: Id) {
    exists r | r in relations :: RelationEdge(ids, c, r).Some? && RelationEdge(ids, c, r).value.id == k
  }

  /** The edge of a relation of the chunk. */
  ghost predicate IsTyped(ids: Ids, c: TextChunk, e: Edge) {
    exists r | r in c.relations :: RelationEdge(ids, c, r) == Some(e)
  }

  ghost predicate AddsTyped(ids: Ids, c: TextChunk, edges: map<Id, Edge>, more: map<Id, Edge>) {
    forall k | k in more :: if k in edges then more[k] == edges[k] else IsTyped(ids, c, more[k])
  }

  lemma AddTyped(ids: Ids, c: TextChunk, named: map<string, Id>, r: Relation, edges: map<Id, Edge>, more: map<Id, Edge>,
                 mentions: seq<Mention>)
    requires AddsTyped(ids, c, edges, more) && EdgesSupported(ids, more, mentions)
    requires r in c.relations && RelationEdge(ids, c, r).Some? && RelationEdge(ids, c, r).value.id !in more
    requires named == NameTable(ids, c.entities) && forall t | t in named :: Mention(named[t], c.chunkId) in mentions
    requires forall k | k in edges :: k in more
    ensures var e := RelationEdge(ids, c, r).value;
            AddsTyped(ids, c, edges, more[e.id := e]) && EdgesSupported(ids, more[e.id := e], mentions)
  {
    assert Mention(named[r.head], c.chunkId) in mentions && Mention(named[r.tail], c.chunkId) in mentions;
  }

  lemma OneMoreRelation(ids: Ids, c: TextChunk, i: nat)
    requires i < |c.relations|
    ensures forall k :: Typed(ids, c, c.relations[..i + 1], k) <==>
                        Typed(ids, c, c.relations[..i], k)
                            || (RelationEdge(ids, c, c.relations[i]).Some?
                              && RelationEdge(ids, c, c.relations[i]).value.id == k)
  {
    assert c.relations[..i + 1] == c.relations[..i] + [c.relations[i]];
    assert c.relations[i] in c.relations[..i + 1];
  }

  /** Edges under their own ids, supported by the mentions. */
  ghost predicate EdgesSupported(ids: Ids, edges: map<Id, Edge>, mentions: seq<Mention>) {
    && (forall k | k in edges :: edges[k].id == k == ids.edge(edges[k].source, edges[k].target, edges[k].rel))
    && (forall k | k in edges :: CoMentioned(mentions, edges[k].source, edges[k].target))
  }

  /** The directed relations of a text chunk; `typed` is kept apart until the end. */
  method ExtractRelations(typed: map<Id, Edge>, ghost mentions: seq<Mention>, ids: Ids, chunk: TextChunk,
                          named: map<string, Id>)
    returns (more: map<Id, Edge>)
    requires named == NameTable(ids, chunk.entities)
    requires forall t | t in named :: Mention(named[t], chunk.chunkId) in mentions
    requires EdgesSupported(ids, typed, mentions)
    ensures EdgesSupported(ids, more, mentions)
    ensures forall k :: k in more <==> k in typed || Typed(ids, chunk, chunk.relations, k)
    ensures AddsTyped(ids, chunk, typed, more)
  {
    more := typed;
    for i := 0 to |chunk.relations|
      invariant EdgesSupported(ids, more, mentions)
      invariant forall k :: k in more <==> k in typed || Typed(ids, chunk, chunk.relations[..i], k)
      invariant AddsTyped(ids, chunk, typed, more)
    {
      var r := chunk.relations[i];
      OneMoreRelation(ids, chunk, i);
      if r.head in named && r.tail in named {
        var edge := TypedEdge(ids, named[r.head], named[r.tail], r.kind);
        if edge.Some? && edge.value.id !in more {
          AddTyped(ids, chunk, named, r, typed, more, mentions);
          more := more[edge.value.id := edge.value];
        }
      }
    }
    assert chunk.relations[..|chunk.relations|] == chunk.relations;
  }

  lemma MoreMentionsKeepEdges(ids: Ids, edges: map<Id, Edge>, a: seq<Mention>, b: seq<Mention>)
    requires EdgesSupported(ids, edges, a) && forall m | m in a :: m in b
    ensures EdgesSupported(ids, edges, b)
  {
    forall k | k in edges ensures CoMentioned(b, edges[k].source, edges[k].target) {
      var c: string :| Mention(edges[k].source, c) in a && Mention(edges[k].target, c) in a;
    }
  }

  /** The id of a co-occurrence edge between two different entities, from the smaller id to the larger. */
  ghost predicate Paired(ids: Ids, firsts: seq<Id>, seconds: seq<Id>, k: Id) {
    exists a, b | a in firsts && b in seconds :: a < b && k == ids.edge(a, b, RELATED_TO)
  }

  /** The edge of a pair of different entities, from the smaller id to the larger. */
  ghost predicate IsPair(ids: Ids, here: seq<Id>, e: Edge) {
    && e.source < e.target && e.source in here && e.target in here
    && e == Edge(ids.edge(e.source, e.target, RELATED_TO), e.source, e.target, RELATED_TO, None)
  }

  ghost predicate AddsPairs(ids: Ids, here: seq<Id>, edges: map<Id, Edge>, more: map<Id, Edge>) {
    forall k | k in more :: if k in edges then more[k] == edges[k] else IsPair(ids, here, more[k])
  }

  lemma AddPair(ids: Ids, here: seq<Id>, a: Id, b: Id, edges: map<Id, Edge>, more: map<Id, Edge>,
                mentions: seq<Mention>, chunkId: string)
    requires AddsPairs(ids, here, edges, more) && EdgesSupported(ids, more, mentions)
    requires a < b && a in here && b in here && ids.edge(a, b, RELATED_TO) !in more
    requires forall k | k in edges :: k in more
    requires forall id | id in here :: Mention(id, chunkId) in mentions
    ensures var e := Edge(ids.edge(a, b, RELATED_TO), a, b, RELATED_TO, None);
            AddsPairs(ids, here, edges, more[e.id := e]) && EdgesSupported(ids, more[e.id := e], mentions)
  {
  }

  /** The keys grew by the pairs of one of `firsts` and one of `seconds`. */
  ghost predicate PairsWith(ids: Ids, edges: map<Id, Edge>, more: map<Id, Edge>, firsts: seq<Id>, seconds: seq<Id>) {
    forall k :: k in more <==> k in edges || Paired(ids, firsts, seconds, k)
  }

  lemma OneMoreSecond(ids: Ids, edges: map<Id, Edge>, more: map<Id, Edge>, a: Id, seconds: seq<Id>, b: Id, e: Edge)
    requires PairsWith(ids, edges, more, [a], seconds) && (a < b ==> e.id == ids.edge(a, b, RELATED_TO))
    ensures a >= b || e.id in more ==> PairsWith(ids, edges, more, [a], seconds + [b])
    ensures a < b ==> PairsWith(ids, edges, more[e.id := e], [a], seconds + [b])
  {
    forall k ensures Paired(ids, [a], seconds + [b], k) <==>
                     Paired(ids, [a], seconds, k) || (a < b && k == ids.edge(a, b, RELATED_TO))
    {
      assert a in [a] && b in seconds + [b];
    }
  }

  lemma OneMoreFirst(ids: Ids, edges: map<Id, Edge>, more: map<Id, Edge>, most: map<Id, Edge>, firsts: seq<Id>, a: Id,
                     seconds: seq<Id>)
    requires PairsWith(ids, edges, more, firsts, seconds) && PairsWith(ids, more, most, [a], seconds)
    ensures PairsWith(ids, edges, most, firsts + [a], seconds)
  {
    forall k ensures Paired(ids, firsts + [a], seconds, k) <==>
                     Paired(ids, firsts, seconds, k) || Paired(ids, [a], seconds, k)
    {
      assert a in [a];
    }
  }

  /** Co-occurrence: one edge per unordered pair of different entities of a chunk. */
  method RelatePairs(edges: map<Id, Edge>, ghost mentions: seq<Mention>, ids: Ids, here: seq<Id>, ghost chunkId: string)
    returns (more: map<Id, Edge>)
    requires forall id | id in here :: Mention(id, chunkId) in mentions
    requires EdgesSupported(ids, edges, mentions)
    ensures EdgesSupported(ids, more, mentions)
    ensures PairsWith(ids, edges, more, here, here) && AddsPairs(ids, here, edges, more)
  {
    more := edges;
    for i := 0 to |here|
      invariant EdgesSupported(ids, more, mentions) && AddsPairs(ids, here, edges, more)
      invariant PairsWith(ids, edges, more, here[..i], here)
    {
      ghost var before := more;
      for j := 0 to |here|
        invariant EdgesSupported(ids, more, mentions) && AddsPairs(ids, here, edges, more)
        invariant PairsWith(ids, before, more, [here[i]], here[..j])
      {
        assert here[..j + 1] == here[..j] + [here[j]];
        var e := Edge(ids.edge(here[i], here[j], RELATED_TO), here[i], here[j], RELATED_TO, None);
        OneMoreSecond(ids, before, more, here[i], here[..j], here[j], e);
        if here[i] < here[j] && e.id !in more {
          AddPair(ids, here, here[i], here[j], edges, more, mentions, chunkId);
          more := more[e.id := e];
        }
      }
      assert here[..|here|] == here;
      assert here[..i + 1] == here[..i] + [here[i]];
      OneMoreFirst(ids, edges, before, more, here[..i], here[i], here);
    }
    assert here[..|here|] == here;
  }

  // ------------------------------------------------------------------ the whole extraction

  ghost predicate CodeMention(ids: Ids, code: seq<CodeChunk>, m: Mention) {
    exists c | c in code :: m == Mention(ids.entity("code_symbol", c.qualifiedName), c.chunkId)
  }

  ghost predicate TextMention(ids: Ids, text: seq<TextChunk>, m: Mention) {
    exists c | c in text :: m.chunk == c.chunkId && InChunk(c, ids, m.entity)
  }

  ghost predicate TypedEdgeOf(ids: Ids, text: seq<TextChunk>, k: Id) {
    exists c | c in text :: Typed(ids, c, c.relations, k)
  }

  /** Two entities of one chunk. */
  ghost predicate PairOf(ids: Ids, c: TextChunk, k: Id) {
    exists a, b :: InChunk(c, ids, a) && InChunk(c, ids, b) && a < b && k == ids.edge(a, b, RELATED_TO)
  }

  ghost predicate RelatedEdgeOf(ids: Ids, text: seq<TextChunk>, k: Id) {
    exists c | c in text :: PairOf(ids, c, k)
  }

  function CodeNodes(ids: Ids, code: seq<CodeChunk>): seq<Node> {
    seq(|code|, i requires 0 <= i < |code| =>
                  Node(ids.entity("code_symbol", code[i].qualifiedName), "code_symbol", code[i].subtype))
  }

  function TextNodes(ids: Ids, text: seq<TextChunk>): seq<Node> {
    if text == [] then []
    else TextNodes(ids, text[..|text| - 1]) + EntityNodes(ids, text[|text| - 1].entities)
  }

  /** The node rows of all chunks, in order, the code first. */
  function NodeRows(ids: Ids, code: seq<CodeChunk>, text: seq<TextChunk>): seq<Node> {
    CodeNodes(ids, code) + TextNodes(ids, text)
  }

  ghost predicate TypedRow(ids: Ids, text: seq<TextChunk>, e: Edge) {
    exists c | c in text :: IsTyped(ids, c, e)
  }

  ghost predicate RelatedRow(ids: Ids, text: seq<TextChunk>, e: Edge) {
    && e.source < e.target && (exists c | c in text :: InChunk(c, ids, e.source) && InChunk(c, ids, e.target))
    && e == Edge(ids.edge(e.source, e.target, RELATED_TO), e.source, e.target, RELATED_TO, None)
  }

  /** The nodes and mentions are exactly those of the chunks. */
  ghost predicate Mentions(ids: Ids, code: seq<CodeChunk>, text: seq<TextChunk>, g: Graph) {
    && Supported(g) && g.edges == map[] && g.nodes == WithNodes(map[], NodeRows(ids, code, text))
    && (forall m :: m in g.mentions <==> CodeMention(ids, code, m) || TextMention(ids, text, m))
    && (forall k :: k in g.nodes <==> exists c: string :: Mention(k, c) in g.mentions)
  }

  /** So are the two kinds of edges. */
  ghost predicate Relates(ids: Ids, text: seq<TextChunk>, mentions: seq<Mention>, typed: map<Id, Edge>,
                          related: map<Id, Edge>) {
    && EdgesSupported(ids, typed, mentions) && EdgesSupported(ids, related, mentions)
    && (forall k :: k in typed <==> TypedEdgeOf(ids, text, k))
    && (forall k :: k in related <==> RelatedEdgeOf(ids, text, k))
    && (forall k | k in typed :: TypedRow(ids, text, typed[k]))
    && (forall k | k in related :: RelatedRow(ids, text, related[k]))
  }

  lemma GrownNodes(g: Graph, h: Graph, chunkId: string, added: iset<Id>)
    requires Grows(g, h, chunkId, added)
    requires forall k :: k in g.nodes <==> exists c: string :: Mention(k, c) in g.mentions
    ensures forall k :: k in h.nodes <==> exists c: string :: Mention(k, c) in h.mentions
  {
    forall k ensures k in h.nodes <==> exists c: string :: Mention(k, c) in h.mentions {
      if k in added {
        assert Mention(k, chunkId) in h.mentions;
      }
      if k in g.nodes {
        var c: string :| Mention(k, c) in g.mentions;
        assert Mention(k, c) in h.mentions;
      }
      if c: string :| Mention(k, c) in h.mentions {
        assert Mention(k, c) in g.mentions || k in added;
      }
    }
  }

  lemma MoreCodeRows(ids: Ids, code: seq<CodeChunk>, c: CodeChunk)
    ensures WithNodes(map[], NodeRows(ids, code + [c], []))
            == WithNode(WithNodes(map[], NodeRows(ids, code, [])), CodeNode(ids, c))
  {
    assert NodeRows(ids, code + [c], []) == NodeRows(ids, code, []) + [CodeNode(ids, c)];
    assert NodeRows(ids, code + [c], [])[..|code|] == NodeRows(ids, code, []);
  }

  lemma MoreCodeMentions(ids: Ids, code: seq<CodeChunk>, c: CodeChunk, m: Mention)
    ensures CodeMention(ids, code + [c], m) <==> CodeMention(ids, code, m) || m == Mention(CodeId(ids, c), c.chunkId)
  {
    assert c in code + [c];
  }

  lemma OneMoreCodeChunk(ids: Ids, code: seq<CodeChunk>, c: CodeChunk, g: Graph, h: Graph)
    requires Mentions(ids, code, [], g) && Supported(h) && Grows(g, h, c.chunkId, iset{CodeId(ids, c)})
    requires h.nodes == WithNode(g.nodes, CodeNode(ids, c))
    ensures Mentions(ids, code + [c], [], h)
  {
    GrownNodes(g, h, c.chunkId, iset{CodeId(ids, c)});
    MoreCodeRows(ids, code, c);
    forall m
      ensures CodeMention(ids, code + [c], m) <==> CodeMention(ids, code, m) || m == Mention(CodeId(ids, c), c.chunkId)
    {
      MoreCodeMentions(ids, code, c, m);
    }
  }

  lemma MoreNodeRows(ids: Ids, code: seq<CodeChunk>, text: seq<TextChunk>, c: TextChunk)
    ensures NodeRows(ids, code, text + [c]) == NodeRows(ids, code, text) + EntityNodes(ids, c.entities)
  {
    assert (text + [c])[..|text|] == text;
  }

  lemma OneMoreTextChunk(ids: Ids, code: seq<CodeChunk>, text: seq<TextChunk>, c: TextChunk, g: Graph, h: Graph)
    requires Mentions(ids, code, text, g) && Supported(h) && Grows(g, h, c.chunkId, EntityIds(c.entities, ids))
    requires h.nodes == WithNodes(g.nodes, EntityNodes(ids, c.entities))
    ensures Mentions(ids, code, text + [c], h)
  {
    GrownNodes(g, h, c.chunkId, EntityIds(c.entities, ids));
    MoreNodeRows(ids, code, text, c);
    WithNodesInTwo(map[], NodeRows(ids, code, text), EntityNodes(ids, c.entities));
    forall m
      ensures TextMention(ids, text + [c], m) <==>
                TextMention(ids, text, m) || (m.chunk == c.chunkId && m.entity in EntityIds(c.entities, ids))
    {
      assert c in text + [c];
    }
  }

  lemma OneMoreChunkOfEdges(ids: Ids, text: seq<TextChunk>, c: TextChunk, here: seq<Id>, k: Id)
    requires forall id :: id in here <==> InChunk(c, ids, id)
    ensures TypedEdgeOf(ids, text + [c], k) <==> TypedEdgeOf(ids, text, k) || Typed(ids, c, c.relations, k)
    ensures RelatedEdgeOf(ids, text + [c], k) <==> RelatedEdgeOf(ids, text, k) || Paired(ids, here, here, k)
  {
    assert c in text + [c];
    assert PairOf(ids, c, k) <==> Paired(ids, here, here, k);
  }

  lemma MoreEdges(ids: Ids, text: seq<TextChunk>, c: TextChunk, here: seq<Id>, typed: map<Id, Edge>,
                  typed': map<Id, Edge>, related: map<Id, Edge>, related': map<Id, Edge>)
    requires forall id :: id in here <==> InChunk(c, ids, id)
    requires forall k :: k in typed <==> TypedEdgeOf(ids, text, k)
    requires forall k :: k in related <==> RelatedEdgeOf(ids, text, k)
    requires forall k :: k in typed' <==> k in typed || Typed(ids, c, c.relations, k)
    requires PairsWith(ids, related, related', here, here)
    ensures forall k :: k in typed' <==> TypedEdgeOf(ids, text + [c], k)
    ensures forall k :: k in related' <==> RelatedEdgeOf(ids, text + [c], k)
  {
    forall k ensures k in typed' <==> TypedEdgeOf(ids, text + [c], k)
             ensures k in related' <==> RelatedEdgeOf(ids, text + [c], k)
    {
      OneMoreChunkOfEdges(ids, text, c, here, k);
    }
  }

  lemma MoreEdgeRows(ids: Ids, text: seq<TextChunk>, c: TextChunk, here: seq<Id>, typed: map<Id, Edge>,
                     typed': map<Id, Edge>, related: map<Id, Edge>, related': map<Id, Edge>)
    requires forall k | k in typed :: TypedRow(ids, text, typed[k])
    requires forall k | k in related :: RelatedRow(ids, text, related[k])
    requires AddsTyped(ids, c, typed, typed')
    requires AddsPairs(ids, here, related, related')
    requires forall id :: id in here <==> InChunk(c, ids, id)
    ensures forall k | k in typed' :: TypedRow(ids, text + [c], typed'[k])
    ensures forall k | k in related' :: RelatedRow(ids, text + [c], related'[k])
  {
    assert c in text + [c] && forall b | b in text :: b in text + [c];
  }

  /** One text chunk: its entities, then its directed relations, then its pairs. */
  method ExtractText(g: Graph, typed: map<Id, Edge>, related: map<Id, Edge>, ids: Ids, ghost code: seq<CodeChunk>,
                     ghost before: seq<TextChunk>, chunk: TextChunk)
    returns (h: Graph, typed': map<Id, Edge>, related': map<Id, Edge>)
    requires Mentions(ids, code, before, g) && Relates(ids, before, g.mentions, typed, related)
    ensures Mentions(ids, code, before + [chunk], h) && Relates(ids, before + [chunk], h.mentions, typed', related')
  {
    var here, named;
    h, here, named := ExtractEntities(g, ids, chunk);
    OneMoreTextChunk(ids, code, before, chunk, g, h);
    MoreMentionsKeepEdges(ids, typed, g.mentions, h.mentions);
    MoreMentionsKeepEdges(ids, related, g.mentions, h.mentions);
    assert forall id | id in here :: Mention(id, chunk.chunkId) in h.mentions;
    typed' := ExtractRelations(typed, h.mentions, ids, chunk, named);
    related' := RelatePairs(related, h.mentions, ids, here, chunk.chunkId);
    MoreEdges(ids, before, chunk, here, typed, typed', related, related');
    MoreEdgeRows(ids, before, chunk, here, typed, typed', related, related');
  }

  /** The code chunks, before any text. */
  method ExtractAllCode(ids: Ids, code: seq<CodeChunk>) returns (g: Graph)
    ensures Mentions(ids, code, [], g)
  {
    g := Graph(map[], [], map[]);
    for i := 0 to |code|
      invariant Mentions(ids, code[..i], [], g)
    {
      assert code[..i + 1] == code[..i] + [code[i]];
      var h := ExtractCode(g, ids, code[i]);
      OneMoreCodeChunk(ids, code[..i], code[i], g, h);
      g := h;
    }
    assert code[..|code|] == code;
  }

  function ChunkIds(code: seq<CodeChunk>, text: seq<TextChunk>): set<string> {
    (set c | c in code :: c.chunkId) + (set c | c in text :: c.chunkId)
  }

  /** What the chunk calls by the text: the last entity of a known type with it. */
  ghost predicate Names(ids: Ids, c: TextChunk, text: string, id: Id) {
    exists i | 0 <= i < |c.entities| :: IsLastNamed(c.entities, text, i) && id == ids.entity(c.entities[i].kind, text)
  }

  predicate IsLastNamed(entities: seq<Entity>, text: string, i: nat)
    requires i < |entities|
  {
    && entities[i].text == text && IsEntityType(entities[i].kind)
    && forall j | i < j < |entities| :: entities[j].text != text || !IsEntityType(entities[j].kind)
  }

  /** The edge of a relation, from what its head names to what its tail names. */
  ghost predicate StandsFor(ids: Ids, c: TextChunk, r: Relation, e: Edge) {
    && Names(ids, c, r.head, e.source) && Names(ids, c, r.tail, e.target) && e.source != e.target
    && e.rel == r.kind && r.kind != "related_to" && IsRelationshipType(r.kind)
    && e.id == ids.edge(e.source, e.target, r.kind) && e.extraction == None
  }

  lemma {:induction false} TablesHoldTheLastNamed(ids: Ids, entities: seq<Entity>, text: string)
    ensures text in NameTable(ids, entities) <==> exists i | 0 <= i < |entities| :: IsLastNamed(entities, text, i)
    ensures forall i | 0 <= i < |entities| && IsLastNamed(entities, text, i) ::
              text in NameTable(ids, entities) && NameTable(ids, entities)[text] == ids.entity(entities[i].kind, text)
  {
    if entities != [] {
      var before, n := entities[..|entities| - 1], |entities| - 1;
      TablesHoldTheLastNamed(ids, before, text);
      if IsEntityType(entities[n].kind) && entities[n].text == text {
        assert IsLastNamed(entities, text, n);
        assert forall i | 0 <= i < n :: !IsLastNamed(entities, text, i);
      } else {
        assert forall i | 0 <= i < n :: IsLastNamed(entities, text, i) <==> IsLastNamed(before, text, i);
      }
    }
  }

  lemma NamesAreInTheTable(ids: Ids, c: TextChunk, text: string, id: Id)
    ensures Names(ids, c, text, id) <==> text in NameTable(ids, c.entities) && NameTable(ids, c.entities)[text] == id
  {
    TablesHoldTheLastNamed(ids, c.entities, text);
  }

  lemma RelationsStandForTheirEdge(ids: Ids, c: TextChunk, r: Relation, e: Edge)
    ensures RelationEdge(ids, c, r) == Some(e) <==> StandsFor(ids, c, r, e)
  {
    NamesAreInTheTable(ids, c, r.head, e.source);
    NamesAreInTheTable(ids, c, r.tail, e.target);
  }

  /** Some relation of the document stands for the edge. */
  ghost predicate SaidInText(ids: Ids, text: seq<TextChunk>, e: Edge) {
    exists c, r | c in text && r in c.relations :: StandsFor(ids, c, r, e)
  }

  lemma TypedRowsAreSaid(ids: Ids, text: seq<TextChunk>, e: Edge)
    ensures TypedRow(ids, text, e) <==> SaidInText(ids, text, e)
  {
    if TypedRow(ids, text, e) {
      var c :| c in text && IsTyped(ids, c, e);
      var r :| r in c.relations && RelationEdge(ids, c, r) == Some(e);
      RelationsStandForTheirEdge(ids, c, r, e);
    }
    if SaidInText(ids, text, e) {
      var c, r :| c in text && r in c.relations && StandsFor(ids, c, r, e);
      RelationsStandForTheirEdge(ids, c, r, e);
      assert IsTyped(ids, c, e);
    }
  }

  lemma TypedIdsAreSaid(ids: Ids, text: seq<TextChunk>, k: Id)
    ensures TypedEdgeOf(ids, text, k) <==> exists e: Edge :: e.id == k && SaidInText(ids, text, e)
  {
    if TypedEdgeOf(ids, text, k) {
      var c :| c in text && Typed(ids, c, c.relations, k);
      var r :| r in c.relations && RelationEdge(ids, c, r).Some? && RelationEdge(ids, c, r).value.id == k;
      RelationsStandForTheirEdge(ids, c, r, RelationEdge(ids, c, r).value);
      assert SaidInText(ids, text, RelationEdge(ids, c, r).value);
    }
    if e: Edge :| e.id == k && SaidInText(ids, text, e) {
      var c, r :| c in text && r in c.relations && StandsFor(ids, c, r, e);
      RelationsStandForTheirEdge(ids, c, r, e);
      assert Typed(ids, c, c.relations, k);
    }
  }

  ghost predicate NodesExtracted(ids: Ids, code: seq<CodeChunk>, text: seq<TextChunk>, g: Graph) {
    && OnlyOf(g.mentions, ChunkIds(code, text))
    && (forall m :: m in g.mentions <==> CodeMention(ids, code, m) || TextMention(ids, text, m))
    && (forall k :: k in g.nodes <==> exists c: string :: Mention(k, c) in g.mentions)
    && (forall k | k in g.nodes :: IsFirst(NodeRows(ids, code, text), g.nodes[k]))
  }

  ghost predicate EdgesExtracted(ids: Ids, text: seq<TextChunk>, edges: map<Id, Edge>) {
    && (forall k :: k in edges <==>
                    (exists e: Edge :: e.id == k && SaidInText(ids, text, e)) || RelatedEdgeOf(ids, text, k))
    && (forall k | k in edges :: k == ids.edge(edges[k].source, edges[k].target, edges[k].rel))
    && (forall k | k in edges ::
          if exists e: Edge :: e.id == k && SaidInText(ids, text, e) then SaidInText(ids, text, edges[k])
          else RelatedRow(ids, text, edges[k]))
  }

  lemma NodesAreExtracted(ids: Ids, code: seq<CodeChunk>, text: seq<TextChunk>, g: Graph)
    requires Mentions(ids, code, text, g)
    ensures NodesExtracted(ids, code, text, g)
  {
    forall k | k in g.nodes ensures IsFirst(NodeRows(ids, code, text), g.nodes[k]) {
      TheFirstRowsStay(NodeRows(ids, code, text), k);
    }
  }

  /** One table over another. */
  lemma Overlaid(under: map<Id, Edge>, over: map<Id, Edge>, k: Id)
    ensures k in under + over <==> k in under || k in over
    ensures k in under + over ==> (under + over)[k] == if k in over then over[k] else under[k]
  {
  }

  lemma EdgesKeepTheirIds(ids: Ids, mentions: seq<Mention>, typed: map<Id, Edge>, related: map<Id, Edge>)
    requires EdgesSupported(ids, typed, mentions) && EdgesSupported(ids, related, mentions)
    ensures EdgesSupported(ids, related + typed, mentions)
  {
  }

  lemma EdgeExtracted(ids: Ids, text: seq<TextChunk>, mentions: seq<Mention>, typed: map<Id, Edge>,
                      related: map<Id, Edge>, k: Id)
    requires Relates(ids, text, mentions, typed, related)
    ensures k in related + typed <==> TypedEdgeOf(ids, text, k) || RelatedEdgeOf(ids, text, k)
    ensures k in related + typed ==>
              if TypedEdgeOf(ids, text, k) then TypedRow(ids, text, (related + typed)[k])
              else RelatedRow(ids, text, (related + typed)[k])
  {
    Overlaid(related, typed, k);
    assert k in typed <==> TypedEdgeOf(ids, text, k);
    assert k in related <==> RelatedEdgeOf(ids, text, k);
  }

  lemma EdgesAreExtracted(ids: Ids, text: seq<TextChunk>, g: Graph, typed: map<Id, Edge>, related: map<Id, Edge>)
    requires Supported(g) && Relates(ids, text, g.mentions, typed, related)
    ensures EdgesExtracted(ids, text, related + typed) && Supported(g.(edges := related + typed))
  {
    EdgesKeepTheirIds(ids, g.mentions, typed, related);
    forall k ensures TypedEdgeOf(ids, text, k) <==> exists e: Edge :: e.id == k && SaidInText(ids, text, e)
             ensures k in related + typed <==> TypedEdgeOf(ids, text, k) || RelatedEdgeOf(ids, text, k)
             ensures k in related + typed && !TypedEdgeOf(ids, text, k) ==> RelatedRow(ids, text, (related + typed)[k])
    {
      EdgeExtracted(ids, text, g.mentions, typed, related, k);
      TypedIdsAreSaid(ids, text, k);
    }
    forall k | k in related + typed && TypedEdgeOf(ids, text, k) ensures SaidInText(ids, text, (related + typed)[k]) {
      EdgeExtracted(ids, text, g.mentions, typed, related, k);
      TypedRowsAreSaid(ids, text, (related + typed)[k]);
    }
  }

  method ExtractAllText(g: Graph, ids: Ids, ghost code: seq<CodeChunk>, text: seq<TextChunk>)
    returns (h: Graph, typed: map<Id, Edge>, related: map<Id, Edge>)
    requires Mentions(ids, code, [], g)
    ensures Mentions(ids, code, text, h) && Relates(ids, text, h.mentions, typed, related)
  {
    h, typed, related := g, map[], map[];
    for i := 0 to |text|
      invariant Mentions(ids, code, text[..i], h) && Relates(ids, text[..i], h.mentions, typed, related)
    {
      assert text[..i + 1] == text[..i] + [text[i]];
      h, typed, related := ExtractText(h, typed, related, ids, code, text[..i], text[i]);
    }
    assert text[..|text|] == text;
  }

  /** `extract` emits exactly the mentions of the code symbols and of the entities of a known type, for each of them
      the first node row with its id, and an edge for exactly the pairs of entities that share a chunk and the usable
      relations of a chunk, a relation's before a pair's; and what it emits is supported by the mentions it emits. */
  method Extract(ids: Ids, code: seq<CodeChunk>, text: seq<TextChunk>) returns (g: Graph)
    ensures Supported(g) && NodesExtracted(ids, code, text, g) && EdgesExtracted(ids, text, g.edges)
  {
    g := ExtractAllCode(ids, code);
    var typed, related;
    g, typed, related := ExtractAllText(g, ids, code, text);
    NodesAreExtracted(ids, code, text, g);
    EdgesAreExtracted(ids, text, g, typed, related);
    g := g.(edges := related + typed);
  }

  // ------------------------------------------------------------------ surviving garbage collection

  /** Tables that hold everything `g` emitted, among whatever else. */
  ghost predicate Holds(nodes: seq<Node>, edges: seq<Edge>, mentions: seq<Mention>, g: Graph) {
    && (forall k | k in g.nodes :: exists n | n in nodes :: n.id == k)
    && (forall k | k in g.edges ::
        exists e | e in edges :: e.id == k && e.source == g.edges[k].source && e.target == g.edges[k].target)
    && (forall m | m in g.mentions :: m in mentions)
  }

  /** Once its rows and mentions are written and its chunks are live, pruning and collecting leave every node
      and every edge of an extraction in the tables. */
  lemma ExtractedRowsSurviveCollection(g: Graph, nodes: seq<Node>, edges: seq<Edge>, mentions: seq<Mention>,
                                       live: set<string>)
    requires Supported(g) && OnlyOf(g.mentions, live) && UniqueIds(nodes, edges) && Holds(nodes, edges, mentions, g)
    ensures var (nodes', edges') := Collect(nodes, edges, Prune(mentions, live));
            && (forall k | k in g.nodes :: exists n | n in nodes' :: n.id == k)
            && (forall k | k in g.edges :: exists e | e in edges' :: e.id == k)
  {
    var left := Prune(mentions, live);
    var (nodes', edges') := Collect(nodes, edges, left);
    var orphans := OrphanIds(nodes, edges, left);
    ExactlyTheGarbageGoes(nodes, edges, left);
    forall id | Mentioned(g.mentions, id) ensures Mentioned(left, id) {
      var i :| 0 <= i < |g.mentions| && g.mentions[i].entity == id;
      assert g.mentions[i] in left;
      var j :| 0 <= j < |left| && left[j] == g.mentions[i];
    }
    forall k | k in g.nodes ensures exists n | n in nodes' :: n.id == k {
      var n :| n in nodes && n.id == k;
      assert n in nodes';
    }
    forall k | k in g.edges ensures exists e | e in edges' :: e.id == k {
      var e :| e in edges && e.id == k && e.source == g.edges[k].source && e.target == g.edges[k].target;
      var c: string :| Mention(e.source, c) in g.mentions && Mention(e.target, c) in g.mentions;
      assert Mention(e.source, c) in left && Mention(e.target, c) in left;
      MentionedIfIn(left, Mention(e.source, c));
      MentionedIfIn(left, Mention(e.target, c));
      assert CoMentioned(left, e.source, e.target);
      assert e.source !in orphans && e.target !in orphans;
      assert e in edges';
    }
  }

  lemma MentionedIfIn(mentions: seq<Mention>, m: Mention)
    requires m in mentions
    ensures Mentioned(mentions, m.entity)
  {
    var i :| 0 <= i < |mentions| && mentions[i] == m;
  }
}
