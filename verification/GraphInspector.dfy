/** What a namespace may see of one collection's graph (archon_search/graph_inspector.py,
    `_load_acl_visible_graph`). */
module GraphInspector {
  import opened Options
  import opened Sums
  import Acl

  type Id = nat

  datatype Node = Node(id: Id, doc: string, pagerank: Option<real>)
  datatype Edge = Edge(id: Id, source: Id, target: Id, rel: string, doc: string)
  datatype Mention = Mention(entity: Id, chunk: string)

  // ------------------------------------------------------------------ one collection, minus what is hidden

  /** One collection after the ACL: `chunks` maps an entity to the visible chunks it is mentioned in, `total` is
      the collection's chunk count. */
  datatype Part = Part(nodes: seq<Node>, edges: seq<Edge>, chunks: map<Id, set<string>>, total: nat)

  /** Entity to chunks, over the mentions whose chunk `visible` lets through. */
  ghost predicate Describes(chunks: map<Id, set<string>>, mentions: seq<Mention>, v: Acl.Visibility, all: bool) {
    forall id, c :: c in ItemsAt(chunks, id) <==> Mention(id, c) in mentions && (all || Acl.ChunkVisible(v, c))
  }

  /** The evidence for an entity: some visible mention, or no mention at all and a visible document. */
  ghost predicate NodeVisible(n: Node, mentions: seq<Mention>, v: Acl.Visibility) {
    || (exists c: string :: Mention(n.id, c) in mentions && Acl.ChunkVisible(v, c))
    || ((forall c: string :: Mention(n.id, c) !in mentions) && Acl.DocVisible(v, n.doc))
  }

  /** The loop over the mentions: chunks of every entity, and the visible ones. */
  method GroupMentions(mentions: seq<Mention>, v: Acl.Visibility)
    returns (mentioned: map<Id, set<string>>, visible: map<Id, set<string>>)
    ensures Describes(mentioned, mentions, v, true) && Describes(visible, mentions, v, false)
    ensures forall id :: id in mentioned <==> ItemsAt(mentioned, id) != {}
    ensures forall id :: id in visible <==> ItemsAt(visible, id) != {}
  {
    mentioned, visible := map[], map[];
    for i := 0 to |mentions|
      invariant Describes(mentioned, mentions[..i], v, true) && Describes(visible, mentions[..i], v, false)
      invariant forall id :: id in mentioned <==> ItemsAt(mentioned, id) != {}
      invariant forall id :: id in visible <==> ItemsAt(visible, id) != {}
    {
      var m := mentions[i];
      assert mentions[..i + 1] == mentions[..i] + [m];
      mentioned := mentioned[m.entity := ItemsAt(mentioned, m.entity) + {m.chunk}];
      assert m.chunk in mentioned[m.entity];
      if Acl.ChunkVisible(v, m.chunk) {
        visible := visible[m.entity := ItemsAt(visible, m.entity) + {m.chunk}];
        assert m.chunk in visible[m.entity];
      }
    }
    assert mentions[..|mentions|] == mentions;
  }

  /** The node table names `id`, and every row of it is invisible. */
  ghost predicate Hidden(id: Id, nodes: seq<Node>, mentions: seq<Mention>, v: Acl.Visibility) {
    (exists n :: n in nodes && n.id == id) && (forall n | n in nodes && n.id == id :: !NodeVisible(n, mentions, v))
  }

  /** The evidence for an edge: endpoints that meet in chunks must meet in a visible one, others need a visible
      document. */
  ghost predicate EvidenceVisible(e: Edge, mentions: seq<Mention>, v: Acl.Visibility) {
    if exists c: string :: Mention(e.source, c) in mentions && Mention(e.target, c) in mentions
    then exists c: string ::
           Mention(e.source, c) in mentions && Mention(e.target, c) in mentions && Acl.ChunkVisible(v, c)
    else Acl.DocVisible(v, e.doc)
  }

  ghost function NodeTest(mentions: seq<Mention>, v: Acl.Visibility): Node -> bool {
    (n: Node) => NodeVisible(n, mentions, v)
  }

  ghost function EdgeTest(nodes: seq<Node>, mentions: seq<Mention>, v: Acl.Visibility): Edge -> bool {
    (e: Edge) => !Hidden(e.source, nodes, mentions, v) && !Hidden(e.target, nodes, mentions, v)
                 && EvidenceVisible(e, mentions, v)
  }

  lemma MentionedNodes(n: Node, mentions: seq<Mention>, v: Acl.Visibility, mentioned: map<Id, set<string>>,
                       visible: map<Id, set<string>>)
    requires Grouped(mentions, v, mentioned, visible)
    ensures NodeVisible(n, mentions, v) <==> n.id in visible || (n.id !in mentioned && Acl.DocVisible(v, n.doc))
  {
    assert forall c :: c in ItemsAt(visible, n.id) <==> Mention(n.id, c) in mentions && Acl.ChunkVisible(v, c);
    assert forall c :: c in ItemsAt(mentioned, n.id) <==> Mention(n.id, c) in mentions;
    if n.id in mentioned {
      var c :| c in ItemsAt(mentioned, n.id);
    }
    if n.id in visible {
      var c :| c in ItemsAt(visible, n.id);
    }
  }

  lemma MeetingChunks(e: Edge, mentions: seq<Mention>, v: Acl.Visibility, all: bool, chunks: map<Id, set<string>>)
    requires Describes(chunks, mentions, v, all)
    ensures ItemsAt(chunks, e.source) * ItemsAt(chunks, e.target) != {} <==>
            exists c: string ::
                Mention(e.source, c) in mentions && Mention(e.target, c) in mentions && (all || Acl.ChunkVisible(v, c))
  {
    var meet := ItemsAt(chunks, e.source) * ItemsAt(chunks, e.target);
    forall c: string
      ensures c in meet <==>
                Mention(e.source, c) in mentions && Mention(e.target, c) in mentions && (all || Acl.ChunkVisible(v, c))
    {
      assert c in ItemsAt(chunks, e.source) <==> Mention(e.source, c) in mentions && (all || Acl.ChunkVisible(v, c));
      assert c in ItemsAt(chunks, e.target) <==> Mention(e.target, c) in mentions && (all || Acl.ChunkVisible(v, c));
    }
    if meet != {} {
      var c :| c in meet;
    }
  }

  /** Both groupings of the mentions, and no entity without chunks in either. */
  ghost predicate Grouped(mentions: seq<Mention>, v: Acl.Visibility, mentioned: map<Id, set<string>>,
                          visible: map<Id, set<string>>) {
    && Describes(mentioned, mentions, v, true) && Describes(visible, mentions, v, false)
    && (forall id :: id in mentioned <==> ItemsAt(mentioned, id) != {})
    && (forall id :: id in visible <==> ItemsAt(visible, id) != {})
  }

  /** The comprehension over the nodes. */
  method KeepNodes(nodes: seq<Node>, v: Acl.Visibility, mentioned: map<Id, set<string>>, visible: map<Id, set<string>>,
                   ghost mentions: seq<Mention>)
    returns (kept: seq<Node>)
    requires Grouped(mentions, v, mentioned, visible)
    ensures kept == Filter(nodes, NodeTest(mentions, v))
  {
    kept := [];
    for i := 0 to |nodes|
      invariant kept == Filter(nodes[..i], NodeTest(mentions, v))
    {
      var n := nodes[i];
      assert nodes[..i + 1][..i] == nodes[..i];
      MentionedNodes(n, mentions, v, mentioned, visible);
      if n.id in visible || (n.id !in mentioned && Acl.DocVisible(v, n.doc)) {
        kept := kept + [n];
      }
    }
    assert nodes[..|nodes|] == nodes;
  }

  /** The loop over the edges. */
  method KeepEdges(nodes: seq<Node>, edges: seq<Edge>, hidden: set<Id>, v: Acl.Visibility,
                   mentioned: map<Id, set<string>>, visible: map<Id, set<string>>, ghost mentions: seq<Mention>)
    returns (kept: seq<Edge>)
    requires Grouped(mentions, v, mentioned, visible)
    requires forall id :: id in hidden <==> Hidden(id, nodes, mentions, v)
    ensures kept == Filter(edges, EdgeTest(nodes, mentions, v))
  {
    kept := [];
    for i := 0 to |edges|
      invariant kept == Filter(edges[..i], EdgeTest(nodes, mentions, v))
    {
      var e := edges[i];
      assert edges[..i + 1][..i] == edges[..i];
      if e.source !in hidden && e.target !in hidden {
        var cooccurring := ItemsAt(mentioned, e.source) * ItemsAt(mentioned, e.target);
        var evidence := if cooccurring != {} then ItemsAt(visible, e.source) * ItemsAt(visible, e.target) != {}
                        else Acl.DocVisible(v, e.doc);
        MeetingChunks(e, mentions, v, true, mentioned);
        MeetingChunks(e, mentions, v, false, visible);
        if evidence {
          kept := kept + [e];
        }
      }
    }
    assert edges[..|edges|] == edges;
  }

  /** `_load_acl_visible_graph` keeps, in order, exactly the nodes and edges whose evidence the caller may see. */
  method LoadAclVisibleGraph(nodes: seq<Node>, edges: seq<Edge>, mentions: seq<Mention>, total: nat, v: Acl.Visibility)
    returns (part: Part)
    ensures part.total == total && Describes(part.chunks, mentions, v, false)
    ensures forall id :: id in part.chunks <==> ItemsAt(part.chunks, id) != {}
    ensures part.nodes == Filter(nodes, NodeTest(mentions, v))
    ensures part.edges == Filter(edges, EdgeTest(nodes, mentions, v))
  {
    var mentioned, visible := GroupMentions(mentions, v);
    var keptNodes := KeepNodes(nodes, v, mentioned, visible, mentions);
    FilterSelects(nodes, NodeTest(mentions, v));
    var hidden := (set n | n in nodes :: n.id) - (set n | n in keptNodes :: n.id);
    var keptEdges := KeepEdges(nodes, edges, hidden, v, mentioned, visible, mentions);
    part := Part(keptNodes, keptEdges, visible, total);
  }
}
