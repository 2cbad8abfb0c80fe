/** Breadth-first traversal of callers or callees (archon_search/graph_store.py, `_traverse_impact`), with its
    cap on the frontier of a hop and on the size of the answer. */
module ImpactTraversal {
  import opened Options
  import opened Sorting
  import opened Sums

  type Id = nat

  const MAX_IMPACT_DEPTH := 5
  const MAX_IMPACT_GROUP_SIZE := 50

  datatype Edge = Edge(id: nat, source: Id, target: Id, rel: string, extraction: string, doc: string)

  /** What is traversed: the edges of a collection, the direction, and the two filters that block an edge. */
  datatype Query = Query(edges: seq<Edge>, callees: bool, extraction: Option<string>, hiddenDocs: set<string>)

  predicate Allowed(q: Query, e: Edge) {
    && e in q.edges
    && (q.extraction.Some? ==> e.extraction == q.extraction.value)
    && e.doc !in q.hiddenDocs
  }

  function From(q: Query, e: Edge): Id {
    if q.callees then e.source else e.target
  }

  function To(q: Query, e: Edge): Id {
    if q.callees then e.target else e.source
  }

  ghost predicate Hop(q: Query, u: Id, v: Id) {
    exists e: Edge :: Allowed(q, e) && From(q, e) == u && To(q, e) == v
  }

  /** A path of `|p| - 1` hops from `p[0]` to the last node. */
  ghost predicate IsPath(q: Query, p: seq<Id>) {
    p != [] && forall i | 0 <= i < |p| - 1 :: Hop(q, p[i], p[i + 1])
  }

  ghost predicate Reaches(q: Query, root: Id, v: Id, n: nat) {
    exists p :: IsPath(q, p) && |p| == n + 1 && p[0] == root && p[n] == v
  }

  /** `n` is the length of a shortest path. */
  ghost predicate IsDistance(q: Query, root: Id, v: Id, n: nat) {
    Reaches(q, root, v, n) && forall m: nat | m < n :: !Reaches(q, root, v, m)
  }

  /** The edge leads from `u` to its callee `v`, or from `u` to its caller `v`, and neither filter blocks it. */
  ghost predicate Leads(q: Query, e: Edge, u: Id, v: Id) {
    && e in q.edges && e.doc !in q.hiddenDocs && q.extraction in {None, Some(e.extraction)}
    && (q.callees ==> e.source == u && e.target == v)
    && (!q.callees ==> e.source == v && e.target == u)
  }

  lemma HopsFollowEdges(q: Query, e: Edge, u: Id, v: Id)
    ensures Allowed(q, e) && From(q, e) == u && To(q, e) == v <==> Leads(q, e, u, v)
  {
  }

  /** The same edges, followed the other way. */
  function Backwards(q: Query): Query {
    q.(callees := !q.callees)
  }

  lemma HopsTurnAround(q: Query, u: Id, v: Id)
    ensures Hop(q, u, v) <==> Hop(Backwards(q), v, u)
  {
    if e: Edge :| Allowed(q, e) && From(q, e) == u && To(q, e) == v {
      assert Allowed(Backwards(q), e) && From(Backwards(q), e) == v && To(Backwards(q), e) == u;
    }
    if e: Edge :| Allowed(Backwards(q), e) && From(Backwards(q), e) == v && To(Backwards(q), e) == u {
      assert Allowed(q, e) && From(q, e) == u && To(q, e) == v;
    }
  }

  lemma PathsTurnAround(q: Query, u: Id, v: Id, n: nat)
    requires Reaches(q, u, v, n)
    ensures Reaches(Backwards(q), v, u, n)
  {
    var p :| IsPath(q, p) && |p| == n + 1 && p[0] == u && p[n] == v;
    var back := seq(n + 1, i requires 0 <= i < n + 1 => p[n - i]);
    forall i | 0 <= i < n ensures Hop(Backwards(q), back[i], back[i + 1]) {
      assert Hop(q, p[n - i - 1], p[n - i - 1 + 1]);
      HopsTurnAround(q, p[n - i - 1], p[n - i]);
    }
    assert IsPath(Backwards(q), back) && back[0] == v && back[n] == u;
  }

  /** A node is a caller of another at some distance exactly when that one is its callee at the same distance. */
  lemma CallersAreCalleesTheOtherWay(q: Query, u: Id, v: Id, n: nat)
    ensures IsDistance(q, u, v, n) <==> IsDistance(Backwards(q), v, u, n)
  {
    assert Backwards(Backwards(q)) == q;
    forall m: nat ensures Reaches(q, u, v, m) <==> Reaches(Backwards(q), v, u, m) {
      if Reaches(q, u, v, m) {
        PathsTurnAround(q, u, v, m);
      }
      if Reaches(Backwards(q), v, u, m) {
        PathsTurnAround(Backwards(q), v, u, m);
      }
    }
  }

  lemma ReachesFurther(q: Query, root: Id, u: Id, v: Id, n: nat)
    requires Reaches(q, root, u, n) && Hop(q, u, v)
    ensures Reaches(q, root, v, n + 1)
  {
    var p :| IsPath(q, p) && |p| == n + 1 && p[0] == root && p[n] == u;
    var p' := p + [v];
    assert forall i | 0 <= i < |p'| - 1 :: Hop(q, p'[i], p'[i + 1]);
    assert IsPath(q, p') && |p'| == n + 2 && p'[0] == root && p'[n + 1] == v;
  }

  // ------------------------------------------------------------------ one hop

  /** The smallest edge, by id, that leads from the frontier to `v`. */
  ghost predicate IsLeastEdge(q: Query, frontier: set<Id>, v: Id, e: Edge) {
    && Allowed(q, e) && From(q, e) in frontier && To(q, e) == v
    && forall o | Allowed(q, o) && From(q, o) in frontier && To(q, o) == v :: e.id <= o.id
  }

  /** `order` lists the neighbours of the frontier that were not visited yet. */
  ghost predicate Discovers(q: Query, visited: set<Id>, frontier: set<Id>, order: seq<Id>) {
    forall v :: v in order <==> v !in visited && exists u | u in frontier :: Hop(q, u, v)
  }

  /** Every node is reported with its smallest edge. */
  ghost predicate ByLeastEdges(q: Query, frontier: set<Id>, via: map<Id, Edge>) {
    forall v | v in via :: IsLeastEdge(q, frontier, v, via[v])
  }

  /** The neighbours of the frontier that were not visited yet, each once, with the edge that is reported. */
  method Expand(q: Query, frontier: set<Id>, visited: set<Id>) returns (order: seq<Id>, via: map<Id, Edge>)
    ensures Distinct(order) && forall v :: v in order <==> v in via
    ensures Discovers(q, visited, frontier, order)
    ensures ByLeastEdges(q, frontier, via)
    ensures FollowsLeastEdges(q, frontier, visited, order, via)
  {
    order, via := [], map[];
    for i := 0 to |q.edges|
      invariant Distinct(order) && forall v :: v in order <==> v in via
      invariant forall v | v in via ::
                  v !in visited && Allowed(q, via[v]) && From(q, via[v]) in frontier && To(q, via[v]) == v
      invariant forall j | 0 <= j < i && Allowed(q, q.edges[j]) && From(q, q.edges[j]) in frontier
                           && To(q, q.edges[j]) !in visited ::
                  To(q, q.edges[j]) in via && via[To(q, q.edges[j])].id <= q.edges[j].id
    {
      var e := q.edges[i];
      if Allowed(q, e) && From(q, e) in frontier && To(q, e) !in visited {
        var v := To(q, e);
        if v !in via {
          DistinctAround(v, order);
          order := order + [v];
          via := via[v := e];
        } else if e.id < via[v].id {
          via := via[v := e];
        }
      }
    }
    forall v ensures v in via <==> v !in visited && exists u | u in frontier :: Hop(q, u, v) {
      if v in via {
        assert Hop(q, From(q, via[v]), v);
      }
      if v !in visited && exists u | u in frontier :: Hop(q, u, v) {
        var u :| u in frontier && Hop(q, u, v);
        var e: Edge :| Allowed(q, e) && From(q, e) == u && To(q, e) == v;
        var j :| 0 <= j < |q.edges| && q.edges[j] == e;
      }
    }
    forall v | v in via ensures IsLeastEdge(q, frontier, v, via[v]) {
      forall o | Allowed(q, o) && From(q, o) in frontier && To(q, o) == v ensures via[v].id <= o.id {
        var j :| 0 <= j < |q.edges| && q.edges[j] == o;
      }
    }
    HopsFollowLeastEdges(q, frontier, visited, order, via);
  }

  /** The listed nodes are those that an edge leads to from the frontier, each with the smallest such edge. */
  ghost predicate FollowsLeastEdges(q: Query, frontier: set<Id>, visited: set<Id>, order: seq<Id>, via: map<Id, Edge>) {
    && (forall v :: v in order <==> v !in visited && exists e: Edge, u | u in frontier :: Leads(q, e, u, v))
    && (forall v | v in order :: v in via && exists u | u in frontier :: Leads(q, via[v], u, v))
    && (forall v, o: Edge, u | v in order && v in via && u in frontier && Leads(q, o, u, v) :: via[v].id <= o.id)
  }

  lemma HopsFollowLeastEdges(q: Query, frontier: set<Id>, visited: set<Id>, order: seq<Id>, via: map<Id, Edge>)
    requires Discovers(q, visited, frontier, order) && ByLeastEdges(q, frontier, via)
    requires forall v :: v in order <==> v in via
    ensures FollowsLeastEdges(q, frontier, visited, order, via)
  {
    forall v ensures v in order <==> v !in visited && exists e: Edge, u | u in frontier :: Leads(q, e, u, v) {
      if v in order {
        var e, u := via[v], From(q, via[v]);
        HopsFollowEdges(q, e, u, v);
        assert Leads(q, e, u, v);
      }
      if e: Edge, u :| u in frontier && Leads(q, e, u, v) {
        HopsFollowEdges(q, e, u, v);
        assert Hop(q, u, v);
      }
    }
    forall v | v in order ensures exists u | u in frontier :: Leads(q, via[v], u, v) {
      HopsFollowEdges(q, via[v], From(q, via[v]), v);
    }
    forall v, o: Edge, u | v in order && u in frontier && Leads(q, o, u, v) ensures via[v].id <= o.id {
      HopsFollowEdges(q, o, u, v);
    }
  }

  // ------------------------------------------------------------------ ranking

  /** PageRank of a node, absent when it was never computed. */
  type Ranks = map<Id, Option<real>>

  function RankOf(ranks: Ranks, v: Id): Option<real> {
    if v in ranks then ranks[v] else None
  }

  /** `(score is None, -score, id)` */
  predicate RanksBefore(ranks: Ranks, a: Id, b: Id) {
    match (RankOf(ranks, a), RankOf(ranks, b))
    case (Some(x), Some(y)) => x > y || (x == y && a <= b)
    case (Some(_), None) => true
    case (None, Some(_)) => false
    case (None, None) => a <= b
  }

  /** A known rank before none, the higher before the lower, and equals by id. */
  predicate RanksNoWorse(ranks: Ranks, a: Id, b: Id) {
    var x, y := if a in ranks then ranks[a] else None, if b in ranks then ranks[b] else None;
    && (y.Some? ==> x.Some? && x.value >= y.value)
    && (x == y ==> a <= b)
  }

  lemma TheHigherRankGoesFirst(ranks: Ranks, a: Id, b: Id)
    ensures RanksBefore(ranks, a, b) <==> RanksNoWorse(ranks, a, b)
  {
  }

  function ByRank(ranks: Ranks): (Id, Id) -> bool {
    (a: Id, b: Id) => RanksBefore(ranks, a, b)
  }

  /** The nodes that fewer than the cap rank before. */
  ghost function Best(ranks: Ranks, found: set<Id>): set<Id> {
    set v | v in found && |Above(ranks, found, v)| < MAX_IMPACT_GROUP_SIZE
  }

  ghost function Above(ranks: Ranks, found: set<Id>, v: Id): set<Id> {
    set u | u in found && u != v && RanksBefore(ranks, u, v)
  }

  /** The first of a sorted sequence are those with few before them. */
  lemma FirstAreBest(ranks: Ranks, sorted: seq<Id>, i: nat)
    requires Distinct(sorted) && SortedBy(ByRank(ranks), sorted) && i < |sorted|
    ensures |Above(ranks, Members(sorted), sorted[i])| == i
  {
    var before := sorted[..i];
    assert Above(ranks, Members(sorted), sorted[i]) == Members(before) by {
      forall u | u in Members(sorted) && u != sorted[i] && RanksBefore(ranks, u, sorted[i]) ensures u in before {
        var j :| 0 <= j < |sorted| && sorted[j] == u;
        assert j < i;
        assert before[j] == u;
      }
      forall u | u in before ensures u in Members(sorted) && u != sorted[i] && RanksBefore(ranks, u, sorted[i]) {
        var j :| 0 <= j < i && before[j] == u;
        assert sorted[j] == u && ByRank(ranks)(sorted[j], sorted[i]);
      }
    }
    DistinctCount(before);
  }

  /** The frontier carried into the next hop: what the hop found, or the best of it. */
  function NextFrontier(ranks: Ranks, order: seq<Id>): set<Id> {
    var kept := if |order| > MAX_IMPACT_GROUP_SIZE && |Sort(ByRank(ranks), order)| >= MAX_IMPACT_GROUP_SIZE
                then Sort(ByRank(ranks), order)[..MAX_IMPACT_GROUP_SIZE] else order;
    Members(kept)
  }

  lemma SortedByRank(ranks: Ranks, order: seq<Id>)
    requires Distinct(order)
    ensures var sorted := Sort(ByRank(ranks), order);
            |sorted| == |order| && Distinct(sorted) && SortedBy(ByRank(ranks), sorted)
                && Members(sorted) == Members(order)
  {
    SortKeeps(ByRank(ranks), order);
    assert TotalPreorder(ByRank(ranks));
    SortSorts(ByRank(ranks), order);
    PermutationsKeepDistinctness(order, Sort(ByRank(ranks), order));
  }

  lemma NextFrontierIsBest(ranks: Ranks, order: seq<Id>)
    requires Distinct(order)
    ensures NextFrontier(ranks, order) == Best(ranks, Members(order))
  {
    var sorted := Sort(ByRank(ranks), order);
    SortedByRank(ranks, order);
    var next := NextFrontier(ranks, order);
    forall v | v in Members(order) ensures v in next <==> |Above(ranks, Members(order), v)| < MAX_IMPACT_GROUP_SIZE {
      assert v in Members(sorted);
      var i :| 0 <= i < |sorted| && sorted[i] == v;
      FirstAreBest(ranks, sorted, i);
      if |order| > MAX_IMPACT_GROUP_SIZE {
        InPrefix(sorted, MAX_IMPACT_GROUP_SIZE, i);
      }
    }
    assert forall v | v in next :: v in Members(order);
  }

  lemma InPrefix(s: seq<Id>, n: nat, i: nat)
    requires Distinct(s) && n <= |s| && i < |s|
    ensures s[i] in s[..n] <==> i < n
  {
    if i < n {
      assert s[..n][i] == s[i];
    }
  }

  // ------------------------------------------------------------------ what the traversal computes

  /** The depths found by the first hops, and the frontier of the next one. */
  datatype Explored = Explored(depth: map<Id, nat>, frontier: set<Id>)

  ghost function Endpoints(q: Query): set<Id> {
    (set e | e in q.edges :: e.source) + (set e | e in q.edges :: e.target)
  }

  ghost function NewNodes(q: Query, s: Explored): set<Id> {
    set v | v in Endpoints(q) && v !in s.depth && exists u | u in s.frontier :: Hop(q, u, v)
  }

  /** `depth` with the nodes of a hop. */
  function WithHop(depth: map<Id, nat>, found: set<Id>, hop: nat): map<Id, nat> {
    map v | v in depth.Keys + found :: if v in depth then depth[v] else hop
  }

  ghost function Next(q: Query, ranks: Ranks, s: Explored, n: nat): Explored {
    Explored(WithHop(s.depth, NewNodes(q, s), n), Best(ranks, NewNodes(q, s)))
  }

  /** The state after `n` hops from the root. */
  ghost function After(q: Query, ranks: Ranks, root: Id, n: nat): Explored {
    if n == 0 then Explored(map[root := 0], {root}) else Next(q, ranks, After(q, ranks, root, n - 1), n)
  }

  ghost function DepthAfter(q: Query, ranks: Ranks, root: Id, n: nat): map<Id, nat> {
    After(q, ranks, root, n).depth
  }

  lemma HopsLeadToEndpoints(q: Query, u: Id, v: Id)
    requires Hop(q, u, v)
    ensures v in Endpoints(q)
  {
    var e: Edge :| Allowed(q, e) && From(q, e) == u && To(q, e) == v;
  }

  /** A hop that finds nothing is the last one. */
  lemma {:induction false} NothingAfterADryHop(q: Query, ranks: Ranks, hops: seq<Explored>, k: nat, n: nat)
    requires k <= n < |hops| && forall i | k <= i < n :: hops[i + 1] == Next(q, ranks, hops[i], i + 1)
    requires NewNodes(q, hops[k]) == {}
    ensures hops[n].depth == hops[k].depth && NewNodes(q, hops[n]) == {}
  {
    if k < n {
      NothingAfterADryHop(q, ranks, hops, k, n - 1);
      assert hops[n - 1 + 1] == Next(q, ranks, hops[n - 1], n - 1 + 1);
      DryHop(q, ranks, hops[n - 1], n);
    }
  }

  lemma DryHop(q: Query, ranks: Ranks, s: Explored, n: nat)
    requires NewNodes(q, s) == {}
    ensures Next(q, ranks, s, n) == Explored(s.depth, {}) && NewNodes(q, Explored(s.depth, {})) == {}
  {
    assert WithHop(s.depth, {}, n) == s.depth;
    assert Best(ranks, {}) == {};
  }

  // ------------------------------------------------------------------ and what that means on the graph

  /** Depths as found so far: the root at 0, every other visited node at the hop that found it. */
  ghost predicate Sound(q: Query, root: Id, depth: map<Id, nat>) {
    && root in depth && depth[root] == 0
    && (forall v | v in depth :: Reaches(q, root, v, depth[v]))
    && (forall v | v in depth && v != root :: depth[v] >= 1)
  }

  /** Every node found before hop `k` has its neighbours found, at most one hop later. */
  ghost predicate Expanded(q: Query, depth: map<Id, nat>, k: nat) {
    forall u, v | u in depth && depth[u] < k && Hop(q, u, v) :: v in depth && depth[v] <= depth[u] + 1
  }

  lemma {:induction false} ExpandedReachesEverything(q: Query, root: Id, depth: map<Id, nat>, k: nat, v: Id, n: nat)
    requires Sound(q, root, depth) && Expanded(q, depth, k) && Reaches(q, root, v, n) && n <= k
    ensures v in depth && depth[v] <= n
    decreases n
  {
    var p :| IsPath(q, p) && |p| == n + 1 && p[0] == root && p[n] == v;
    if n > 0 {
      var front := p[..n];
      assert IsPath(q, front) && front[n - 1] == p[n - 1];
      assert Reaches(q, root, p[n - 1], n - 1);
      ExpandedReachesEverything(q, root, depth, k, p[n - 1], n - 1);
      assert Hop(q, p[n - 1], p[n]);
    }
  }

  /** The nodes found are exactly those within `k` hops, at their true distance. */
  lemma DepthsAreDistances(q: Query, root: Id, depth: map<Id, nat>, k: nat)
    requires Sound(q, root, depth) && Expanded(q, depth, k)
    ensures forall v, n: nat | n <= k :: IsDistance(q, root, v, n) <==> v in depth && depth[v] == n
  {
    forall v, n: nat | n <= k ensures IsDistance(q, root, v, n) <==> v in depth && depth[v] == n {
      if IsDistance(q, root, v, n) {
        ExpandedReachesEverything(q, root, depth, k, v, n);
        assert Reaches(q, root, v, depth[v]);
      }
      if v in depth && depth[v] == n {
        forall m: nat | m < n ensures !Reaches(q, root, v, m) {
          if Reaches(q, root, v, m) {
            ExpandedReachesEverything(q, root, depth, k, v, m);
          }
        }
      }
    }
  }

  /** The frontier after hop `k` consists of nodes found at that hop, the last one so far. */
  ghost predicate Front(s: Explored, k: nat) {
    && (forall v | v in s.depth :: s.depth[v] <= k)
    && (forall u | u in s.frontier :: u in s.depth && s.depth[u] == k)
  }

  ghost predicate Covers(s: Explored, k: nat) {
    forall v | v in s.depth && s.depth[v] == k :: v in s.frontier
  }

  lemma FewAreAllBest(ranks: Ranks, found: set<Id>)
    requires |found| <= MAX_IMPACT_GROUP_SIZE
    ensures Best(ranks, found) == found
  {
    forall v | v in found ensures |Above(ranks, found, v)| < MAX_IMPACT_GROUP_SIZE {
      SubsetsAreSmaller(Above(ranks, found, v), found - {v});
    }
  }

  /** Whatever the caps cut, every depth is witnessed by a path of that length. */
  lemma {:induction false} DepthsAreWitnessed(q: Query, ranks: Ranks, root: Id, n: nat)
    ensures Sound(q, root, DepthAfter(q, ranks, root, n)) && Front(After(q, ranks, root, n), n)
  {
    if n == 0 {
      assert IsPath(q, [root]) && [root][0] == root;
      assert Reaches(q, root, root, 0);
    } else {
      DepthsAreWitnessed(q, ranks, root, n - 1);
      HopIsWitnessed(q, ranks, root, After(q, ranks, root, n - 1), n);
    }
  }

  lemma HopIsWitnessed(q: Query, ranks: Ranks, root: Id, s: Explored, n: nat)
    requires n >= 1 && Sound(q, root, s.depth) && Front(s, n - 1)
    ensures var s' := Next(q, ranks, s, n); Sound(q, root, s'.depth) && Front(s', n)
  {
    var s' := Next(q, ranks, s, n);
    forall v | v in NewNodes(q, s) ensures Reaches(q, root, v, n) {
      var u :| u in s.frontier && Hop(q, u, v);
      ReachesFurther(q, root, u, v, n - 1);
    }
  }

  /** The nodes at a distance from the root. */
  ghost function AtDistance(q: Query, root: Id, n: nat): set<Id> {
    set v | v in Endpoints(q) + {root} && IsDistance(q, root, v, n)
  }

  /** No distance that is expanded further has more nodes than the cap: a condition on the graph. */
  ghost predicate WithinCaps(q: Query, root: Id, hops: nat) {
    forall n | 1 <= n < hops :: |AtDistance(q, root, n)| <= MAX_IMPACT_GROUP_SIZE
  }

  lemma ExpandedByOneMore(q: Query, ranks: Ranks, s: Explored, n: nat)
    requires n >= 1 && Front(s, n - 1) && Covers(s, n - 1) && Expanded(q, s.depth, n - 1)
    ensures Expanded(q, Next(q, ranks, s, n).depth, n)
  {
    var s' := Next(q, ranks, s, n);
    forall u, v | u in s'.depth && s'.depth[u] < n && Hop(q, u, v)
      ensures v in s'.depth && s'.depth[v] <= s'.depth[u] + 1
    {
      assert u in s.depth;
      HopsLeadToEndpoints(q, u, v);
      if s.depth[u] == n - 1 && v !in s.depth {
        assert v in NewNodes(q, s);
      }
    }
  }

  /** A complete hop finds nodes at their distance, so it cannot find more than there are. */
  lemma FewAreFound(q: Query, ranks: Ranks, root: Id, n: nat, limit: nat)
    requires 1 <= n < limit && WithinCaps(q, root, limit) && Expanded(q, DepthAfter(q, ranks, root, n), n)
    ensures |NewNodes(q, After(q, ranks, root, n - 1))| <= MAX_IMPACT_GROUP_SIZE
  {
    var found := NewNodes(q, After(q, ranks, root, n - 1));
    DepthsAreWitnessed(q, ranks, root, n);
    DepthsAreDistances(q, root, DepthAfter(q, ranks, root, n), n);
    forall v | v in found ensures v in AtDistance(q, root, n) {
      assert v in DepthAfter(q, ranks, root, n) && DepthAfter(q, ranks, root, n)[v] == n;
    }
    SubsetsAreSmaller(found, AtDistance(q, root, n));
  }

  lemma FoundAtHop(depth: map<Id, nat>, found: set<Id>, k: nat)
    requires forall v | v in depth :: depth[v] < k
    ensures forall v | v in WithHop(depth, found, k) && WithHop(depth, found, k)[v] == k :: v in found
  {
  }

  /** A frontier that was not cut covers its hop. */
  lemma UncutFrontiersCover(q: Query, ranks: Ranks, root: Id, n: nat)
    requires n >= 1 && |NewNodes(q, After(q, ranks, root, n - 1))| <= MAX_IMPACT_GROUP_SIZE
    ensures Covers(After(q, ranks, root, n), n)
  {
    DepthsAreWitnessed(q, ranks, root, n - 1);
    var s := After(q, ranks, root, n - 1);
    var found := NewNodes(q, s);
    FewAreAllBest(ranks, found);
    FoundAtHop(s.depth, found, n);
    assert After(q, ranks, root, n) == Explored(WithHop(s.depth, found, n), found);
  }

  /** Within the caps no frontier is cut, so every hop is expanded completely. */
  lemma {:induction false} WithinCapsNothingIsCut(q: Query, ranks: Ranks, root: Id, n: nat, limit: nat)
    requires WithinCaps(q, root, limit) && n <= limit
    ensures Expanded(q, DepthAfter(q, ranks, root, n), n) && (n < limit ==> Covers(After(q, ranks, root, n), n))
  {
    if n > 0 {
      WithinCapsNothingIsCut(q, ranks, root, n - 1, limit);
      AnotherUncutHop(q, ranks, root, n, limit);
    }
  }

  lemma AnotherUncutHop(q: Query, ranks: Ranks, root: Id, n: nat, limit: nat)
    requires WithinCaps(q, root, limit) && 1 <= n <= limit
    requires Expanded(q, DepthAfter(q, ranks, root, n - 1), n - 1) && Covers(After(q, ranks, root, n - 1), n - 1)
    ensures Expanded(q, DepthAfter(q, ranks, root, n), n) && (n < limit ==> Covers(After(q, ranks, root, n), n))
  {
    DepthsAreWitnessed(q, ranks, root, n - 1);
    ExpandedByOneMore(q, ranks, After(q, ranks, root, n - 1), n);
    if n < limit {
      FewAreFound(q, ranks, root, n, limit);
      UncutFrontiersCover(q, ranks, root, n);
    }
  }

  /** Within the caps the traversal finds exactly the nodes within its depth, each at its true distance. */
  lemma WithinCapsDepthsAreDistances(q: Query, ranks: Ranks, root: Id, limit: nat)
    requires WithinCaps(q, root, limit)
    ensures forall v, n: nat | n <= limit ::
              IsDistance(q, root, v, n) <==>
                  v in DepthAfter(q, ranks, root, limit) && DepthAfter(q, ranks, root, limit)[v] == n
  {
    DepthsAreWitnessed(q, ranks, root, limit);
    WithinCapsNothingIsCut(q, ranks, root, limit, limit);
    DepthsAreDistances(q, root, DepthAfter(q, ranks, root, limit), limit);
  }

  // ------------------------------------------------------------------ the rows of an answer

  datatype ImpactEdge = ImpactEdge(entity: Id, depth: nat, rel: string, extraction: string)

  datatype ImpactGroup = ImpactGroup(direct: seq<ImpactEdge>, indirect: seq<ImpactEdge>, truncated: bool, omitted: nat)

  /** The row reports the smallest edge that led from the frontier of its hop to its node. */
  ghost predicate RowOk(q: Query, ranks: Ranks, root: Id, r: ImpactEdge) {
    r.depth >= 1 && ReportsLeastEdge(q, FrontierAfter(q, ranks, root, r.depth - 1), r)
  }

  ghost function FrontierAfter(q: Query, ranks: Ranks, root: Id, n: nat): set<Id> {
    After(q, ranks, root, n).frontier
  }

  ghost predicate ReportsLeastEdge(q: Query, frontier: set<Id>, r: ImpactEdge) {
    exists e: Edge :: IsLeastEdge(q, frontier, r.entity, e) && r.rel == e.rel && r.extraction == e.extraction
  }

  ghost predicate DistinctEntities(rows: seq<ImpactEdge>) {
    forall i, j | 0 <= i < j < |rows| :: rows[i].entity != rows[j].entity
  }

  ghost predicate Listed(direct: seq<ImpactEdge>, indirect: seq<ImpactEdge>, v: Id) {
    exists r: ImpactEdge :: (r in direct || r in indirect) && r.entity == v
  }

  function AddDirect(direct: seq<ImpactEdge>, row: ImpactEdge): seq<ImpactEdge> {
    if row.depth == 1 then direct + [row] else direct
  }

  function AddIndirect(indirect: seq<ImpactEdge>, row: ImpactEdge): seq<ImpactEdge> {
    if row.depth == 1 then indirect else indirect + [row]
  }

  /** The rows lie in the depths, one node each, as many as there are nodes. */
  ghost predicate Fit(depth: map<Id, nat>, root: Id, direct: seq<ImpactEdge>, indirect: seq<ImpactEdge>) {
    && (forall r | r in direct :: r.entity in depth && r.entity != root && depth[r.entity] == r.depth == 1)
    && (forall r | r in indirect :: r.entity in depth && r.entity != root && depth[r.entity] == r.depth >= 2)
    && DistinctEntities(direct) && DistinctEntities(indirect)
    && |direct| + |indirect| + 1 == |depth|
  }

  /** One row per node found, in `direct` exactly those at depth one. */
  ghost predicate Lists(depth: map<Id, nat>, root: Id, direct: seq<ImpactEdge>, indirect: seq<ImpactEdge>) {
    Fit(depth, root, direct, indirect) && forall v | v in depth && v != root :: Listed(direct, indirect, v)
  }

  lemma DistinctAndOneMore(rows: seq<ImpactEdge>, row: ImpactEdge)
    requires DistinctEntities(rows) && forall r | r in rows :: r.entity != row.entity
    ensures DistinctEntities(rows + [row])
  {
    assert forall k | 0 <= k < |rows| :: rows[k] in rows;
  }

  lemma OneMoreRowFits(depth: map<Id, nat>, root: Id, direct: seq<ImpactEdge>, indirect: seq<ImpactEdge>,
                       row: ImpactEdge)
    requires Fit(depth, root, direct, indirect) && root in depth && row.entity !in depth && row.depth >= 1
    ensures Fit(depth[row.entity := row.depth], root, AddDirect(direct, row), AddIndirect(indirect, row))
  {
    var depth' := depth[row.entity := row.depth];
    assert depth'.Keys == depth.Keys + {row.entity};
    assert |depth'.Keys| == |depth.Keys| + 1;
    if row.depth == 1 {
      DistinctAndOneMore(direct, row);
    } else {
      DistinctAndOneMore(indirect, row);
    }
  }

  lemma OneMoreRow(depth: map<Id, nat>, root: Id, direct: seq<ImpactEdge>, indirect: seq<ImpactEdge>, row: ImpactEdge)
    requires Lists(depth, root, direct, indirect) && root in depth && row.entity !in depth && row.depth >= 1
    ensures Lists(depth[row.entity := row.depth], root, AddDirect(direct, row), AddIndirect(indirect, row))
  {
    OneMoreRowFits(depth, root, direct, indirect, row);
    forall v | v in depth[row.entity := row.depth] && v != root
      ensures Listed(AddDirect(direct, row), AddIndirect(indirect, row), v)
    {
      ListedStill(direct, indirect, row, v);
    }
  }

  lemma ListedStill(direct: seq<ImpactEdge>, indirect: seq<ImpactEdge>, row: ImpactEdge, v: Id)
    requires v == row.entity || Listed(direct, indirect, v)
    ensures Listed(AddDirect(direct, row), AddIndirect(indirect, row), v)
  {
    var d, i := AddDirect(direct, row), AddIndirect(indirect, row);
    if v == row.entity {
      assert row in d || row in i;
    } else {
      var r: ImpactEdge :| (r in direct || r in indirect) && r.entity == v;
      assert r in d || r in i;
    }
  }

  lemma NextRow(root: Id, depth: map<Id, nat>, order: seq<Id>, i: nat, row: ImpactEdge, direct: seq<ImpactEdge>,
                indirect: seq<ImpactEdge>)
    requires root in depth && Distinct(order) && (forall v | v in order :: v !in depth)
    requires i < |order| && row.entity == order[i] && row.depth >= 1
    requires Lists(WithHop(depth, Members(order[..i]), row.depth), root, direct, indirect)
    ensures Lists(WithHop(depth, Members(order[..i + 1]), row.depth), root, AddDirect(direct, row),
                  AddIndirect(indirect, row))
  {
    HopGrows(depth, order, i, row.depth);
    OneMoreRow(WithHop(depth, Members(order[..i]), row.depth), root, direct, indirect, row);
  }

  lemma HopGrows(depth: map<Id, nat>, order: seq<Id>, i: nat, hops: nat)
    requires Distinct(order) && (forall v | v in order :: v !in depth) && i < |order|
    ensures order[i] !in WithHop(depth, Members(order[..i]), hops)
    ensures WithHop(depth, Members(order[..i + 1]), hops) == WithHop(depth, Members(order[..i]), hops)[order[i] := hops]
  {
    assert order[..i + 1] == order[..i] + [order[i]];
    assert order[i] !in order[..i];
  }

  /** The rows of an answer in the making. */
  ghost predicate Answers(q: Query, ranks: Ranks, root: Id, depth: map<Id, nat>, direct: seq<ImpactEdge>,
                          indirect: seq<ImpactEdge>) {
    && Lists(depth, root, direct, indirect)
    && (forall r | r in direct :: RowOk(q, ranks, root, r)) && (forall r | r in indirect :: RowOk(q, ranks, root, r))
  }

  lemma NewRowOk(q: Query, ranks: Ranks, root: Id, row: ImpactEdge, done: nat, e: Edge)
    requires row.depth == done + 1 && IsLeastEdge(q, FrontierAfter(q, ranks, root, done), row.entity, e)
    requires row.rel == e.rel && row.extraction == e.extraction
    ensures RowOk(q, ranks, root, row)
  {
  }

  lemma NextAnswer(q: Query, ranks: Ranks, root: Id, depth: map<Id, nat>, order: seq<Id>, i: nat, row: ImpactEdge,
                   direct: seq<ImpactEdge>, indirect: seq<ImpactEdge>)
    requires root in depth && Distinct(order) && (forall v | v in order :: v !in depth)
    requires i < |order| && row.entity == order[i] && RowOk(q, ranks, root, row)
    requires Answers(q, ranks, root, WithHop(depth, Members(order[..i]), row.depth), direct, indirect)
    ensures Answers(q, ranks, root, WithHop(depth, Members(order[..i + 1]), row.depth), AddDirect(direct, row),
                    AddIndirect(indirect, row))
  {
    NextRow(root, depth, order, i, row, direct, indirect);
  }

  /** The rows of one hop, in the order of its discoveries. */
  method ListHop(ghost q: Query, ghost ranks: Ranks, root: Id, ghost depth: map<Id, nat>, ghost frontier: set<Id>,
                 ghost done: nat, order: seq<Id>, via: map<Id, Edge>, hop: nat, direct: seq<ImpactEdge>,
                 indirect: seq<ImpactEdge>)
    returns (direct': seq<ImpactEdge>, indirect': seq<ImpactEdge>)
    requires hop == done + 1 && root in depth && Answers(q, ranks, root, depth, direct, indirect)
    requires Distinct(order) && forall v | v in order :: v in via && v !in depth
    requires ByLeastEdges(q, frontier, via) && frontier == FrontierAfter(q, ranks, root, done)
    ensures Answers(q, ranks, root, WithHop(depth, Members(order), hop), direct', indirect')
  {
    direct', indirect' := direct, indirect;
    assert WithHop(depth, Members(order[..0]), hop) == depth;
    for i := 0 to |order|
      invariant Answers(q, ranks, root, WithHop(depth, Members(order[..i]), hop), direct', indirect')
    {
      var e := via[order[i]];
      var row := ImpactEdge(order[i], hop, e.rel, e.extraction);
      NewRowOk(q, ranks, root, row, done, e);
      NextAnswer(q, ranks, root, depth, order, i, row, direct', indirect');
      if hop == 1 {
        direct' := direct' + [row];
      } else {
        indirect' := indirect' + [row];
      }
    }
    assert order[..|order|] == order;
  }

  // ------------------------------------------------------------------ the search

  lemma DiscoversNewNodes(q: Query, s: Explored, order: seq<Id>)
    requires Discovers(q, s.depth.Keys, s.frontier, order)
    ensures Members(order) == NewNodes(q, s)
    ensures forall v | v in order :: v !in s.depth
    ensures order == [] ==> NewNodes(q, s) == {}
  {
    forall v | v in order ensures v in Endpoints(q) {
      var u :| u in s.frontier && Hop(q, u, v);
      HopsLeadToEndpoints(q, u, v);
    }
  }

  /** The last hop that found anything. */
  ghost predicate LastHop(depth: map<Id, nat>, hop: nat) {
    && (forall v | v in depth :: depth[v] <= hop)
    && (hop > 0 ==> exists v :: v in depth && depth[v] == hop)
  }

  /** One turn of the loop, after `done` hops. */
  method ExpandHop(q: Query, ranks: Ranks, root: Id, done: nat, frontier: set<Id>, visited: set<Id>, ghost s: Explored,
                   direct: seq<ImpactEdge>, indirect: seq<ImpactEdge>)
    returns (order: seq<Id>, next: set<Id>, direct': seq<ImpactEdge>, indirect': seq<ImpactEdge>)
    requires s == After(q, ranks, root, done) && root in s.depth && Front(s, done)
    requires visited == s.depth.Keys && frontier == s.frontier && Answers(q, ranks, root, s.depth, direct, indirect)
    ensures Next(q, ranks, s, done + 1) == Explored(WithHop(s.depth, Members(order), done + 1), next)
    ensures Answers(q, ranks, root, WithHop(s.depth, Members(order), done + 1), direct', indirect')
    ensures (forall v | v in order :: v !in s.depth) && (order == [] ==> NewNodes(q, s) == {})
  {
    var via: map<Id, Edge>;
    order, via := Expand(q, frontier, visited);
    DiscoversNewNodes(q, s, order);
    direct', indirect' := ListHop(q, ranks, root, s.depth, frontier, done, order, via, done + 1, direct, indirect);
    NextFrontierIsBest(ranks, order);
    next := NextFrontier(ranks, order);
  }

  lemma OneHopFurther(q: Query, ranks: Ranks, root: Id, done: nat, s: Explored)
    requires s == After(q, ranks, root, done)
    ensures After(q, ranks, root, done + 1) == Next(q, ranks, s, done + 1)
  {
  }

  lemma HopTaken(depth: map<Id, nat>, order: seq<Id>, hop: nat)
    requires order != [] && (forall v | v in order :: v !in depth) && forall v | v in depth :: depth[v] <= hop
    ensures WithHop(depth, Members(order), hop).Keys == depth.Keys + Members(order)
    ensures LastHop(WithHop(depth, Members(order), hop), hop)
  {
    assert order[0] in Members(order);
  }

  lemma BeforeTheFirstHop(q: Query, ranks: Ranks, root: Id)
    ensures After(q, ranks, root, 0) == Explored(map[root := 0], {root})
    ensures Answers(q, ranks, root, DepthAfter(q, ranks, root, 0), [], []) && LastHop(DepthAfter(q, ranks, root, 0), 0)
  {
    assert |map[root := 0]| == 1;
  }

  /** The hops from the root on compute the specified depths. */
  method Search(q: Query, ranks: Ranks, root: Id, effectiveDepth: nat)
    returns (direct: seq<ImpactEdge>, indirect: seq<ImpactEdge>, depthUsed: nat)
    ensures Answers(q, ranks, root, DepthAfter(q, ranks, root, effectiveDepth), direct, indirect)
    ensures depthUsed <= effectiveDepth && LastHop(DepthAfter(q, ranks, root, effectiveDepth), depthUsed)
  {
    BeforeTheFirstHop(q, ranks, root);
    direct, indirect, depthUsed := [], [], 0;
    var visited, frontier := {root}, {root};
    ghost var s := After(q, ranks, root, 0);
    while depthUsed < effectiveDepth
      invariant depthUsed <= effectiveDepth
      invariant s == After(q, ranks, root, depthUsed) && visited == s.depth.Keys && frontier == s.frontier
      invariant Answers(q, ranks, root, s.depth, direct, indirect) && LastHop(s.depth, depthUsed)
    {
      DepthsAreWitnessed(q, ranks, root, depthUsed);
      var order, next, d, i := ExpandHop(q, ranks, root, depthUsed, frontier, visited, s, direct, indirect);
      if order == [] {
        SearchEnds(q, ranks, root, depthUsed, s, effectiveDepth);
        return;
      }
      OneHopFurther(q, ranks, root, depthUsed, s);
      HopTaken(s.depth, order, depthUsed + 1);
      s := Explored(WithHop(s.depth, Members(order), depthUsed + 1), next);
      direct, indirect := d, i;
      visited, frontier, depthUsed := visited + Members(order), next, depthUsed + 1;
    }
  }

  /** The states after the first hops, each made from the one before. */
  lemma {:induction false} TheHops(q: Query, ranks: Ranks, root: Id, n: nat) returns (hops: seq<Explored>)
    ensures |hops| == n + 1 && forall i | 0 <= i <= n :: hops[i] == After(q, ranks, root, i)
  {
    if n == 0 {
      hops := [After(q, ranks, root, 0)];
    } else {
      var before := TheHops(q, ranks, root, n - 1);
      var last := After(q, ranks, root, n);
      hops := before + [last];
    }
  }

  lemma EachHopFollows(q: Query, ranks: Ranks, root: Id, hops: seq<Explored>, i: nat)
    requires i + 1 < |hops| && hops[i] == After(q, ranks, root, i) && hops[i + 1] == After(q, ranks, root, i + 1)
    ensures hops[i + 1] == Next(q, ranks, hops[i], i + 1)
  {
    OneHopFurther(q, ranks, root, i, hops[i]);
  }

  lemma SearchEnds(q: Query, ranks: Ranks, root: Id, n: nat, s: Explored, limit: nat)
    requires n <= limit && s == After(q, ranks, root, n) && NewNodes(q, s) == {}
    ensures DepthAfter(q, ranks, root, limit) == s.depth
  {
    var hops := TheHops(q, ranks, root, limit);
    forall i | n <= i < limit ensures hops[i + 1] == Next(q, ranks, hops[i], i + 1) {
      EachHopFollows(q, ranks, root, hops, i);
    }
    NothingAfterADryHop(q, ranks, hops, n, limit);
    assert hops[limit] == After(q, ranks, root, limit) && hops[n] == s;
  }

  // ------------------------------------------------------------------ sorting and the cap

  function RowBefore(ranks: Ranks): (ImpactEdge, ImpactEdge) -> bool {
    (a: ImpactEdge, b: ImpactEdge) => RanksBefore(ranks, a.entity, b.entity)
  }

  /** Sorting and the cap on the answer: `direct` rows are kept before `indirect` ones. */
  function Capped(ranks: Ranks, direct: seq<ImpactEdge>, indirect: seq<ImpactEdge>): ImpactGroup
    requires |Sort(RowBefore(ranks), direct)| == |direct| && |Sort(RowBefore(ranks), indirect)| == |indirect|
  {
    var d, i := Sort(RowBefore(ranks), direct), Sort(RowBefore(ranks), indirect);
    var total := |d| + |i|;
    if total > MAX_IMPACT_GROUP_SIZE then
      var keptDirect := Take(d, MAX_IMPACT_GROUP_SIZE);
      var keptIndirect := Take(i, MAX_IMPACT_GROUP_SIZE - |keptDirect|);
      ImpactGroup(keptDirect, keptIndirect, true, total - |keptDirect| - |keptIndirect|)
    else ImpactGroup(d, i, false, 0)
  }

  lemma PermutedEntities(a: seq<ImpactEdge>, b: seq<ImpactEdge>)
    requires multiset(a) == multiset(b) && DistinctEntities(a)
    ensures DistinctEntities(b)
  {
    PermutationsKeepDistinctness(a, b);
    SameElements(a, b);
    forall i, j | 0 <= i < j < |b| ensures b[i].entity != b[j].entity {
      assert b[i] in a && b[j] in a;
      var k :| 0 <= k < |a| && a[k] == b[i];
      var l :| 0 <= l < |a| && a[l] == b[j];
      assert a[k] != a[l];
    }
  }

  /** `kept` are the best `|kept|` of the rows, in order, each node once. */
  ghost predicate BestRows(ranks: Ranks, rows: seq<ImpactEdge>, kept: seq<ImpactEdge>) {
    && |kept| <= |rows| && (forall r | r in kept :: r in rows) && DistinctEntities(kept)
        && SortedBy(RowBefore(ranks), kept)
    && (forall r | r in rows && r !in kept :: forall o | o in kept :: RanksBefore(ranks, o.entity, r.entity))
    && (|kept| == |rows| ==> forall r | r in rows :: r in kept)
  }

  lemma TakenAreBest(ranks: Ranks, rows: seq<ImpactEdge>, n: nat)
    requires DistinctEntities(rows)
    ensures var sorted := Sort(RowBefore(ranks), rows); |sorted| == |rows| && BestRows(ranks, rows, Take(sorted, n))
  {
    var le, sorted := RowBefore(ranks), Sort(RowBefore(ranks), rows);
    SortKeeps(le, rows);
    assert TotalPreorder(le);
    SortSorts(le, rows);
    PermutedEntities(rows, sorted);
    var kept := Take(sorted, n);
    TakenAreDistinct(le, sorted, n);
    forall r, o | r in sorted && r !in kept && o in kept ensures RanksBefore(ranks, o.entity, r.entity) {
      KeptBeforeOthers(ranks, sorted, |kept|, r, o);
    }
  }

  lemma TakenAreDistinct(le: (ImpactEdge, ImpactEdge) -> bool, sorted: seq<ImpactEdge>, n: nat)
    requires DistinctEntities(sorted) && SortedBy(le, sorted)
    ensures DistinctEntities(Take(sorted, n)) && SortedBy(le, Take(sorted, n))
    ensures forall r | r in Take(sorted, n) :: r in sorted
  {
  }

  lemma KeptBeforeOthers(ranks: Ranks, sorted: seq<ImpactEdge>, n: nat, r: ImpactEdge, o: ImpactEdge)
    requires SortedBy(RowBefore(ranks), sorted) && n <= |sorted| && r in sorted && r !in sorted[..n] && o in sorted[..n]
    ensures RanksBefore(ranks, o.entity, r.entity)
  {
    var i :| 0 <= i < |sorted| && sorted[i] == r;
    var j :| 0 <= j < n && sorted[..n][j] == o;
    assert i >= n;
    assert RowBefore(ranks)(sorted[j], sorted[i]);
  }

  /** The answer: kept rows are the best ones of their kind, `direct` before `indirect`, and none is lost uncounted. */
  ghost predicate IsCapped(ranks: Ranks, direct: seq<ImpactEdge>, indirect: seq<ImpactEdge>, g: ImpactGroup) {
    && BestRows(ranks, direct, g.direct) && BestRows(ranks, indirect, g.indirect)
    && |g.direct| + |g.indirect| + g.omitted == |direct| + |indirect|
    && |g.direct| + |g.indirect| <= MAX_IMPACT_GROUP_SIZE
    && (g.omitted > 0 ==> |g.direct| + |g.indirect| == MAX_IMPACT_GROUP_SIZE)
    && (g.truncated <==> g.omitted > 0)
    && (g.indirect != [] ==> |g.direct| == |direct|)
  }

  lemma CappedKeepsTheBest(ranks: Ranks, direct: seq<ImpactEdge>, indirect: seq<ImpactEdge>)
    requires DistinctEntities(direct) && DistinctEntities(indirect)
    ensures |Sort(RowBefore(ranks), direct)| == |direct| && |Sort(RowBefore(ranks), indirect)| == |indirect|
    ensures IsCapped(ranks, direct, indirect, Capped(ranks, direct, indirect))
  {
    var cap := MAX_IMPACT_GROUP_SIZE;
    TakenAreBest(ranks, direct, cap);
    var keptDirect := Take(Sort(RowBefore(ranks), direct), cap);
    TakenAreBest(ranks, indirect, cap - |keptDirect|);
  }

  /** What an answer says of the depths found, with or without the cap: every row is witnessed at its depth, each
      node has at most one, kept and omitted add up to the nodes found, and what is omitted ranks behind what is
      kept, every node at depth one before any other. */
  ghost predicate Reports(q: Query, ranks: Ranks, root: Id, depth: map<Id, nat>, g: ImpactGroup) {
    && |g.direct| + |g.indirect| + g.omitted + 1 == |depth| && |g.direct| + |g.indirect| <= MAX_IMPACT_GROUP_SIZE
    && (g.truncated <==> g.omitted > 0)
    && (g.truncated ==> |g.direct| + |g.indirect| == MAX_IMPACT_GROUP_SIZE)
    && (forall r | r in g.direct ::
        r.entity in depth && r.entity != root && depth[r.entity] == r.depth == 1 && RowOk(q, ranks, root, r))
    && (forall r | r in g.indirect ::
        r.entity in depth && r.entity != root && depth[r.entity] == r.depth >= 2 && RowOk(q, ranks, root, r))
    && DistinctEntities(g.direct) && DistinctEntities(g.indirect)
    && SortedBy(RowBefore(ranks), g.direct) && SortedBy(RowBefore(ranks), g.indirect)
    && (forall v | v in depth && v != root && !Listed(g.direct, g.indirect, v) ::
          && g.truncated
          && (depth[v] == 1 ==> g.indirect == [] && forall r | r in g.direct :: RanksBefore(ranks, r.entity, v))
          && (depth[v] >= 2 ==> forall r | r in g.indirect :: RanksBefore(ranks, r.entity, v)))
  }

  lemma OmittedRanksBehind(ranks: Ranks, depth: map<Id, nat>, root: Id, direct: seq<ImpactEdge>,
                           indirect: seq<ImpactEdge>, g: ImpactGroup, v: Id)
    requires Lists(depth, root, direct, indirect) && IsCapped(ranks, direct, indirect, g)
    requires v in depth && v != root && !Listed(g.direct, g.indirect, v)
    ensures g.truncated
    ensures depth[v] == 1 ==> g.indirect == [] && forall r | r in g.direct :: RanksBefore(ranks, r.entity, v)
    ensures depth[v] >= 2 ==> forall r | r in g.indirect :: RanksBefore(ranks, r.entity, v)
  {
    assert Listed(direct, indirect, v);
    var r: ImpactEdge :| (r in direct || r in indirect) && r.entity == v;
    assert r !in g.direct && r !in g.indirect;
  }

  lemma CappedAnswersReport(q: Query, ranks: Ranks, root: Id, depth: map<Id, nat>, direct: seq<ImpactEdge>,
                            indirect: seq<ImpactEdge>, g: ImpactGroup)
    requires Answers(q, ranks, root, depth, direct, indirect) && IsCapped(ranks, direct, indirect, g)
    ensures Reports(q, ranks, root, depth, g)
  {
    forall v | v in depth && v != root && !Listed(g.direct, g.indirect, v)
      ensures g.truncated
      ensures depth[v] == 1 ==> g.indirect == [] && forall r | r in g.direct :: RanksBefore(ranks, r.entity, v)
      ensures depth[v] >= 2 ==> forall r | r in g.indirect :: RanksBefore(ranks, r.entity, v)
    {
      OmittedRanksBehind(ranks, depth, root, direct, indirect, g, v);
    }
  }

  /** A neighbour of the root is found at depth one. */
  lemma {:induction false} NeighboursAreAtDepthOne(q: Query, ranks: Ranks, root: Id, n: nat, v: Id)
    requires n >= 1 && Hop(q, root, v) && v != root
    ensures v in DepthAfter(q, ranks, root, n) && DepthAfter(q, ranks, root, n)[v] == 1
  {
    if n == 1 {
      HopsLeadToEndpoints(q, root, v);
      assert v in NewNodes(q, After(q, ranks, root, 0));
    } else {
      NeighboursAreAtDepthOne(q, ranks, root, n - 1, v);
    }
  }

  /** The edge a row reports leads on from a node one hop nearer. */
  ghost predicate RowFollowsAnEdge(q: Query, depth: map<Id, nat>, r: ImpactEdge) {
    exists e: Edge, u: Id ::
      && Leads(q, e, u, r.entity) && r.rel == e.rel && r.extraction == e.extraction
      && u in depth && depth[u] + 1 == r.depth
  }

  lemma RowsFollowEdges(q: Query, ranks: Ranks, root: Id, n: nat, r: ImpactEdge)
    requires RowOk(q, ranks, root, r) && r.depth <= n
    ensures RowFollowsAnEdge(q, DepthAfter(q, ranks, root, n), r)
    ensures r.depth == 1 ==>
              exists e: Edge :: Leads(q, e, root, r.entity) && r.rel == e.rel && r.extraction == e.extraction
  {
    var before := r.depth - 1;
    var e: Edge :| IsLeastEdge(q, FrontierAfter(q, ranks, root, before), r.entity, e)
                   && r.rel == e.rel && r.extraction == e.extraction;
    var u := From(q, e);
    HopsFollowEdges(q, e, u, r.entity);
    DepthsAreWitnessed(q, ranks, root, before);
    DepthsStay(q, ranks, root, before, n, u);
    if before == 0 {
      assert u == root;
    }
  }

  lemma {:induction false} DepthsStay(q: Query, ranks: Ranks, root: Id, k: nat, n: nat, v: Id)
    requires k <= n && v in DepthAfter(q, ranks, root, k)
    ensures v in DepthAfter(q, ranks, root, n) && DepthAfter(q, ranks, root, n)[v] == DepthAfter(q, ranks, root, k)[v]
  {
    if k < n {
      DepthsStay(q, ranks, root, k, n - 1, v);
    }
  }

  /** What an answer says of the edges: a direct row has an edge from the root to its node, callee or caller, an
      indirect one an edge from a node one hop nearer, and unless the answer is truncated every neighbour of the root
      is a direct row. */
  ghost predicate FollowsTheEdges(q: Query, root: Id, depth: map<Id, nat>, reach: nat, g: ImpactGroup) {
    && (forall r | r in g.direct ::
          exists e: Edge :: Leads(q, e, root, r.entity) && r.rel == e.rel && r.extraction == e.extraction)
    && (forall r | r in g.indirect :: RowFollowsAnEdge(q, depth, r))
    && (reach >= 1 && !g.truncated ==>
          forall e: Edge, v: Id | Leads(q, e, root, v) && v != root :: exists r | r in g.direct :: r.entity == v)
  }

  lemma AnswersFollowTheEdges(q: Query, ranks: Ranks, root: Id, n: nat, g: ImpactGroup)
    requires Reports(q, ranks, root, DepthAfter(q, ranks, root, n), g)
    ensures FollowsTheEdges(q, root, DepthAfter(q, ranks, root, n), n, g)
  {
    var depth := DepthAfter(q, ranks, root, n);
    DepthsAreWitnessed(q, ranks, root, n);
    forall r | r in g.direct
      ensures exists e: Edge :: Leads(q, e, root, r.entity) && r.rel == e.rel && r.extraction == e.extraction
    {
      RowsFollowEdges(q, ranks, root, n, r);
    }
    forall r | r in g.indirect ensures RowFollowsAnEdge(q, depth, r) {
      RowsFollowEdges(q, ranks, root, n, r);
    }
    if n >= 1 && !g.truncated {
      forall e: Edge, v: Id | Leads(q, e, root, v) && v != root ensures exists r | r in g.direct :: r.entity == v {
        HopsFollowEdges(q, e, root, v);
        assert Hop(q, root, v);
        NeighboursAreAtDepthOne(q, ranks, root, n, v);
        assert Listed(g.direct, g.indirect, v);
      }
    }
  }

  /** Rows in order of rank, and nothing left out that ranks before a kept row of its kind. */
  ghost predicate BestRanksFirst(ranks: Ranks, depth: map<Id, nat>, root: Id, g: ImpactGroup) {
    && (forall i, j | 0 <= i < j < |g.direct| :: RanksNoWorse(ranks, g.direct[i].entity, g.direct[j].entity))
    && (forall i, j | 0 <= i < j < |g.indirect| :: RanksNoWorse(ranks, g.indirect[i].entity, g.indirect[j].entity))
    && (forall v, r | v in depth && v != root && !Listed(g.direct, g.indirect, v)
                      && (if depth[v] == 1 then r in g.direct else r in g.indirect) ::
          RanksNoWorse(ranks, r.entity, v))
  }

  lemma AnswersPutTheBestFirst(q: Query, ranks: Ranks, root: Id, depth: map<Id, nat>, g: ImpactGroup)
    requires Reports(q, ranks, root, depth, g) && forall v | v in depth && v != root :: depth[v] >= 1
    ensures BestRanksFirst(ranks, depth, root, g)
  {
    forall a, b ensures RanksBefore(ranks, a, b) <==> RanksNoWorse(ranks, a, b) {
      TheHigherRankGoesFirst(ranks, a, b);
    }
    assert forall i, j | 0 <= i < j < |g.direct| :: RowBefore(ranks)(g.direct[i], g.direct[j]);
    assert forall i, j | 0 <= i < j < |g.indirect| :: RowBefore(ranks)(g.indirect[i], g.indirect[j]);
  }

  /** `_traverse_impact` from `root` reports exactly what the specified hops discover. */
  method TraverseImpact(q: Query, ranks: Ranks, root: Id, effectiveDepth: nat)
    returns (group: ImpactGroup, depthUsed: nat)
    ensures Reports(q, ranks, root, DepthAfter(q, ranks, root, effectiveDepth), group)
    ensures FollowsTheEdges(q, root, DepthAfter(q, ranks, root, effectiveDepth), effectiveDepth, group)
    ensures BestRanksFirst(ranks, DepthAfter(q, ranks, root, effectiveDepth), root, group)
    ensures depthUsed <= effectiveDepth && LastHop(DepthAfter(q, ranks, root, effectiveDepth), depthUsed)
  {
    var direct, indirect;
    direct, indirect, depthUsed := Search(q, ranks, root, effectiveDepth);
    CappedKeepsTheBest(ranks, direct, indirect);
    group := Capped(ranks, direct, indirect);
    CappedAnswersReport(q, ranks, root, DepthAfter(q, ranks, root, effectiveDepth), direct, indirect, group);
    DepthsAreWitnessed(q, ranks, root, effectiveDepth);
    AnswersFollowTheEdges(q, ranks, root, effectiveDepth, group);
    AnswersPutTheBestFirst(q, ranks, root, DepthAfter(q, ranks, root, effectiveDepth), group);
  }

  function EffectiveDepth(wanted: nat): nat {
    if wanted < MAX_IMPACT_DEPTH then wanted else MAX_IMPACT_DEPTH
  }

  /** `compute_impact` in one direction.  With nothing assumed it reports what at most `MAX_IMPACT_DEPTH` hops
      discover, each node at the length of a path to it.  On a graph within the caps the rows, unless truncated, are
      exactly the nodes within that depth, each at its distance. */
  method ComputeImpact(q: Query, ranks: Ranks, root: Id, depthWanted: nat) returns (group: ImpactGroup, depthUsed: nat)
    ensures FollowsTheEdges(q, root, DepthAfter(q, ranks, root, EffectiveDepth(depthWanted)), depthWanted, group)
    ensures BestRanksFirst(ranks, DepthAfter(q, ranks, root, EffectiveDepth(depthWanted)), root, group)
    ensures Reports(q, ranks, root, DepthAfter(q, ranks, root, EffectiveDepth(depthWanted)), group)
    ensures depthUsed <= EffectiveDepth(depthWanted)
    ensures LastHop(DepthAfter(q, ranks, root, EffectiveDepth(depthWanted)), depthUsed)
    ensures forall r | r in group.direct || r in group.indirect ::
              1 <= r.depth <= depthUsed && Reaches(q, root, r.entity, r.depth)
    ensures WithinCaps(q, root, EffectiveDepth(depthWanted)) ==>
              && (forall r | r in group.direct || r in group.indirect :: IsDistance(q, root, r.entity, r.depth))
              && (!group.truncated ==>
                    forall v, n: nat | 1 <= n <= EffectiveDepth(depthWanted) && IsDistance(q, root, v, n) ::
                        Listed(group.direct, group.indirect, v))
  {
    var effective := EffectiveDepth(depthWanted);
    group, depthUsed := TraverseImpact(q, ranks, root, effective);
    ghost var depth := DepthAfter(q, ranks, root, effective);
    DepthsAreWitnessed(q, ranks, root, effective);
    assert forall r | r in group.direct || r in group.indirect :: r.entity in depth && depth[r.entity] == r.depth;
    if WithinCaps(q, root, effective) {
      WithinCapsDepthsAreDistances(q, ranks, root, effective);
      forall v, n: nat | 1 <= n <= effective && IsDistance(q, root, v, n) && !group.truncated
        ensures Listed(group.direct, group.indirect, v)
      {
        assert v in depth && depth[v] == n;
      }
    }
  }
}
