/** Which class a scope entry names (archon_search/code_enricher.py, `_walk_node`): the walk calls itself at most once
    on a node, so a function has at most one entry, and the class in it is decided by the kinds of the nodes between
    the nearest class and the function. */
module ClassContext {
  import opened Options
  import opened CodeScopes

  // ------------------------------------------------------------------ the calls of a walk

  function Under(prefix: seq<nat>, calls: seq<Call>): seq<Call> {
    seq(|calls|, i requires 0 <= i < |calls| => Call(prefix + calls[i].path, calls[i].node, calls[i].cls))
  }

  /** All calls of a walk, in order, with the way from its first node. */
  function Visits(n: Node, cls: string): seq<Call>
    decreases Size(n), 1, 0
  {
    DescentGoesDown(n, cls);
    [Call([], n, cls)] + VisitsOf(Descend(n, cls), Size(n))
  }

  function VisitsOf(calls: seq<Call>, bound: nat): seq<Call>
    requires forall x | x in calls :: Size(x.node) < bound
    decreases bound, 0, |calls|
  {
    if calls == [] then []
    else
      var last := calls[|calls| - 1];
      assert last in calls;
      VisitsOf(calls[..|calls| - 1], bound) + Under(last.path, Visits(last.node, last.cls))
  }

  ghost predicate InPlace(n: Node, calls: seq<Call>) {
    forall v | v in calls :: IsAt(n, v.path, v.node)
  }

  ghost predicate PathsDiffer(calls: seq<Call>) {
    forall i, j | 0 <= i < j < |calls| :: calls[i].path != calls[j].path
  }

  /** Every visit lies below one of the calls. */
  ghost predicate BelowSome(visits: seq<Call>, calls: seq<Call>) {
    forall v | v in visits :: exists x | x in calls :: x.path <= v.path
  }

  lemma UnderIsInPlace(n: Node, x: Call, visits: seq<Call>)
    requires IsAt(n, x.path, x.node) && InPlace(x.node, visits)
    ensures InPlace(n, Under(x.path, visits)) && BelowSome(Under(x.path, visits), [x])
  {
    forall v | v in Under(x.path, visits) ensures IsAt(n, v.path, v.node) && x.path <= v.path {
      var i :| 0 <= i < |visits| && v == Call(x.path + visits[i].path, visits[i].node, visits[i].cls);
      assert visits[i] in visits;
      FurtherDown(n, x.path, x.node, visits[i].path, visits[i].node);
    }
    assert x in [x];
  }

  lemma UnderDiffers(prefix: seq<nat>, visits: seq<Call>)
    requires PathsDiffer(visits)
    ensures PathsDiffer(Under(prefix, visits))
  {
    forall i, j | 0 <= i < j < |visits| ensures prefix + visits[i].path != prefix + visits[j].path {
      assert (prefix + visits[i].path)[|prefix|..] == visits[i].path;
      assert (prefix + visits[j].path)[|prefix|..] == visits[j].path;
    }
  }

  /** Visits below different places at the same depth are at different places. */
  lemma BelowDifferentPlaces(a: seq<Call>, b: seq<Call>, calls: seq<Call>, x: Call)
    requires BelowSome(a, calls) && BelowSome(b, [x]) && PathsDiffer(a) && PathsDiffer(b)
    requires forall y | y in calls :: y.path != x.path && |y.path| == |x.path|
    ensures PathsDiffer(a + b)
  {
    forall i, j | 0 <= i < |a| && 0 <= j < |b| ensures a[i].path != b[j].path {
      assert a[i] in a && b[j] in b;
      var y :| y in calls && y.path <= a[i].path;
      assert x.path <= b[j].path;
      assert a[i].path[..|y.path|] == y.path && b[j].path[..|x.path|] == x.path;
    }
  }

  /** A walk visits no node twice. */
  lemma {:induction false} VisitsAreOnce(n: Node, cls: string)
    ensures InPlace(n, Visits(n, cls)) && PathsDiffer(Visits(n, cls))
    decreases Size(n), 1, 0
  {
    var calls := Descend(n, cls);
    DescentGoesDown(n, cls);
    DescentSpreads(n, cls);
    VisitsOfAreOnce(n, calls, Size(n));
    var below := VisitsOf(calls, Size(n));
    forall i | 0 <= i < |below| ensures below[i].path != [] {
      assert below[i] in below;
      var x :| x in calls && x.path <= below[i].path;
    }
  }

  lemma LastIsElsewhere(n: Node, calls: seq<Call>)
    requires Spread(n, calls) && calls != []
    ensures var x := calls[|calls| - 1]; forall y | y in calls[..|calls| - 1] ::
              y.path != x.path && |y.path| == |x.path|
  {
    forall y | y in calls[..|calls| - 1]
      ensures y.path != calls[|calls| - 1].path && |y.path| == |calls[|calls| - 1].path|
    {
      var i :| 0 <= i < |calls| - 1 && calls[i] == y;
    }
  }

  lemma {:induction false} VisitsOfAreOnce(n: Node, calls: seq<Call>, bound: nat)
    requires Spread(n, calls) && forall x | x in calls :: Size(x.node) < bound
    ensures InPlace(n, VisitsOf(calls, bound)) && BelowSome(VisitsOf(calls, bound), calls)
    ensures PathsDiffer(VisitsOf(calls, bound))
    decreases bound, 0, |calls|
  {
    if calls != [] {
      var rest, x := calls[..|calls| - 1], calls[|calls| - 1];
      assert x in calls && calls == rest + [x];
      VisitsOfAreOnce(n, rest, bound);
      VisitsAreOnce(x.node, x.cls);
      UnderIsInPlace(n, x, Visits(x.node, x.cls));
      UnderDiffers(x.path, Visits(x.node, x.cls));
      LastIsElsewhere(n, calls);
      BelowDifferentPlaces(VisitsOf(rest, bound), Under(x.path, Visits(x.node, x.cls)), rest, x);
    }
  }

  // ------------------------------------------------------------------ the entries are those of the calls

  ghost predicate AllNested(at: map<nat, nat>, calls: seq<Call>) {
    forall v | v in calls :: WellNested(at, v.node)
  }

  function OwnOf(at: map<nat, nat>, calls: seq<Call>): seq<Entry>
    requires AllNested(at, calls)
  {
    if calls == [] then []
    else
      var last := calls[|calls| - 1];
      assert last in calls;
      OwnOf(at, calls[..|calls| - 1]) + Own(at, last.node, last.cls)
  }

  lemma NestedConcat(at: map<nat, nat>, a: seq<Call>, b: seq<Call>)
    ensures AllNested(at, a + b) <==> AllNested(at, a) && AllNested(at, b)
  {
    assert forall v | v in a || v in b :: v in a + b;
  }

  lemma {:induction false} OwnConcat(at: map<nat, nat>, a: seq<Call>, b: seq<Call>)
    requires AllNested(at, a) && AllNested(at, b)
    ensures AllNested(at, a + b) && OwnOf(at, a + b) == OwnOf(at, a) + OwnOf(at, b)
    decreases |b|
  {
    NestedConcat(at, a, b);
    if b == [] {
      assert a + b == a;
    } else {
      var front, x := b[..|b| - 1], b[|b| - 1];
      assert (a + b)[..|a + b| - 1] == a + front && (a + b)[|a + b| - 1] == x;
      OwnConcat(at, a, front);
      Regrouped(OwnOf(at, a), OwnOf(at, front), Own(at, x.node, x.cls));
    }
  }

  lemma {:induction false} OwnUnder(at: map<nat, nat>, prefix: seq<nat>, calls: seq<Call>)
    requires AllNested(at, calls)
    ensures AllNested(at, Under(prefix, calls)) && OwnOf(at, Under(prefix, calls)) == OwnOf(at, calls)
    decreases |calls|
  {
    var under := Under(prefix, calls);
    forall v | v in under ensures WellNested(at, v.node) {
      var i :| 0 <= i < |calls| && v == under[i];
      assert calls[i] in calls;
    }
    if calls != [] {
      assert under[..|under| - 1] == Under(prefix, calls[..|calls| - 1]);
      OwnUnder(at, prefix, calls[..|calls| - 1]);
    }
  }

  /** The entries of a walk are the own entries of its calls. */
  lemma {:induction false} EntriesOfTheCalls(at: map<nat, nat>, n: Node, cls: string)
    requires WellNested(at, n)
    ensures AllNested(at, Visits(n, cls)) && Walk(at, n, cls) == OwnOf(at, Visits(n, cls))
    decreases Size(n), 1, 0
  {
    var calls, first := Descend(n, cls), [Call([], n, cls)];
    DescentGoesDown(n, cls);
    DescentIsNested(at, n, cls);
    EntriesOfTheirCalls(at, calls, Size(n));
    OwnOfOne(at, first[0]);
    OwnConcat(at, first, VisitsOf(calls, Size(n)));
  }

  lemma OwnOfOne(at: map<nat, nat>, x: Call)
    requires WellNested(at, x.node)
    ensures AllNested(at, [x]) && OwnOf(at, [x]) == Own(at, x.node, x.cls)
  {
    assert [x][..0] == [] && OwnOf(at, []) + Own(at, x.node, x.cls) == Own(at, x.node, x.cls);
  }

  lemma {:induction false} EntriesOfTheirCalls(at: map<nat, nat>, calls: seq<Call>, bound: nat)
    requires Walkable(at, calls, bound)
    ensures AllNested(at, VisitsOf(calls, bound)) && WalkCalls(at, calls, bound) == OwnOf(at, VisitsOf(calls, bound))
    decreases bound, 0, |calls|
  {
    if calls != [] {
      var rest, x := calls[..|calls| - 1], calls[|calls| - 1];
      assert x in calls && calls == rest + [x];
      WalkableConcat(at, rest, [x], bound);
      EntriesOfTheirCalls(at, rest, bound);
      EntriesOfTheCalls(at, x.node, x.cls);
      OwnUnder(at, x.path, Visits(x.node, x.cls));
      OwnConcat(at, VisitsOf(rest, bound), Under(x.path, Visits(x.node, x.cls)));
    }
  }

  // ------------------------------------------------------------------ the class in force

  /** The nodes on the way, both ends included. */
  function NodesAlong(n: Node, path: seq<nat>): seq<Node> {
    [n] + if path == [] || path[0] >= |n.children| then [] else NodesAlong(n.children[path[0]], path[1..])
  }

  predicate IsClass(n: Node) {
    n.kind in {ClassDefinition, ClassDeclaration}
  }

  /** A function that no decorated definition wraps. */
  predicate IsPlain(n: Node, decorated: bool) {
    n.kind == FunctionDeclaration || (n.kind == FunctionDefinition && !decorated)
  }

  function ClassAfter(n: Node, decorated: bool, cls: string): string {
    if IsClass(n) then NameOf(n) else if IsPlain(n, decorated) then "" else cls
  }

  /** The class in force at the end of a way; `decorated` says that its first node is wrapped. */
  function ClassAlong(way: seq<Node>, decorated: bool, cls: string): string {
    if |way| <= 1 then cls
    else ClassAlong(way[1..], way[0].kind == DecoratedDefinition, ClassAfter(way[0], decorated, cls))
  }

  lemma OneNodeOn(n: Node, i: nat, path: seq<nat>, decorated: bool, cls: string)
    requires i < |n.children|
    ensures ClassAlong(NodesAlong(n, [i] + path), decorated, cls)
            == ClassAlong(NodesAlong(n.children[i], path), n.kind == DecoratedDefinition, ClassAfter(n, decorated, cls))
  {
    assert ([i] + path)[1..] == path;
    assert NodesAlong(n, [i] + path)[1..] == NodesAlong(n.children[i], path);
  }

  lemma {:induction false} CallsInsideAre(n: Node, k: nat, kinds: set<Kind>, cls: string, x: Call)
    requires k <= |n.children| && x in CallsInside(n.children[..k], kinds, cls)
    ensures |x.path| == 2 && x.path[0] < k && n.children[x.path[0]].kind in kinds
    ensures x.path[1] < |n.children[x.path[0]].children|
    ensures x.node == n.children[x.path[0]].children[x.path[1]] && x.cls == cls
  {
    assert n.children[..k][..k - 1] == n.children[..k - 1];
    if x in CallsInside(n.children[..k - 1], kinds, cls) {
      CallsInsideAre(n, k - 1, kinds, cls, x);
    } else {
      var calls := Calls([k - 1], n.children[k - 1].children, cls);
      var j :| 0 <= j < |calls| && calls[j] == x;
    }
  }

  lemma TwoStepsAreOneAndOne(i: nat, j: nat, path: seq<nat>)
    ensures [i, j] + path == [i] + ([j] + path)
  {
  }

  lemma TwoNodesOn(n: Node, i: nat, j: nat, path: seq<nat>, decorated: bool, cls: string)
    requires i < |n.children| && j < |n.children[i].children|
    ensures var c := n.children[i];
            ClassAlong(NodesAlong(n, [i, j] + path), decorated, cls)
            == ClassAlong(NodesAlong(c.children[j], path), c.kind == DecoratedDefinition,
                          ClassAfter(c, n.kind == DecoratedDefinition, ClassAfter(n, decorated, cls)))
  {
    TwoStepsAreOneAndOne(i, j, path);
    OneNodeOn(n, i, [j] + path, decorated, cls);
    OneNodeOn(n.children[i], j, path, n.kind == DecoratedDefinition, ClassAfter(n, decorated, cls));
  }

  /** A call hands on the class in force on the way to it. */
  lemma CallsFollowTheClass(n: Node, cls: string, x: Call, path: seq<nat>)
    requires x in Descend(n, cls)
    ensures ClassAlong(NodesAlong(n, x.path + path), false, cls) == ClassAlong(NodesAlong(x.node, path), false, x.cls)
  {
    if n.kind == DecoratedDefinition {
      DecoratedCallsFollowTheClass(n, cls, x, path);
    } else if n.kind in {FunctionDefinition, ClassDefinition, FunctionDeclaration, ClassDeclaration} {
      CallsInBodiesFollowTheClass(n, cls, x, path);
    } else {
      var calls := Calls([], n.children, cls);
      var i :| 0 <= i < |calls| && calls[i] == x;
      assert x.path == [i];
      OneNodeOn(n, i, path, false, cls);
    }
  }

  lemma CallsInBodiesFollowTheClass(n: Node, cls: string, x: Call, path: seq<nat>)
    requires n.kind in {FunctionDefinition, ClassDefinition, FunctionDeclaration, ClassDeclaration}
    requires x in Descend(n, cls)
    ensures ClassAlong(NodesAlong(n, x.path + path), false, cls) == ClassAlong(NodesAlong(x.node, path), false, x.cls)
  {
    var inside := ClassAfter(n, false, cls);
    DescentIntoBodies(n, cls);
    CallsInsideAre(n, |n.children|, BodyKinds(n.kind), inside, x);
    var i, j := x.path[0], x.path[1];
    assert x.path == [i, j];
    TwoNodesOn(n, i, j, path, false, cls);
    BodiesKeepTheClass(n.children[i], n.kind == DecoratedDefinition, inside);
  }

  lemma DescentIntoBodies(n: Node, cls: string)
    requires n.kind in {FunctionDefinition, ClassDefinition, FunctionDeclaration, ClassDeclaration}
    ensures Descend(n, cls) == CallsInside(n.children[..|n.children|], BodyKinds(n.kind), ClassAfter(n, false, cls))
    ensures BodyKinds(n.kind) <= BODIES
  {
    assert n.children[..|n.children|] == n.children;
  }

  lemma BodiesKeepTheClass(body: Node, decorated: bool, cls: string)
    requires body.kind in BODIES
    ensures ClassAfter(body, decorated, cls) == cls && body.kind != DecoratedDefinition
  {
  }

  lemma DecoratedCallsFollowTheClass(n: Node, cls: string, x: Call, path: seq<nat>)
    requires n.kind == DecoratedDefinition && x in Descend(n, cls)
    ensures ClassAlong(NodesAlong(n, x.path + path), false, cls) == ClassAlong(NodesAlong(x.node, path), false, x.cls)
  {
    var i, j, k := DecoratedCall(n, cls, x);
    assert x.path + path == [i, j] + ([k] + path);
    var body := n.children[i].children[j];
    TwoNodesOn(n, i, j, [k] + path, false, cls);
    OneNodeOn(body, k, path, false, x.cls);
    BodiesKeepTheClass(body, false, x.cls);
  }

  lemma DecoratedCall(n: Node, cls: string, x: Call) returns (i: nat, j: nat, k: nat)
    requires n.kind == DecoratedDefinition && x in Descend(n, cls)
    ensures i < |n.children| && n.children[i].kind in DEFINITIONS
    ensures j < |n.children[i].children| && n.children[i].children[j].kind in BODIES
    ensures k < |n.children[i].children[j].children| && x.path == [i, j, k]
    ensures x.node == n.children[i].children[j].children[k]
    ensures x.cls == if n.children[i].kind == FunctionDefinition then cls else NameOf(n.children[i])
  {
    i := IndexOf(n.children, DEFINITIONS);
    j := IndexOf(n.children[i].children, BODIES);
    k :| 0 <= k < |Descend(n, cls)| && Descend(n, cls)[k] == x;
  }

  ghost predicate InForce(n: Node, cls: string, visits: seq<Call>) {
    forall v | v in visits :: v.cls == ClassAlong(NodesAlong(n, v.path), false, cls)
  }

  /** Every call of a walk carries the class in force on the way to it. */
  lemma {:induction false} VisitsFollowTheClass(n: Node, cls: string)
    ensures InForce(n, cls, Visits(n, cls))
    decreases Size(n), 1, 0
  {
    var calls := Descend(n, cls);
    DescentGoesDown(n, cls);
    VisitsOfFollowTheClass(n, cls, calls, Size(n));
  }

  lemma {:induction false} VisitsOfFollowTheClass(n: Node, cls: string, calls: seq<Call>, bound: nat)
    requires forall x | x in calls :: Size(x.node) < bound && x in Descend(n, cls)
    ensures InForce(n, cls, VisitsOf(calls, bound))
    decreases bound, 0, |calls|
  {
    if calls != [] {
      var rest, x := calls[..|calls| - 1], calls[|calls| - 1];
      assert x in calls;
      VisitsOfFollowTheClass(n, cls, rest, bound);
      VisitsFollowTheClass(x.node, x.cls);
      var visits := Visits(x.node, x.cls);
      forall v | v in Under(x.path, visits) ensures v.cls == ClassAlong(NodesAlong(n, v.path), false, cls) {
        var i :| 0 <= i < |visits| && v == Call(x.path + visits[i].path, visits[i].node, visits[i].cls);
        assert visits[i] in visits;
        CallsFollowTheClass(n, cls, x, visits[i].path);
      }
    }
  }

  // ------------------------------------------------------------------ the exact condition

  /** A plain function strictly inside a way. */
  predicate PlainAt(way: seq<Node>, i: nat)
    requires 1 <= i < |way|
  {
    IsPlain(way[i], way[i - 1].kind == DecoratedDefinition)
  }

  lemma {:induction false} WithoutClasses(way: seq<Node>, decorated: bool, cls: string)
    requires |way| >= 1 && forall i | 0 <= i < |way| - 1 :: !IsClass(way[i])
    ensures ClassAlong(way, decorated, cls) ==
            if (|way| > 1 && IsPlain(way[0], decorated)) || exists i | 1 <= i < |way| - 1 :: PlainAt(way, i)
            then "" else cls
  {
    if |way| > 1 {
      var rest := way[1..];
      assert forall i | 0 <= i < |rest| :: rest[i] == way[i + 1];
      WithoutClasses(rest, way[0].kind == DecoratedDefinition, ClassAfter(way[0], decorated, cls));
      assert |rest| > 1 ==> (IsPlain(rest[0], way[0].kind == DecoratedDefinition) <==> PlainAt(way, 1));
      assert forall i | 1 <= i < |rest| - 1 :: PlainAt(rest, i) <==> PlainAt(way, i + 1);
      if i :| 1 <= i < |way| - 1 && PlainAt(way, i) {
        assert i > 1 ==> PlainAt(rest, i - 1);
      }
    }
  }

  /** The nearest class `k` is in force at the end of the way unless a plain function stands between. */
  lemma {:induction false} TheNearestClass(way: seq<Node>, decorated: bool, cls: string, k: nat)
    requires k < |way| - 1 && IsClass(way[k]) && forall i | k < i < |way| - 1 :: !IsClass(way[i])
    ensures ClassAlong(way, decorated, cls) ==
              if exists i | k < i < |way| - 1 :: PlainAt(way, i) then "" else NameOf(way[k])
  {
    var rest := way[1..];
    assert forall i | 0 <= i < |rest| :: rest[i] == way[i + 1];
    assert forall i | 1 <= i < |rest| :: PlainAt(rest, i) <==> PlainAt(way, i + 1);
    if k == 0 {
      WithoutClasses(rest, false, NameOf(way[0]));
      assert |rest| > 1 ==> (IsPlain(rest[0], false) <==> PlainAt(way, 1));
      if i :| 0 < i < |way| - 1 && PlainAt(way, i) {
        assert i > 1 ==> PlainAt(rest, i - 1);
      }
    } else {
      TheNearestClass(rest, way[0].kind == DecoratedDefinition, ClassAfter(way[0], decorated, cls), k - 1);
      if i :| k < i < |way| - 1 && PlainAt(way, i) {
        assert PlainAt(rest, i - 1);
      }
    }
  }

  /** Nodes whose entry is a function's, and the definition that names it. */
  function DefinitionIn(n: Node): Option<Node> {
    if n.kind in {FunctionDefinition, FunctionDeclaration, MethodDefinition, MethodSignature} then Some(n)
    else if n.kind == DecoratedDefinition then
      var inner := FirstOf(n.children, DEFINITIONS);
      if inner.Some? && inner.value.kind == FunctionDefinition then inner else None
    else None
  }

  /** Call `i` of the walk appends `e` and nothing else, and no other call is on its node. */
  ghost predicate OnlyEntry(at: map<nat, nat>, root: Node, cls: string, i: nat, e: Entry)
    requires WellNested(at, root) && i < |Visits(root, cls)|
  {
    var visits := Visits(root, cls);
    && IsAt(root, visits[i].path, visits[i].node)
    && (forall j | 0 <= j < |visits| && j != i :: visits[j].path != visits[i].path)
    && AllNested(at, visits[..i]) && AllNested(at, visits[i + 1..])
    && Walk(at, root, cls) == OwnOf(at, visits[..i]) + [e] + OwnOf(at, visits[i + 1..])
  }

  /** Class `k` is the last one before the end of the way. */
  ghost predicate NearestClass(way: seq<Node>, k: nat) {
    k < |way| - 1 && IsClass(way[k]) && forall j | k < j < |way| - 1 :: !IsClass(way[j])
  }

  /** A plain function anywhere before the end of the way, whose first node nothing wraps. */
  ghost predicate PlainOn(way: seq<Node>) {
    |way| > 1 && (IsPlain(way[0], false) || PlainBehind(way, 0))
  }

  ghost predicate PlainBehind(way: seq<Node>, k: nat) {
    exists j | k < j < |way| - 1 :: PlainAt(way, j)
  }

  /** `name` is that of class `k` of the way unless a plain function stands behind it, and then there is none. */
  ghost predicate NamesUnlessReset(way: seq<Node>, k: nat, name: string)
    requires k < |way|
  {
    && name == (if PlainBehind(way, k) then "" else NameOf(way[k]))
    && (NameOf(way[k]) != "" ==> (name == NameOf(way[k]) <==> !PlainBehind(way, k)))
  }

  /** What a function's entry says of the class, from the nodes on the way to it alone: the nearest class unless a
      plain function stands between, and without a class on the way what the walk began with, or nothing behind a
      plain function. */
  ghost predicate NamesTheClassInForce(way: seq<Node>, cls: string, name: string) {
    && name == ClassAlong(way, false, cls)
    && (forall k | NearestClass(way, k) :: NamesUnlessReset(way, k, name))
    && ((forall k | 0 <= k < |way| - 1 :: !IsClass(way[k])) ==> name == if PlainOn(way) then "" else cls)
  }

  lemma ClassInForce(way: seq<Node>, cls: string)
    requires |way| >= 1
    ensures NamesTheClassInForce(way, cls, ClassAlong(way, false, cls))
  {
    forall k | NearestClass(way, k) ensures NamesUnlessReset(way, k, ClassAlong(way, false, cls)) {
      TheNearestClass(way, false, cls, k);
    }
    if forall k | 0 <= k < |way| - 1 :: !IsClass(way[k]) {
      WithoutClasses(way, false, cls);
    }
  }

  /** `e` is an entry for the function or method at `n`. */
  ghost predicate EntryOf(at: map<nat, nat>, n: Node, e: Entry)
    requires WellNested(at, n) && DefinitionIn(n).Some?
  {
    && e.span == SpanOf(at, n) && e.fnName == NameOf(DefinitionIn(n).value) && IsNamed(DefinitionIn(n).value, e.fnName)
    && (n.kind !in {MethodDefinition, MethodSignature} ==>
          e.symbolType == if e.className != "" then "method" else "function")
  }

  /** For every tree, and every function the walk reaches: it has one entry and is not visited again.  Where a class
      stands on the way to it, at whatever depth, the entry names the nearest one if and only if no plain function
      stands between them, and otherwise none; without a class on the way it names none, as the walk of a file begins
      without one. */
  lemma AFunctionNamesItsNearestClass(at: map<nat, nat>, root: Node, cls: string, i: nat) returns (e: Entry)
    requires WellNested(at, root) && i < |Visits(root, cls)| && DefinitionIn(Visits(root, cls)[i].node).Some?
    ensures OnlyEntry(at, root, cls, i, e)
    ensures var v := Visits(root, cls)[i];
            WellNested(at, v.node) && EntryOf(at, v.node, e)
                && NamesTheClassInForce(NodesAlong(root, v.path), cls, e.className)
  {
    var v := Visits(root, cls)[i];
    assert v in Visits(root, cls);
    EntriesOfTheCalls(at, root, cls);
    AFunctionsOwnEntry(at, v.node, v.cls);
    e := Own(at, v.node, v.cls)[0];
    EveryCallOnce(at, root, cls, i, e);
    VisitsFollowTheClass(root, cls);
    ClassInForce(NodesAlong(root, v.path), cls);
  }

  lemma EveryCallOnce(at: map<nat, nat>, root: Node, cls: string, i: nat, e: Entry)
    requires WellNested(at, root) && i < |Visits(root, cls)|
    requires WellNested(at, Visits(root, cls)[i].node)
    requires Own(at, Visits(root, cls)[i].node, Visits(root, cls)[i].cls) == [e]
    ensures OnlyEntry(at, root, cls, i, e)
  {
    var visits := Visits(root, cls);
    assert visits[i] in visits;
    VisitsAreOnce(root, cls);
    EntriesOfTheCalls(at, root, cls);
    OneEntryAmongAll(at, visits, i);
  }

  lemma AFunctionsOwnEntry(at: map<nat, nat>, n: Node, cls: string)
    requires WellNested(at, n) && DefinitionIn(n).Some?
    ensures |Own(at, n, cls)| == 1
    ensures var e := Own(at, n, cls)[0];
            EntryOf(at, n, e) && e.className == cls
  {
    NamesAreFirstIdentifiers(DefinitionIn(n).value);
  }

  lemma OneEntryAmongAll(at: map<nat, nat>, visits: seq<Call>, i: nat)
    requires AllNested(at, visits) && i < |visits|
    ensures AllNested(at, visits[..i]) && AllNested(at, visits[i + 1..]) && WellNested(at, visits[i].node)
    ensures OwnOf(at, visits)
              == OwnOf(at, visits[..i]) + Own(at, visits[i].node, visits[i].cls) + OwnOf(at, visits[i + 1..])
  {
    var before, x, after := visits[..i], visits[i], visits[i + 1..];
    assert visits == (before + [x]) + after;
    NestedConcat(at, before + [x], after);
    NestedConcat(at, before, [x]);
    assert x in [x];
    OwnOfOne(at, x);
    OwnConcat(at, before, [x]);
    OwnConcat(at, before + [x], after);
  }

  // ------------------------------------------------------------------ what is visited

  lemma {:induction false} CallsAreVisited(calls: seq<Call>, bound: nat, i: nat, v: Call)
    requires (forall x | x in calls :: Size(x.node) < bound) && i < |calls| && v in Visits(calls[i].node, calls[i].cls)
    ensures Call(calls[i].path + v.path, v.node, v.cls) in VisitsOf(calls, bound)
    decreases |calls|
  {
    var before, last := calls[..|calls| - 1], calls[|calls| - 1];
    assert calls[i] in calls && last in calls;
    VisitsOfMore(calls, bound, Call(calls[i].path + v.path, v.node, v.cls));
    if i < |before| {
      assert before[i] == calls[i];
      CallsAreVisited(before, bound, i, v);
    } else {
      UnderHas(last.path, Visits(last.node, last.cls), v);
    }
  }

  lemma VisitsOfMore(calls: seq<Call>, bound: nat, v: Call)
    requires (forall x | x in calls :: Size(x.node) < bound) && calls != []
    ensures v in VisitsOf(calls[..|calls| - 1], bound) ==> v in VisitsOf(calls, bound)
    ensures var last := calls[|calls| - 1]; v in Under(last.path, Visits(last.node, last.cls)) ==>
              v in VisitsOf(calls, bound)
  {
    var last := calls[|calls| - 1];
    assert last in calls;
    assert VisitsOf(calls, bound)
           == VisitsOf(calls[..|calls| - 1], bound) + Under(last.path, Visits(last.node, last.cls));
  }

  lemma {:induction false} VisitsComeFromCalls(calls: seq<Call>, bound: nat, v: Call) returns (i: nat, w: Call)
    requires (forall x | x in calls :: Size(x.node) < bound) && v in VisitsOf(calls, bound)
    ensures i < |calls| && w in Visits(calls[i].node, calls[i].cls) && v == Call(calls[i].path + w.path, w.node, w.cls)
    decreases |calls|
  {
    var k := |calls| - 1;
    assert calls[k] in calls;
    if v in VisitsOf(calls[..k], bound) {
      i, w := VisitsComeFromCalls(calls[..k], bound, v);
    } else {
      var visits := Visits(calls[k].node, calls[k].cls);
      var j :| 0 <= j < |visits| && Under(calls[k].path, visits)[j] == v;
      i, w := k, visits[j];
    }
  }

  lemma UnderHas(prefix: seq<nat>, visits: seq<Call>, v: Call)
    requires v in visits
    ensures Call(prefix + v.path, v.node, v.cls) in Under(prefix, visits)
  {
    var j :| 0 <= j < |visits| && visits[j] == v;
    assert Under(prefix, visits)[j] == Call(prefix + v.path, v.node, v.cls);
  }

  lemma FirstCallsAreVisited(n: Node, cls: string, x: Call)
    requires x in Descend(n, cls)
    ensures x in Visits(n, cls)
  {
    var calls := Descend(n, cls);
    DescentGoesDown(n, cls);
    var i :| 0 <= i < |calls| && calls[i] == x;
    assert Visits(x.node, x.cls)[0] == Call([], x.node, x.cls);
    CallsAreVisited(calls, Size(n), i, Call([], x.node, x.cls));
    assert x.path + [] == x.path;
  }

  lemma VisitsBelow(n: Node, cls: string, y: Call, w: Call)
    requires y in Descend(n, cls) && w in Visits(y.node, y.cls)
    ensures Call(y.path + w.path, w.node, w.cls) in Visits(n, cls)
  {
    var calls := Descend(n, cls);
    DescentGoesDown(n, cls);
    var i :| 0 <= i < |calls| && calls[i] == y;
    CallsAreVisited(calls, Size(n), i, w);
  }

  lemma VisitsAreBelow(n: Node, cls: string, v: Call) returns (y: Call, w: Call)
    requires v in Visits(n, cls) && v != Call([], n, cls)
    ensures y in Descend(n, cls) && w in Visits(y.node, y.cls) && v == Call(y.path + w.path, w.node, w.cls)
    ensures Size(y.node) < Size(n)
  {
    var calls := Descend(n, cls);
    DescentGoesDown(n, cls);
    var i;
    i, w := VisitsComeFromCalls(calls, Size(n), v);
    y := calls[i];
    assert y in calls;
  }

  /** What a visited node calls is visited. */
  lemma {:induction false} VisitsGoOn(n: Node, cls: string, v: Call, x: Call)
    requires v in Visits(n, cls) && x in Descend(v.node, v.cls)
    ensures Call(v.path + x.path, x.node, x.cls) in Visits(n, cls)
    decreases Size(n)
  {
    if v == Call([], n, cls) {
      FirstCallsAreVisited(n, cls, x);
      assert [] + x.path == x.path;
    } else {
      var y, w := VisitsAreBelow(n, cls, v);
      VisitsGoOn(y.node, y.cls, w, x);
      VisitsBelow(n, cls, y, Call(w.path + x.path, x.node, x.cls));
      PathsRegroup(y.path, w.path, x.path);
    }
  }

  lemma PathsRegroup(a: seq<nat>, b: seq<nat>, c: seq<nat>)
    ensures a + (b + c) == (a + b) + c
  {
  }

  lemma {:induction false} InsideIsCalled(n: Node, m: nat, kinds: set<Kind>, cls: string, i: nat, j: nat)
    requires i < m <= |n.children| && n.children[i].kind in kinds && j < |n.children[i].children|
    ensures Call([i, j], n.children[i].children[j], cls) in CallsInside(n.children[..m], kinds, cls)
    decreases m
  {
    assert n.children[..m][..m - 1] == n.children[..m - 1];
    if i < m - 1 {
      InsideIsCalled(n, m - 1, kinds, cls, i, j);
    } else {
      assert Calls([i], n.children[i].children, cls)[j] == Call([i, j], n.children[i].children[j], cls);
    }
  }

  /** The walk reaches every node in the body of a function or class it reaches. */
  lemma BodiesAreVisited(n: Node, cls: string, v: Call, i: nat, j: nat)
    requires v in Visits(n, cls)
    requires v.node.kind in {FunctionDefinition, ClassDefinition, FunctionDeclaration, ClassDeclaration}
    requires i < |v.node.children| && v.node.children[i].kind in BodyKinds(v.node.kind)
    requires j < |v.node.children[i].children|
    ensures Call(v.path + [i, j], v.node.children[i].children[j], ClassAfter(v.node, false, v.cls)) in Visits(n, cls)
  {
    DescentIntoBodies(v.node, v.cls);
    InsideIsCalled(v.node, |v.node.children|, BodyKinds(v.node.kind), ClassAfter(v.node, false, v.cls), i, j);
    VisitsGoOn(n, cls, v, Call([i, j], v.node.children[i].children[j], ClassAfter(v.node, false, v.cls)));
  }

  /** And every node in the body of a decorated function or class. */
  lemma DecoratedBodiesAreVisited(n: Node, cls: string, v: Call, k: nat)
    requires v in Visits(n, cls) && v.node.kind == DecoratedDefinition
    requires var i := IndexOf(v.node.children, DEFINITIONS);
             i < |v.node.children| &&
             var j := IndexOf(v.node.children[i].children, BODIES);
             j < |v.node.children[i].children| && k < |v.node.children[i].children[j].children|
    ensures var i := IndexOf(v.node.children, DEFINITIONS);
            var inner := v.node.children[i];
            var j := IndexOf(inner.children, BODIES);
            Call(v.path + [i, j, k], inner.children[j].children[k],
                 if inner.kind == FunctionDefinition then v.cls else NameOf(inner)) in Visits(n, cls)
  {
    var i := IndexOf(v.node.children, DEFINITIONS);
    var inner := v.node.children[i];
    var j := IndexOf(inner.children, BODIES);
    var x := Call([i, j, k], inner.children[j].children[k],
                  if inner.kind == FunctionDefinition then v.cls else NameOf(inner));
    DecoratedDescent(v.node, v.cls, k);
    VisitsGoOn(n, cls, v, x);
  }

  lemma DecoratedDescent(n: Node, cls: string, k: nat)
    requires n.kind == DecoratedDefinition
    requires var i := IndexOf(n.children, DEFINITIONS);
             i < |n.children| &&
             var j := IndexOf(n.children[i].children, BODIES);
             j < |n.children[i].children| && k < |n.children[i].children[j].children|
    ensures var i := IndexOf(n.children, DEFINITIONS);
            var inner := n.children[i];
            var j := IndexOf(inner.children, BODIES);
            Call([i, j, k], inner.children[j].children[k],
                 if inner.kind == FunctionDefinition then cls else NameOf(inner)) in Descend(n, cls)
  {
    var i := IndexOf(n.children, DEFINITIONS);
    var inner := n.children[i];
    var j := IndexOf(inner.children, BODIES);
    assert Descend(n, cls)[k]
           == Call([i, j, k], inner.children[j].children[k],
                   if inner.kind == FunctionDefinition then cls else NameOf(inner));
  }

  /** Every other node hands the walk on to all its children, except methods and arrow functions. */
  lemma ChildrenAreVisited(n: Node, cls: string, v: Call, i: nat)
    requires v in Visits(n, cls) && i < |v.node.children|
    requires v.node.kind !in {DecoratedDefinition, FunctionDefinition, ClassDefinition, FunctionDeclaration,
                              ClassDeclaration, MethodDefinition, MethodSignature, ArrowFunction}
    ensures Call(v.path + [i], v.node.children[i], v.cls) in Visits(n, cls)
  {
    PlainDescent(v.node, v.cls, i);
    VisitsGoOn(n, cls, v, Call([i], v.node.children[i], v.cls));
  }

  lemma PlainDescent(n: Node, cls: string, i: nat)
    requires i < |n.children|
    requires n.kind !in {DecoratedDefinition, FunctionDefinition, ClassDefinition, FunctionDeclaration,
                         ClassDeclaration, MethodDefinition, MethodSignature, ArrowFunction}
    ensures Call([i], n.children[i], cls) in Descend(n, cls)
  {
    assert Descend(n, cls)[i] == Call([i], n.children[i], cls);
  }

  // ------------------------------------------------------------------ classes

  /** The node is named by its first child that is an identifier of some kind, or not at all. */
  ghost predicate IsNamed(n: Node, name: string) {
    || (exists j | 0 <= j < |n.children| ::
          && n.children[j].kind in {Identifier, PropertyIdentifier, TypeIdentifier} && name == n.children[j].text
          && forall i | 0 <= i < j :: n.children[i].kind !in {Identifier, PropertyIdentifier, TypeIdentifier})
    || (name == "" && forall c | c in n.children :: c.kind !in {Identifier, PropertyIdentifier, TypeIdentifier})
  }

  lemma NamesAreFirstIdentifiers(n: Node)
    ensures IsNamed(n, NameOf(n))
  {
    var j := IndexOf(n.children, NAMES);
    FirstIsBehindOthers(n.children, NAMES);
    if j == |n.children| {
      forall c | c in n.children ensures c.kind !in NAMES {
        var i :| 0 <= i < |n.children| && n.children[i] == c;
      }
    }
  }

  lemma {:induction false} FirstIsBehindOthers(nodes: seq<Node>, kinds: set<Kind>)
    ensures forall i | 0 <= i < IndexOf(nodes, kinds) :: nodes[i].kind !in kinds
    ensures IndexOf(nodes, kinds) < |nodes| ==> nodes[IndexOf(nodes, kinds)].kind in kinds
  {
    if nodes != [] && nodes[0].kind !in kinds {
      FirstIsBehindOthers(nodes[1..], kinds);
    }
  }

  /** Nodes whose entry is a class's, and the definition that names it. */
  function ClassIn(n: Node): Option<Node> {
    if IsClass(n) then Some(n)
    else if n.kind == DecoratedDefinition then
      var inner := FirstOf(n.children, DEFINITIONS);
      if inner.Some? && inner.value.kind == ClassDefinition then inner else None
    else None
  }

  lemma AClassesOwnEntry(at: map<nat, nat>, text: string, n: Node, cls: string)
    requires MapsBytes(at, text) && WellNested(at, n) && ClassIn(n).Some?
    ensures Own(at, n, cls) == [Entry(SpanOf(at, n), "class", "", NameOf(ClassIn(n).value))]
  {
    OwnSpan(at, text, n, cls);
    assert |Own(at, n, cls)| == 1 && Own(at, n, cls)[0] in Own(at, n, cls);
  }

  /** Every class the walk reaches, decorated or not and whatever it stands in, has one entry and is not visited again;
      the entry is a class's, spans the node and names the class itself. */
  lemma AClassNamesItself(at: map<nat, nat>, text: string, root: Node, cls: string, i: nat) returns (e: Entry)
    requires MapsBytes(at, text) && WellNested(at, root)
    requires i < |Visits(root, cls)| && ClassIn(Visits(root, cls)[i].node).Some?
    ensures OnlyEntry(at, root, cls, i, e)
    ensures var n := Visits(root, cls)[i].node;
            && WellNested(at, n) && e.span == SpanOf(at, n)
            && e.symbolType == "class" && e.fnName == "" && IsNamed(ClassIn(n).value, e.className)
  {
    var v := Visits(root, cls)[i];
    assert v in Visits(root, cls);
    EntriesOfTheCalls(at, root, cls);
    AClassesOwnEntry(at, text, v.node, v.cls);
    NamesAreFirstIdentifiers(ClassIn(v.node).value);
    e := Own(at, v.node, v.cls)[0];
    EveryCallOnce(at, root, cls, i, e);
  }

  /** No other node has an entry. */
  lemma OnlyDefinitionsHaveEntries(at: map<nat, nat>, n: Node, cls: string)
    requires WellNested(at, n)
    ensures Own(at, n, cls) == [] <==> DefinitionIn(n).None? && ClassIn(n).None?
  {
  }

  // ------------------------------------------------------------------ functions in decorated methods

  /** Decorated function, body and child: the ways into what a decorator wraps. */
  predicate WrapsFunction(d: Node, i: nat, j: nat, k: nat) {
    && d.kind == DecoratedDefinition && i == IndexOf(d.children, DEFINITIONS) < |d.children|
    && d.children[i].kind == FunctionDefinition
    && j == IndexOf(d.children[i].children, BODIES) < |d.children[i].children|
    && k < |d.children[i].children[j].children|
  }

  /** A plain function in the body of a decorated method is itself recorded as a method of the class, in every tree
      and wherever the walk reaches the class. */
  lemma FunctionsInDecoratedMethodsAreMethods(at: map<nat, nat>, root: Node, cls: string, v: Call, b: nat, m: nat,
                                              i: nat, j: nat, k: nat)
    returns (n: nat, e: Entry)
    requires WellNested(at, root) && v in Visits(root, cls) && v.node.kind == ClassDefinition && NameOf(v.node) != ""
    requires b < |v.node.children| && v.node.children[b].kind in BodyKinds(ClassDefinition)
    requires m < |v.node.children[b].children|
    requires WrapsFunction(v.node.children[b].children[m], i, j, k)
    requires v.node.children[b].children[m].children[i].children[j].children[k].kind == FunctionDefinition
    ensures n < |Visits(root, cls)| && OnlyEntry(at, root, cls, n, e)
    ensures Visits(root, cls)[n].node == v.node.children[b].children[m].children[i].children[j].children[k]
    ensures e.symbolType == "method" && e.className == NameOf(v.node) && e.fnName == NameOf(Visits(root, cls)[n].node)
  {
    BodiesAreVisited(root, cls, v, b, m);
    var d := v.node.children[b].children[m];
    var w := Call(v.path + [b, m], d, NameOf(v.node));
    DecoratedBodiesAreVisited(root, cls, w, k);
    var f := d.children[i].children[j].children[k];
    var x := Call(w.path + [i, j, k], f, NameOf(v.node));
    n :| 0 <= n < |Visits(root, cls)| && Visits(root, cls)[n] == x;
    EntriesOfTheCalls(at, root, cls);
    AFunctionsOwnEntry(at, f, x.cls);
    e := Own(at, f, x.cls)[0];
    EveryCallOnce(at, root, cls, n, e);
  }

  function Leaf(kind: Kind, start: nat, text: string): Node {
    Node(kind, start, start + |text|, text, [])
  }

  /** `def g(): 0`, at the end of the sample. */
  const SAMPLE_INNER := Node(FunctionDefinition, 25, 35, "", [Leaf(Identifier, 29, "g"), Node(Block, 34, 35, "", [])])

  /** `@p` over `def f():` with that function as its body. */
  const SAMPLE_METHOD :=
    Node(DecoratedDefinition, 10, 35, "",
         [Leaf(Decorator, 10, "@p"),
          Node(FunctionDefinition, 14, 35, "", [Leaf(Identifier, 18, "f"), Node(Block, 25, 35, "", [SAMPLE_INNER])])])

  /** `class A:` with that method. */
  const SAMPLE_CLASS :=
    Node(ClassDefinition, 0, 35, "", [Leaf(Identifier, 6, "A"), Node(Block, 10, 35, "", [SAMPLE_METHOD])])

  const SAMPLE_FILE := Node(Other, 0, 35, "", [SAMPLE_CLASS])

  lemma TwoChildren(at: map<nat, nat>, n: Node, a: Node, b: Node)
    requires n.children == [a, b] && WellNested(at, a) && WellNested(at, b) && n.startByte in at && n.endByte in at
    requires n.startByte <= a.startByte && a.endByte <= b.startByte && b.endByte <= n.endByte
    ensures WellNested(at, n)
  {
    assert a.startByte <= a.endByte && b.startByte <= b.endByte;
  }

  lemma TheSampleIsWellNested(at: map<nat, nat>)
    requires forall b: nat | b <= 35 :: b in at
    ensures WellNested(at, SAMPLE_FILE) && WellNested(at, SAMPLE_INNER)
  {
    var wrapped := SAMPLE_METHOD.children[1];
    TwoChildren(at, SAMPLE_INNER, Leaf(Identifier, 29, "g"), Node(Block, 34, 35, "", []));
    TwoChildren(at, wrapped, Leaf(Identifier, 18, "f"), Node(Block, 25, 35, "", [SAMPLE_INNER]));
    TwoChildren(at, SAMPLE_METHOD, Leaf(Decorator, 10, "@p"), wrapped);
    TwoChildren(at, SAMPLE_CLASS, Leaf(Identifier, 6, "A"), Node(Block, 10, 35, "", [SAMPLE_METHOD]));
  }

  lemma TheSampleNames()
    ensures NameOf(SAMPLE_CLASS) == "A" && NameOf(SAMPLE_INNER) == "g"
  {
  }

  lemma TheSampleWraps()
    ensures WrapsFunction(SAMPLE_METHOD, 1, 1, 0)
    ensures SAMPLE_METHOD.children[1].children[1].children[0] == SAMPLE_INNER
  {
  }

  lemma TheSampleIsVisited()
    ensures Call([0], SAMPLE_CLASS, "") in Visits(SAMPLE_FILE, "")
  {
    assert Visits(SAMPLE_FILE, "")[0] == Call([], SAMPLE_FILE, "");
    ChildrenAreVisited(SAMPLE_FILE, "", Call([], SAMPLE_FILE, ""), 0);
    assert [] + [0] == [0];
  }

  /** A file whose class `A` has a decorated method `f` with a function `g` in it: `g` is recorded as a method of
      `A`. */
  lemma AMethodInAMethod(at: map<nat, nat>) returns (n: nat, e: Entry)
    requires forall b: nat | b <= 35 :: b in at
    ensures WellNested(at, SAMPLE_FILE) && WellNested(at, SAMPLE_INNER)
    ensures n < |Visits(SAMPLE_FILE, "")| && Visits(SAMPLE_FILE, "")[n].node == SAMPLE_INNER
    ensures OnlyEntry(at, SAMPLE_FILE, "", n, e) && e.symbolType == "method" && e.fnName == "g" && e.className == "A"
  {
    TheSampleIsWellNested(at);
    TheSampleNames();
    TheSampleWraps();
    TheSampleIsVisited();
    var v := Call([0], SAMPLE_CLASS, "");
    assert v.node.children[1].children[0] == SAMPLE_METHOD;
    n, e := FunctionsInDecoratedMethodsAreMethods(at, SAMPLE_FILE, "", v, 1, 0, 1, 1, 0);
  }
}
