/** The scope table of a source file (archon_search/code_enricher.py, `_build_scope_table`, `_walk_node`,
    `_resolve_scope`). The parse tree is given, nested as tree-sitter nests it. */
module CodeScopes {
  import opened Options
  import opened Sorting
  import opened Bisect
  import Segmentation

  type Span = Segmentation.Scope

  /** The node types the walk looks at. */
  datatype Kind =
    | DecoratedDefinition | FunctionDefinition | ClassDefinition
    | FunctionDeclaration | ClassDeclaration | MethodDefinition | MethodSignature
    | ExportStatement | ArrowFunction | Decorator
    | Block | StatementBlock | ClassBody
    | Identifier | PropertyIdentifier | TypeIdentifier
    | Other

  /** A syntax node with its byte range. */
  datatype Node = Node(kind: Kind, startByte: nat, endByte: nat, text: string, children: seq<Node>)

  datatype Entry = Entry(span: Span, symbolType: string, fnName: string, className: string)

  // ------------------------------------------------------------------ bytes and characters

  /** UTF-8 octets of a character (section 3 of RFC 3629). */
  function Width(c: char): nat {
    var n := c as int;
    if n < 0x80 then 1 else if n < 0x800 then 2 else if n < 0x10000 then 3 else 4
  }

  /** The UTF-8 octets of a character, the lead octet first (section 3 of RFC 3629). */
  function Encode(c: char): seq<nat> {
    var n := c as int;
    if n < 0x80 then [n]
    else if n < 0x800 then [0xc0 + n / 0x40, 0x80 + n % 0x40]
    else if n < 0x10000 then [0xe0 + n / 0x1000, 0x80 + n / 0x40 % 0x40, 0x80 + n % 0x40]
    else [0xf0 + n / 0x40000, 0x80 + n / 0x1000 % 0x40, 0x80 + n / 0x40 % 0x40, 0x80 + n % 0x40]
  }

  /** The number a sequence of octets stands for, by the length its lead octet announces. */
  function Decode(b: seq<nat>): nat {
    if |b| == 1 && b[0] < 0x80 then b[0]
    else if |b| == 2 && 0xc0 <= b[0] < 0xe0 && b[1] >= 0x80 then (b[0] - 0xc0) * 0x40 + (b[1] - 0x80)
    else if |b| == 3 && 0xe0 <= b[0] < 0xf0 && b[1] >= 0x80 && b[2] >= 0x80 then
      (b[0] - 0xe0) * 0x1000 + (b[1] - 0x80) * 0x40 + (b[2] - 0x80)
    else if |b| == 4 && 0xf0 <= b[0] < 0xf8 && b[1] >= 0x80 && b[2] >= 0x80 && b[3] >= 0x80 then
      (b[0] - 0xf0) * 0x40000 + (b[1] - 0x80) * 0x1000 + (b[2] - 0x80) * 0x40 + (b[3] - 0x80)
    else 0
  }

  /** A character is as wide as its octets, and they read back as the character. */
  lemma WidthsCountOctets(c: char)
    ensures Width(c) == |Encode(c)| && Decode(Encode(c)) == c as int
  {
    var n := c as int;
    assert n < 0x110000;
    if n >= 0x10000 {
      assert n == n / 0x40000 * 0x40000 + n / 0x1000 % 0x40 * 0x1000 + n / 0x40 % 0x40 * 0x40 + n % 0x40;
    } else if n >= 0x800 {
      assert n == n / 0x1000 * 0x1000 + n / 0x40 % 0x40 * 0x40 + n % 0x40;
    }
  }

  function EncodeAll(text: string): seq<nat> {
    if text == "" then [] else EncodeAll(text[..|text| - 1]) + Encode(text[|text| - 1])
  }

  /** The byte offset of character `i`. */
  function ByteAt(text: string, i: nat): nat
    requires i <= |text|
  {
    if i == 0 then 0 else ByteAt(text, i - 1) + Width(text[i - 1])
  }

  /** The byte offset of a character is the number of octets before it. */
  lemma {:induction false} OffsetsCountOctets(text: string, i: nat)
    requires i <= |text|
    ensures ByteAt(text, i) == |EncodeAll(text[..i])|
  {
    if i > 0 {
      OffsetsCountOctets(text, i - 1);
      assert text[..i][..i - 1] == text[..i - 1] && text[..i][i - 1] == text[i - 1];
      WidthsCountOctets(text[i - 1]);
    }
  }

  lemma {:induction false} ByteAtGrows(text: string, i: nat, j: nat)
    requires i < j <= |text|
    ensures ByteAt(text, i) < ByteAt(text, j)
  {
    if i < j - 1 {
      ByteAtGrows(text, i, j - 1);
    }
  }

  /** `at` takes the byte offsets of characters, and of the end, back to the characters. */
  ghost predicate MapsBytes(at: map<nat, nat>, text: string) {
    && (forall i: nat | i <= |text| :: ByteAt(text, i) in at && at[ByteAt(text, i)] == i)
    && (forall b | b in at :: at[b] <= |text| && b == ByteAt(text, at[b]))
  }

  /** The map after `n` characters. */
  ghost predicate MapsPrefix(at: map<nat, nat>, text: string, n: nat)
    requires n <= |text|
  {
    && (forall i: nat | i < n :: ByteAt(text, i) in at && at[ByteAt(text, i)] == i)
    && (forall b | b in at :: at[b] < n && b == ByteAt(text, at[b]))
  }

  lemma OneMoreByte(at: map<nat, nat>, text: string, n: nat)
    requires n <= |text| && MapsPrefix(at, text, n)
    ensures n < |text| ==> MapsPrefix(at[ByteAt(text, n) := n], text, n + 1)
    ensures n == |text| ==> MapsBytes(at[ByteAt(text, n) := n], text)
  {
    forall i: nat | i < n ensures ByteAt(text, i) < ByteAt(text, n) {
      ByteAtGrows(text, i, n);
    }
  }

  method BuildByteMap(text: string) returns (at: map<nat, nat>)
    ensures MapsBytes(at, text)
    ensures forall i: nat | i <= |text| :: |EncodeAll(text[..i])| in at && at[|EncodeAll(text[..i])|] == i
  {
    at := map[];
    var pos := 0;
    for n := 0 to |text|
      invariant pos == ByteAt(text, n) && MapsPrefix(at, text, n)
    {
      OneMoreByte(at, text, n);
      at := at[pos := n];
      pos := pos + Width(text[n]);
    }
    OneMoreByte(at, text, |text|);
    at := at[pos := |text|];
    forall i: nat | i <= |text| ensures |EncodeAll(text[..i])| in at && at[|EncodeAll(text[..i])|] == i {
      OffsetsCountOctets(text, i);
    }
  }

  lemma BytesKeepOrder(at: map<nat, nat>, text: string, a: nat, b: nat)
    requires MapsBytes(at, text) && a in at && b in at && a <= b
    ensures at[a] <= at[b]
  {
    if at[b] < at[a] {
      ByteAtGrows(text, at[b], at[a]);
    }
  }

  // ------------------------------------------------------------------ the walk

  predicate Apart(a: Node, b: Node) {
    a.endByte <= b.startByte || b.endByte <= a.startByte
  }

  /** Character-aligned nodes, children within their parent and apart from each other. */
  ghost predicate WellNested(at: map<nat, nat>, n: Node) {
    && n.startByte <= n.endByte && n.startByte in at && n.endByte in at
    && (forall c | c in n.children :: WellNested(at, c) && n.startByte <= c.startByte && c.endByte <= n.endByte)
    && (forall i, j | 0 <= i < j < |n.children| :: Apart(n.children[i], n.children[j]))
  }

  function FirstOf(nodes: seq<Node>, kinds: set<Kind>): (r: Option<Node>)
    ensures r.Some? ==> r.value in nodes && r.value.kind in kinds
  {
    if nodes == [] then None
    else if nodes[0].kind in kinds then Some(nodes[0])
    else FirstOf(nodes[1..], kinds)
  }

  const NAMES := {Identifier, PropertyIdentifier, TypeIdentifier}
  const BODIES := {Block, StatementBlock, ClassBody}

  function NameOf(n: Node): string {
    var r := FirstOf(n.children, NAMES);
    if r.Some? then r.value.text else ""
  }

  function SpanOf(at: map<nat, nat>, n: Node): Span
    requires n.startByte in at && n.endByte in at
  {
    Segmentation.Scope(at[n.startByte], at[n.endByte])
  }

  /** The earliest start among `start` and the decorators. */
  function DecoratedStart(at: map<nat, nat>, nodes: seq<Node>, start: nat): nat
    requires forall n | n in nodes :: WellNested(at, n)
  {
    if nodes == [] then start
    else
      var rest, last := nodes[..|nodes| - 1], nodes[|nodes| - 1];
      var r := DecoratedStart(at, rest, start);
      assert last in nodes && WellNested(at, last);
      if last.kind == Decorator && at[last.startByte] < r then at[last.startByte] else r
  }

  function FunctionEntry(span: Span, name: string, cls: string): Entry {
    Entry(span, if cls != "" then "method" else "function", name, cls)
  }

  function ClassEntry(span: Span, name: string): Entry {
    Entry(span, "class", "", name)
  }

  function Size(n: Node): nat {
    1 + SizeOfAll(n.children)
  }

  function SizeOfAll(nodes: seq<Node>): nat {
    if nodes == [] then 0 else SizeOfAll(nodes[..|nodes| - 1]) + Size(nodes[|nodes| - 1])
  }

  lemma {:induction false} PartsAreSmaller(nodes: seq<Node>, i: nat)
    requires i < |nodes|
    ensures Size(nodes[i]) <= SizeOfAll(nodes)
  {
    if i < |nodes| - 1 {
      PartsAreSmaller(nodes[..|nodes| - 1], i);
    }
  }

  /** A call of the walk: the way down to a node, in child indices, and the enclosing class it is called with. */
  datatype Call = Call(path: seq<nat>, node: Node, cls: string)

  /** `m` is where `path` leads from `n`. */
  predicate IsAt(n: Node, path: seq<nat>, m: Node) {
    if path == [] then m == n
    else path[0] < |n.children| && IsAt(n.children[path[0]], path[1..], m)
  }

  lemma {:induction false} DownIsSmaller(n: Node, path: seq<nat>, m: Node)
    requires IsAt(n, path, m)
    ensures Size(m) + |path| <= Size(n)
  {
    if path != [] {
      PartsAreSmaller(n.children, path[0]);
      DownIsSmaller(n.children[path[0]], path[1..], m);
    }
  }

  function Calls(prefix: seq<nat>, nodes: seq<Node>, cls: string): seq<Call> {
    seq(|nodes|, i requires 0 <= i < |nodes| => Call(prefix + [i], nodes[i], cls))
  }

  /** The calls on the children of those nodes that are of one of `kinds`. */
  function CallsInside(nodes: seq<Node>, kinds: set<Kind>, cls: string): seq<Call> {
    if nodes == [] then []
    else
      var k := |nodes| - 1;
      CallsInside(nodes[..k], kinds, cls) + if nodes[k].kind in kinds then Calls([k], nodes[k].children, cls) else []
  }

  function IndexOf(nodes: seq<Node>, kinds: set<Kind>): (i: nat)
    ensures i <= |nodes|
    ensures i == |nodes| <==> FirstOf(nodes, kinds).None?
    ensures i < |nodes| ==> FirstOf(nodes, kinds) == Some(nodes[i])
  {
    if nodes == [] || nodes[0].kind in kinds then 0 else 1 + IndexOf(nodes[1..], kinds)
  }

  const DEFINITIONS := {FunctionDefinition, ClassDefinition}

  /** The calls a call makes: a plain function resets the class, a class sets it, a decorated function keeps it. */
  function Descend(n: Node, cls: string): seq<Call> {
    if n.kind == DecoratedDefinition then
      var i := IndexOf(n.children, DEFINITIONS);
      if i == |n.children| then []
      else
        var inner := n.children[i];
        var j := IndexOf(inner.children, BODIES);
        if j == |inner.children| then []
        else Calls([i, j], inner.children[j].children, if inner.kind == FunctionDefinition then cls else NameOf(inner))
    else if n.kind == FunctionDefinition then CallsInside(n.children, {Block, StatementBlock}, "")
    else if n.kind == ClassDefinition then CallsInside(n.children, {Block, ClassBody}, NameOf(n))
    else if n.kind == FunctionDeclaration then CallsInside(n.children, {StatementBlock}, "")
    else if n.kind == ClassDeclaration then CallsInside(n.children, {ClassBody}, NameOf(n))
    else if n.kind in {MethodDefinition, MethodSignature, ArrowFunction} then []
    else Calls([], n.children, cls)
  }

  /** Calls on nodes below `n`, all at the same depth and no two at the same place. */
  ghost predicate Spread(n: Node, calls: seq<Call>) {
    && (forall x | x in calls :: x.path != [] && IsAt(n, x.path, x.node))
    && (forall i, j | 0 <= i < j < |calls| :: calls[i].path != calls[j].path && |calls[i].path| == |calls[j].path|)
  }

  lemma OneStepDown(n: Node, i: nat)
    requires i < |n.children|
    ensures IsAt(n, [i], n.children[i])
  {
    assert [i][1..] == [];
  }

  lemma {:induction false} FurtherDown(n: Node, path: seq<nat>, m: Node, more: seq<nat>, o: Node)
    requires IsAt(n, path, m) && IsAt(m, more, o)
    ensures IsAt(n, path + more, o)
  {
    if path == [] {
      assert path + more == more;
    } else {
      FurtherDown(n.children[path[0]], path[1..], m, more, o);
      assert (path + more)[1..] == path[1..] + more;
    }
  }

  lemma CallsSpread(n: Node, prefix: seq<nat>, m: Node, cls: string)
    requires IsAt(n, prefix, m)
    ensures Spread(n, Calls(prefix, m.children, cls))
  {
    forall x | x in Calls(prefix, m.children, cls) ensures x.path != [] && IsAt(n, x.path, x.node) {
      var i :| 0 <= i < |m.children| && x == Call(prefix + [i], m.children[i], cls);
      OneStepDown(m, i);
      FurtherDown(n, prefix, m, [i], m.children[i]);
    }
    assert forall i | 0 <= i < |m.children| :: Calls(prefix, m.children, cls)[i].path[|prefix|] == i;
  }

  /** The calls inside the first `k` children. */
  lemma {:induction false} CallsInsideSpread(n: Node, k: nat, kinds: set<Kind>, cls: string)
    requires k <= |n.children|
    ensures Spread(n, CallsInside(n.children[..k], kinds, cls))
    ensures forall x | x in CallsInside(n.children[..k], kinds, cls) :: |x.path| == 2 && x.path[0] < k
  {
    if k > 0 {
      var before := CallsInside(n.children[..k - 1], kinds, cls);
      assert n.children[..k][..k - 1] == n.children[..k - 1];
      CallsInsideSpread(n, k - 1, kinds, cls);
      OneStepDown(n, k - 1);
      CallsSpread(n, [k - 1], n.children[k - 1], cls);
      var more := Calls([k - 1], n.children[k - 1].children, cls);
      assert forall i | 0 <= i < |more| :: more[i].path == [k - 1, i];
      SpreadOfConcat(n, before, more, k - 1);
      assert before + [] == before;
      assert CallsInside(n.children[..k], kinds, cls) == before + more
             || CallsInside(n.children[..k], kinds, cls) == before;
    }
  }

  lemma SpreadOfConcat(n: Node, a: seq<Call>, b: seq<Call>, k: nat)
    requires Spread(n, a) && Spread(n, b)
    requires (forall x | x in a :: |x.path| == 2 && x.path[0] < k)
    requires forall x | x in b :: |x.path| == 2 && x.path[0] == k
    ensures Spread(n, a + b)
  {
    forall i, j | 0 <= i < j < |a + b|
      ensures (a + b)[i].path != (a + b)[j].path && |(a + b)[i].path| == |(a + b)[j].path|
    {
      if i < |a| <= j {
        assert a[i] in a && b[j - |a|] in b;
      }
    }
  }

  lemma DescentSpreads(n: Node, cls: string)
    ensures Spread(n, Descend(n, cls))
  {
    if n.kind == DecoratedDefinition {
      var i := IndexOf(n.children, DEFINITIONS);
      if i < |n.children| {
        var inner := n.children[i];
        var j := IndexOf(inner.children, BODIES);
        if j < |inner.children| {
          OneStepDown(n, i);
          OneStepDown(inner, j);
          FurtherDown(n, [i], inner, [j], inner.children[j]);
          assert [i] + [j] == [i, j];
          CallsSpread(n, [i, j], inner.children[j], if inner.kind == FunctionDefinition then cls else NameOf(inner));
        }
      }
    } else if n.kind in {FunctionDefinition, ClassDefinition, FunctionDeclaration, ClassDeclaration} {
      assert n.children[..|n.children|] == n.children;
      var kinds := BodyKinds(n.kind);
      CallsInsideSpread(n, |n.children|, kinds,
                        if n.kind in {FunctionDefinition, FunctionDeclaration} then "" else NameOf(n));
    } else {
      CallsSpread(n, [], n, cls);
    }
  }

  /** Where the walk looks for the body of a definition. */
  function BodyKinds(k: Kind): set<Kind> {
    if k == FunctionDefinition then {Block, StatementBlock}
    else if k == ClassDefinition then {Block, ClassBody}
    else if k == FunctionDeclaration then {StatementBlock} else {ClassBody}
  }

  lemma DescentGoesDown(n: Node, cls: string)
    ensures forall x | x in Descend(n, cls) :: Size(x.node) < Size(n)
  {
    DescentSpreads(n, cls);
    forall x | x in Descend(n, cls) ensures Size(x.node) < Size(n) {
      DownIsSmaller(n, x.path, x.node);
    }
  }

  /** The entry a call appends for its own node, if any. */
  function Own(at: map<nat, nat>, n: Node, cls: string): seq<Entry>
    requires WellNested(at, n)
  {
    if n.kind == DecoratedDefinition then
      var inner := FirstOf(n.children, DEFINITIONS);
      if inner.None? then []
      else if inner.value.kind == FunctionDefinition then [FunctionEntry(SpanOf(at, n), NameOf(inner.value), cls)]
      else [ClassEntry(SpanOf(at, n), NameOf(inner.value))]
    else if n.kind in {FunctionDefinition, FunctionDeclaration} then [FunctionEntry(SpanOf(at, n), NameOf(n), cls)]
    else if n.kind == ClassDefinition then [ClassEntry(SpanOf(at, n), NameOf(n))]
    else if n.kind == ClassDeclaration then
      [ClassEntry(Segmentation.Scope(DecoratedStart(at, n.children, at[n.startByte]), at[n.endByte]), NameOf(n))]
    else if n.kind in {MethodDefinition, MethodSignature} then [Entry(SpanOf(at, n), "method", NameOf(n), cls)]
    else []
  }

  lemma {:induction false} DownIsNested(at: map<nat, nat>, n: Node, path: seq<nat>, m: Node)
    requires WellNested(at, n) && IsAt(n, path, m)
    ensures WellNested(at, m) && n.startByte <= m.startByte && m.endByte <= n.endByte
  {
    if path != [] {
      assert n.children[path[0]] in n.children;
      DownIsNested(at, n.children[path[0]], path[1..], m);
    }
  }

  lemma DescentIsNested(at: map<nat, nat>, n: Node, cls: string)
    requires WellNested(at, n)
    ensures forall x | x in Descend(n, cls) ::
              WellNested(at, x.node) && n.startByte <= x.node.startByte && x.node.endByte <= n.endByte
  {
    DescentSpreads(n, cls);
    forall x | x in Descend(n, cls)
      ensures WellNested(at, x.node) && n.startByte <= x.node.startByte && x.node.endByte <= n.endByte
    {
      DownIsNested(at, n, x.path, x.node);
    }
  }

  /** The entries of a node, in the order the walk appends them; `cls` is the enclosing class. */
  function Walk(at: map<nat, nat>, n: Node, cls: string): seq<Entry>
    requires WellNested(at, n)
    decreases Size(n), 1, 0
  {
    DescentGoesDown(n, cls);
    DescentIsNested(at, n, cls);
    Own(at, n, cls) + WalkCalls(at, Descend(n, cls), Size(n))
  }

  function WalkCalls(at: map<nat, nat>, calls: seq<Call>, bound: nat): seq<Entry>
    requires forall x | x in calls :: WellNested(at, x.node) && Size(x.node) < bound
    decreases bound, 0, |calls|
  {
    if calls == [] then []
    else
      var last := calls[|calls| - 1];
      assert last in calls;
      WalkCalls(at, calls[..|calls| - 1], bound) + Walk(at, last.node, last.cls)
  }

  // ------------------------------------------------------------------ the entries are a laminar family

  ghost predicate LaminarEntries(entries: seq<Entry>) {
    forall a, b | a in entries && b in entries :: Segmentation.NestedOrApart(a.span, b.span)
  }

  ghost predicate Within(at: map<nat, nat>, n: Node, e: Entry) {
    n.startByte in at && n.endByte in at && at[n.startByte] <= e.span.start <= e.span.end <= at[n.endByte]
  }

  ghost predicate Below(at: map<nat, nat>, nodes: seq<Node>, entries: seq<Entry>) {
    LaminarEntries(entries) && forall e | e in entries :: exists n | n in nodes :: Within(at, n, e)
  }

  ghost predicate Siblings(at: map<nat, nat>, nodes: seq<Node>) {
    (forall n | n in nodes :: WellNested(at, n)) && forall i, j | 0 <= i < j < |nodes| :: Apart(nodes[i], nodes[j])
  }

  lemma WithinApart(at: map<nat, nat>, text: string, m: Node, n: Node, a: Entry, b: Entry)
    requires MapsBytes(at, text) && Within(at, m, a) && Within(at, n, b) && Apart(m, n)
    ensures Segmentation.NestedOrApart(a.span, b.span)
  {
    if m.endByte <= n.startByte {
      BytesKeepOrder(at, text, m.endByte, n.startByte);
    } else {
      BytesKeepOrder(at, text, n.endByte, m.startByte);
    }
  }

  lemma WithinAncestor(at: map<nat, nat>, text: string, n: Node, m: Node, e: Entry)
    requires MapsBytes(at, text) && Within(at, m, e) && n.startByte in at && n.endByte in at
    requires n.startByte <= m.startByte && m.endByte <= n.endByte
    ensures Within(at, n, e)
  {
    BytesKeepOrder(at, text, n.startByte, m.startByte);
    BytesKeepOrder(at, text, m.endByte, n.endByte);
  }

  /** Different places at the same depth are apart. */
  lemma {:induction false} DifferentPlacesAreApart(at: map<nat, nat>, n: Node, p: seq<nat>, q: seq<nat>, a: Node,
                                                   b: Node)
    requires WellNested(at, n) && IsAt(n, p, a) && IsAt(n, q, b) && |p| == |q| && p != q
    ensures Apart(a, b)
  {
    var c, d := n.children[p[0]], n.children[q[0]];
    assert c in n.children && d in n.children;
    if p[0] == q[0] {
      assert p == [p[0]] + p[1..] && q == [q[0]] + q[1..];
      DifferentPlacesAreApart(at, c, p[1..], q[1..], a, b);
    } else {
      DownIsNested(at, c, p[1..], a);
      DownIsNested(at, d, q[1..], b);
      var i, j := if p[0] < q[0] then p[0] else q[0], if p[0] < q[0] then q[0] else p[0];
      assert Apart(n.children[i], n.children[j]);
    }
  }

  function NodesOf(calls: seq<Call>): seq<Node> {
    seq(|calls|, i requires 0 <= i < |calls| => calls[i].node)
  }

  lemma DescentIsApart(at: map<nat, nat>, n: Node, cls: string)
    requires WellNested(at, n)
    ensures Siblings(at, NodesOf(Descend(n, cls)))
  {
    var calls := Descend(n, cls);
    DescentSpreads(n, cls);
    SpreadIsApart(at, n, calls);
    DescentIsNested(at, n, cls);
    forall m | m in NodesOf(calls) ensures WellNested(at, m) {
      var i :| 0 <= i < |calls| && m == calls[i].node;
      assert calls[i] in calls;
    }
  }

  lemma SpreadIsApart(at: map<nat, nat>, n: Node, calls: seq<Call>)
    requires WellNested(at, n) && Spread(n, calls)
    ensures forall i, j | 0 <= i < j < |calls| :: Apart(NodesOf(calls)[i], NodesOf(calls)[j])
  {
    forall i, j | 0 <= i < j < |calls| ensures Apart(NodesOf(calls)[i], NodesOf(calls)[j]) {
      assert calls[i] in calls && calls[j] in calls;
      DifferentPlacesAreApart(at, n, calls[i].path, calls[j].path, calls[i].node, calls[j].node);
    }
  }

  /** One more sibling's entries keep the family laminar. */
  lemma OneMoreSibling(at: map<nat, nat>, text: string, nodes: seq<Node>, before: seq<Entry>, entries: seq<Entry>)
    requires MapsBytes(at, text) && nodes != [] && Siblings(at, nodes)
    requires Below(at, nodes[..|nodes| - 1], before)
    requires LaminarEntries(entries) && forall e | e in entries :: Within(at, nodes[|nodes| - 1], e)
    ensures Below(at, nodes, before + entries)
  {
    var rest, last := nodes[..|nodes| - 1], nodes[|nodes| - 1];
    assert nodes == rest + [last];
    forall a, b | a in before && b in entries ensures Segmentation.NestedOrApart(a.span, b.span) {
      var m :| m in rest && Within(at, m, a);
      var i :| 0 <= i < |rest| && rest[i] == m;
      assert Apart(nodes[i], nodes[|nodes| - 1]);
      WithinApart(at, text, m, last, a, b);
    }
    forall a, b | a in before + entries && b in before + entries ensures Segmentation.NestedOrApart(a.span, b.span) {
    }
    forall e | e in before + entries ensures exists n | n in nodes :: Within(at, n, e) {
      if e in before {
        var m :| m in rest && Within(at, m, e);
        assert m in nodes;
      } else {
        assert last in nodes;
      }
    }
  }

  /** Entries with one in front that contains them. */
  lemma Enclosed(at: map<nat, nat>, n: Node, own: seq<Entry>, entries: seq<Entry>)
    requires WellNested(at, n) && AtMostTheNode(at, n, own) && at[n.startByte] <= at[n.endByte]
    requires LaminarEntries(entries) && forall f | f in entries :: Within(at, n, f)
    ensures LaminarEntries(own + entries) && forall f | f in own + entries :: Within(at, n, f)
  {
    forall a, b | a in own + entries && b in own + entries ensures Segmentation.NestedOrApart(a.span, b.span) {
    }
  }

  lemma {:induction false} DecoratorsStartInside(at: map<nat, nat>, text: string, n: Node, nodes: seq<Node>)
    requires MapsBytes(at, text) && WellNested(at, n) && forall c | c in nodes :: c in n.children && WellNested(at, c)
    ensures DecoratedStart(at, nodes, at[n.startByte]) == at[n.startByte]
  {
    if nodes != [] {
      var last := nodes[|nodes| - 1];
      assert last in nodes;
      DecoratorsStartInside(at, text, n, nodes[..|nodes| - 1]);
      BytesKeepOrder(at, text, n.startByte, last.startByte);
    }
  }

  /** At most one entry, and it spans the node. */
  ghost predicate AtMostTheNode(at: map<nat, nat>, n: Node, entries: seq<Entry>)
    requires WellNested(at, n)
  {
    |entries| <= 1 && forall e | e in entries :: e.span == SpanOf(at, n)
  }

  lemma OwnSpanOfPlain(at: map<nat, nat>, n: Node, cls: string)
    requires WellNested(at, n) && n.kind != ClassDeclaration && n.kind != DecoratedDefinition
    ensures AtMostTheNode(at, n, Own(at, n, cls))
  {
  }

  lemma OwnSpanOfDecorated(at: map<nat, nat>, n: Node, cls: string)
    requires WellNested(at, n) && n.kind == DecoratedDefinition
    ensures AtMostTheNode(at, n, Own(at, n, cls))
  {
  }

  lemma OwnSpanOfClass(at: map<nat, nat>, n: Node, cls: string)
    requires WellNested(at, n) && n.kind == ClassDeclaration
    requires DecoratedStart(at, n.children, at[n.startByte]) == at[n.startByte]
    ensures AtMostTheNode(at, n, Own(at, n, cls))
  {
  }

  /** The own entry spans the node. */
  lemma OwnSpan(at: map<nat, nat>, text: string, n: Node, cls: string)
    requires MapsBytes(at, text) && WellNested(at, n)
    ensures AtMostTheNode(at, n, Own(at, n, cls)) && at[n.startByte] <= at[n.endByte]
  {
    BytesKeepOrder(at, text, n.startByte, n.endByte);
    if n.kind == ClassDeclaration {
      assert forall c | c in n.children :: WellNested(at, c);
      DecoratorsStartInside(at, text, n, n.children);
      OwnSpanOfClass(at, n, cls);
    } else if n.kind == DecoratedDefinition {
      OwnSpanOfDecorated(at, n, cls);
    } else {
      OwnSpanOfPlain(at, n, cls);
    }
  }

  lemma {:induction false} WalkIsLaminar(at: map<nat, nat>, text: string, n: Node, cls: string)
    requires MapsBytes(at, text) && WellNested(at, n)
    ensures LaminarEntries(Walk(at, n, cls)) && forall e | e in Walk(at, n, cls) :: Within(at, n, e)
    decreases Size(n), 1, 0
  {
    var calls := Descend(n, cls);
    DescentGoesDown(n, cls);
    DescentIsNested(at, n, cls);
    DescentIsApart(at, n, cls);
    WalkCallsIsLaminar(at, text, calls, Size(n));
    var entries := WalkCalls(at, calls, Size(n));
    forall e | e in entries ensures Within(at, n, e) {
      var m :| m in NodesOf(calls) && Within(at, m, e);
      var i :| 0 <= i < |calls| && calls[i].node == m;
      assert calls[i] in calls;
      WithinAncestor(at, text, n, m, e);
    }
    OwnSpan(at, text, n, cls);
    Enclosed(at, n, Own(at, n, cls), entries);
  }

  lemma {:induction false} WalkCallsIsLaminar(at: map<nat, nat>, text: string, calls: seq<Call>, bound: nat)
    requires forall x | x in calls :: WellNested(at, x.node) && Size(x.node) < bound
    requires MapsBytes(at, text) && Siblings(at, NodesOf(calls))
    ensures Below(at, NodesOf(calls), WalkCalls(at, calls, bound))
    decreases bound, 0, |calls|
  {
    if calls != [] {
      var rest, last := calls[..|calls| - 1], calls[|calls| - 1];
      assert last in calls;
      var nodes := NodesOf(calls);
      assert NodesOf(rest) == nodes[..|nodes| - 1] && nodes == NodesOf(rest) + [last.node];
      WalkCallsIsLaminar(at, text, rest, bound);
      WalkIsLaminar(at, text, last.node, last.cls);
      OneMoreSibling(at, text, nodes, WalkCalls(at, rest, bound), Walk(at, last.node, last.cls));
    }
  }

  // ------------------------------------------------------------------ the list the walk fills

  ghost predicate Walkable(at: map<nat, nat>, calls: seq<Call>, bound: nat) {
    forall x | x in calls :: WellNested(at, x.node) && Size(x.node) < bound
  }

  lemma WalkableConcat(at: map<nat, nat>, a: seq<Call>, b: seq<Call>, bound: nat)
    ensures Walkable(at, a + b, bound) <==> Walkable(at, a, bound) && Walkable(at, b, bound)
  {
    assert forall x | x in a || x in b :: x in a + b;
  }

  lemma WalkOneMore(at: map<nat, nat>, calls: seq<Call>, x: Call, bound: nat)
    requires Walkable(at, calls + [x], bound)
    ensures Walkable(at, calls, bound) && WellNested(at, x.node)
    ensures WalkCalls(at, calls + [x], bound) == WalkCalls(at, calls, bound) + Walk(at, x.node, x.cls)
  {
    WalkableConcat(at, calls, [x], bound);
    assert x in [x] && (calls + [x])[..|calls|] == calls;
  }

  lemma {:induction false} WalkConcat(at: map<nat, nat>, a: seq<Call>, b: seq<Call>, bound: nat)
    requires Walkable(at, a, bound) && Walkable(at, b, bound)
    ensures Walkable(at, a + b, bound)
    ensures WalkCalls(at, a + b, bound) == WalkCalls(at, a, bound) + WalkCalls(at, b, bound)
    decreases |b|
  {
    WalkableConcat(at, a, b, bound);
    if b == [] {
      assert a + b == a;
    } else {
      var front, x := b[..|b| - 1], b[|b| - 1];
      assert b == front + [x] && a + b == (a + front) + [x];
      WalkOneMore(at, front, x, bound);
      WalkOneMore(at, a + front, x, bound);
      WalkConcat(at, a, front, bound);
      Regrouped(WalkCalls(at, a, bound), WalkCalls(at, front, bound), Walk(at, x.node, x.cls));
    }
  }

  lemma Regrouped(a: seq<Entry>, b: seq<Entry>, c: seq<Entry>)
    ensures (a + b) + c == a + (b + c)
  {
  }

  /** Nodes without an entry of their own hand their class on to every child. */
  lemma PlainWalk(at: map<nat, nat>, n: Node, cls: string)
    requires WellNested(at, n)
    requires n.kind !in {DecoratedDefinition, FunctionDefinition, ClassDefinition, FunctionDeclaration,
                         ClassDeclaration, MethodDefinition, MethodSignature, ArrowFunction}
    ensures Walkable(at, Calls([], n.children, cls), Size(n))
    ensures Walk(at, n, cls) == WalkCalls(at, Calls([], n.children, cls), Size(n))
  {
    CallsAreWalkable(at, [], n.children, cls, Size(n));
    assert Descend(n, cls) == Calls([], n.children, cls);
    assert Own(at, n, cls) == [];
  }

  lemma LeafWalk(at: map<nat, nat>, n: Node, cls: string)
    requires WellNested(at, n) && n.kind in {MethodDefinition, MethodSignature, ArrowFunction}
    ensures Walk(at, n, cls) == if n.kind == ArrowFunction then [] else [Entry(SpanOf(at, n), "method", NameOf(n), cls)]
  {
    assert Descend(n, cls) == [];
  }

  /** The loop over the decorators of a class. */
  method EarliestStart(at: map<nat, nat>, n: Node) returns (start: nat)
    requires WellNested(at, n)
    ensures start == DecoratedStart(at, n.children, at[n.startByte])
  {
    start := at[n.startByte];
    for i := 0 to |n.children|
      invariant start == DecoratedStart(at, n.children[..i], at[n.startByte])
    {
      assert n.children[..i + 1][..i] == n.children[..i] && WellNested(at, n.children[i]);
      if n.children[i].kind == Decorator {
        var d := at[n.children[i].startByte];
        start := if d < start then d else start;
      }
    }
    assert n.children[..|n.children|] == n.children;
  }

  lemma CallsAreWalkable(at: map<nat, nat>, prefix: seq<nat>, nodes: seq<Node>, cls: string, bound: nat)
    requires forall c | c in nodes :: WellNested(at, c)
    requires SizeOfAll(nodes) < bound
    ensures Walkable(at, Calls(prefix, nodes, cls), bound)
  {
    forall x | x in Calls(prefix, nodes, cls) ensures WellNested(at, x.node) && Size(x.node) < bound {
      var i :| 0 <= i < |nodes| && x == Call(prefix + [i], nodes[i], cls);
      assert nodes[i] in nodes;
      PartsAreSmaller(nodes, i);
    }
  }

  lemma ChildrenAreWalkable(at: map<nat, nat>, n: Node, cls: string)
    requires WellNested(at, n)
    ensures Walkable(at, Descend(n, cls), Size(n))
  {
    DescentGoesDown(n, cls);
    DescentIsNested(at, n, cls);
  }

  lemma InsideIsWalkable(at: map<nat, nat>, n: Node, k: nat, kinds: set<Kind>, cls: string)
    requires WellNested(at, n) && k <= |n.children|
    ensures Walkable(at, CallsInside(n.children[..k], kinds, cls), Size(n))
  {
    CallsInsideSpread(n, k, kinds, cls);
    forall x | x in CallsInside(n.children[..k], kinds, cls) ensures WellNested(at, x.node) && Size(x.node) < Size(n) {
      DownIsSmaller(n, x.path, x.node);
      DownIsNested(at, n, x.path, x.node);
    }
  }

  lemma OneMoreBody(at: map<nat, nat>, n: Node, i: nat, kinds: set<Kind>, cls: string)
    requires WellNested(at, n) && i < |n.children|
    ensures Walkable(at, CallsInside(n.children[..i], kinds, cls), Size(n))
    ensures Walkable(at, CallsInside(n.children[..i + 1], kinds, cls), Size(n))
    ensures WellNested(at, n.children[i]) && SizeOfAll(n.children[i].children) < Size(n)
    ensures n.children[i].kind !in kinds ==>
              CallsInside(n.children[..i + 1], kinds, cls) == CallsInside(n.children[..i], kinds, cls)
    ensures n.children[i].kind in kinds ==>
              && Walkable(at, Calls([i], n.children[i].children, cls), Size(n))
              && WalkCalls(at, CallsInside(n.children[..i + 1], kinds, cls), Size(n))
                 == WalkCalls(at, CallsInside(n.children[..i], kinds, cls), Size(n))
                     + WalkCalls(at, Calls([i], n.children[i].children, cls), Size(n))
  {
    var c := n.children[i];
    assert c in n.children;
    PartsAreSmaller(n.children, i);
    InsideIsWalkable(at, n, i, kinds, cls);
    InsideIsWalkable(at, n, i + 1, kinds, cls);
    assert n.children[..i + 1][..i] == n.children[..i];
    if c.kind in kinds {
      CallsAreWalkable(at, [i], c.children, cls, Size(n));
      WalkConcat(at, CallsInside(n.children[..i], kinds, cls), Calls([i], c.children, cls), Size(n));
    } else {
      assert CallsInside(n.children[..i], kinds, cls) + [] == CallsInside(n.children[..i], kinds, cls);
    }
  }

  /** `entries` holds those before, then the node's own, then those of the bodies among the first `i` children. */
  ghost predicate BodiesWalked(at: map<nat, nat>, n: Node, i: nat, kinds: set<Kind>, cls: string, own: seq<Entry>,
                               before: seq<Entry>, entries: seq<Entry>)
    requires i <= |n.children|
  {
    && Walkable(at, CallsInside(n.children[..i], kinds, cls), Size(n))
    && entries == before + (own + WalkCalls(at, CallsInside(n.children[..i], kinds, cls), Size(n)))
  }

  lemma OneMoreWalked(at: map<nat, nat>, n: Node, i: nat, kinds: set<Kind>, cls: string, own: seq<Entry>,
                      before: seq<Entry>, entries: seq<Entry>)
    requires WellNested(at, n) && i < |n.children| && BodiesWalked(at, n, i, kinds, cls, own, before, entries)
    ensures n.children[i].kind !in kinds ==> BodiesWalked(at, n, i + 1, kinds, cls, own, before, entries)
    ensures n.children[i].kind in kinds ==>
              && Walkable(at, Calls([i], n.children[i].children, cls), Size(n))
              && BodiesWalked(at, n, i + 1, kinds, cls, own, before,
                              entries + WalkCalls(at, Calls([i], n.children[i].children, cls), Size(n)))
  {
    OneMoreBody(at, n, i, kinds, cls);
    if n.children[i].kind in kinds {
      var done := WalkCalls(at, CallsInside(n.children[..i], kinds, cls), Size(n));
      var more := WalkCalls(at, Calls([i], n.children[i].children, cls), Size(n));
      Regrouped(before, own + done, more);
      Regrouped(own, done, more);
    }
  }

  /** `entries` holds those before, then those of the first `i` calls. */
  ghost predicate CallsWalked(at: map<nat, nat>, calls: seq<Call>, i: nat, bound: nat, before: seq<Entry>,
                              entries: seq<Entry>)
    requires i <= |calls|
  {
    Walkable(at, calls[..i], bound) && entries == before + WalkCalls(at, calls[..i], bound)
  }

  lemma OneMoreCallWalked(at: map<nat, nat>, calls: seq<Call>, i: nat, bound: nat, before: seq<Entry>,
                          entries: seq<Entry>)
    requires i < |calls| && Walkable(at, calls, bound) && CallsWalked(at, calls, i, bound, before, entries)
    ensures WellNested(at, calls[i].node)
    ensures CallsWalked(at, calls, i + 1, bound, before, entries + Walk(at, calls[i].node, calls[i].cls))
  {
    assert calls[..i + 1][..i] == calls[..i] && calls[i] in calls;
    Regrouped(before, WalkCalls(at, calls[..i], bound), Walk(at, calls[i].node, calls[i].cls));
  }

  class ScopeList {
    var entries: seq<Entry>

    constructor ()
      ensures entries == []
    {
      entries := [];
    }

    /** `_walk_node` */
    method WalkNode(at: map<nat, nat>, n: Node, cls: string)
      requires WellNested(at, n)
      modifies this
      ensures entries == old(entries) + Walk(at, n, cls)
      decreases 4 * Size(n)
    {
      if n.kind == DecoratedDefinition {
        WalkDecoratedNode(at, n, cls);
      } else if n.kind in {FunctionDefinition, ClassDefinition, FunctionDeclaration, ClassDeclaration} {
        WalkDefinition(at, n, cls);
      } else if n.kind in {MethodDefinition, MethodSignature} {
        LeafWalk(at, n, cls);
        entries := entries + [Entry(SpanOf(at, n), "method", NameOf(n), cls)];
      } else if n.kind == ArrowFunction {
        LeafWalk(at, n, cls);
      } else {
        PlainWalk(at, n, cls);
        WalkNodes(at, [], n.children, cls, Size(n));
      }
    }

    /** The four branches of functions and classes. */
    method WalkDefinition(at: map<nat, nat>, n: Node, cls: string)
      requires WellNested(at, n)
      requires n.kind in {FunctionDefinition, ClassDefinition, FunctionDeclaration, ClassDeclaration}
      modifies this
      ensures entries == old(entries) + Walk(at, n, cls)
      decreases 4 * Size(n) - 1
    {
      ghost var own := Own(at, n, cls);
      ChildrenAreWalkable(at, n, cls);
      if n.kind == FunctionDefinition {
        entries := entries + [FunctionEntry(SpanOf(at, n), NameOf(n), cls)];
        WalkBodies(at, n, {Block, StatementBlock}, "", own, old(entries));
      } else if n.kind == ClassDefinition {
        entries := entries + [ClassEntry(SpanOf(at, n), NameOf(n))];
        WalkBodies(at, n, {Block, ClassBody}, NameOf(n), own, old(entries));
      } else if n.kind == FunctionDeclaration {
        entries := entries + [FunctionEntry(SpanOf(at, n), NameOf(n), cls)];
        WalkBodies(at, n, {StatementBlock}, "", own, old(entries));
      } else {
        var start := EarliestStart(at, n);
        entries := entries + [ClassEntry(Segmentation.Scope(start, at[n.endByte]), NameOf(n))];
        WalkBodies(at, n, {ClassBody}, NameOf(n), own, old(entries));
      }
    }

    /** The entries in the bodies of a definition, behind its own. */
    method WalkBodies(at: map<nat, nat>, n: Node, kinds: set<Kind>, cls: string, ghost own: seq<Entry>,
                      ghost before: seq<Entry>)
      requires WellNested(at, n) && entries == before + own
      modifies this
      ensures Walkable(at, CallsInside(n.children, kinds, cls), Size(n))
      ensures entries == before + (own + WalkCalls(at, CallsInside(n.children, kinds, cls), Size(n)))
      decreases 4 * Size(n) - 2
    {
      InsideIsWalkable(at, n, 0, kinds, cls);
      for i := 0 to |n.children|
        invariant BodiesWalked(at, n, i, kinds, cls, own, before, entries)
      {
        var c := n.children[i];
        OneMoreBody(at, n, i, kinds, cls);
        OneMoreWalked(at, n, i, kinds, cls, own, before, entries);
        if c.kind in kinds {
          WalkNodes(at, [i], c.children, cls, Size(n));
        }
      }
      assert n.children[..|n.children|] == n.children;
    }

    method WalkDecoratedNode(at: map<nat, nat>, n: Node, cls: string)
      requires WellNested(at, n) && n.kind == DecoratedDefinition
      modifies this
      ensures entries == old(entries) + Walk(at, n, cls)
      decreases 4 * Size(n) - 1
    {
      var inner := FirstOf(n.children, DEFINITIONS);
      ghost var own := Own(at, n, cls);
      if inner.Some? {
        ghost var i := IndexOf(n.children, DEFINITIONS);
        assert WellNested(at, inner.value);
        PartsAreSmaller(n.children, i);
        var name, isFunction := NameOf(inner.value), inner.value.kind == FunctionDefinition;
        entries := entries
            + [if isFunction then FunctionEntry(SpanOf(at, n), name, cls) else ClassEntry(SpanOf(at, n), name)];
        var body := FirstOf(inner.value.children, BODIES);
        if body.Some? {
          ghost var j := IndexOf(inner.value.children, BODIES);
          assert WellNested(at, body.value);
          PartsAreSmaller(inner.value.children, j);
          var inside := if isFunction then cls else name;
          CallsAreWalkable(at, [i, j], body.value.children, inside, Size(n));
          Regrouped(old(entries), own, WalkCalls(at, Calls([i, j], body.value.children, inside), Size(n)));
          WalkNodes(at, [i, j], body.value.children, inside, Size(n));
        }
      }
    }

    method WalkNodes(at: map<nat, nat>, ghost prefix: seq<nat>, nodes: seq<Node>, cls: string, ghost bound: nat)
      requires (forall n | n in nodes :: WellNested(at, n)) && SizeOfAll(nodes) < bound
      modifies this
      ensures Walkable(at, Calls(prefix, nodes, cls), bound)
      ensures entries == old(entries) + WalkCalls(at, Calls(prefix, nodes, cls), bound)
      decreases 4 * SizeOfAll(nodes) + 1
    {
      CallsAreWalkable(at, prefix, nodes, cls, bound);
      ghost var calls := Calls(prefix, nodes, cls);
      for i := 0 to |nodes|
        invariant CallsWalked(at, calls, i, bound, old(entries), entries)
      {
        assert nodes[i] in nodes;
        PartsAreSmaller(nodes, i);
        OneMoreCallWalked(at, calls, i, bound, old(entries), entries);
        WalkNode(at, nodes[i], cls);
      }
      assert calls[..|nodes|] == calls;
    }
  }

  // ------------------------------------------------------------------ the table and the look-up

  /** Outer scopes before the inner ones that start with them. */
  predicate EntryLe(a: Entry, b: Entry) {
    a.span.start < b.span.start || (a.span.start == b.span.start && a.span.end >= b.span.end)
  }

  function EntryOrder(): (Entry, Entry) -> bool {
    (a: Entry, b: Entry) => EntryLe(a, b)
  }

  ghost predicate IsScopeTable(table: seq<Entry>) {
    SortedBy(EntryOrder(), table) && LaminarEntries(table)
  }

  /** `_build_scope_table`: the sorted entries of the tree, a laminar family within the text. */
  method BuildScopeTable(text: string, root: Node, ghost at: map<nat, nat>) returns (table: seq<Entry>)
    requires MapsBytes(at, text) && WellNested(at, root)
    ensures multiset(table) == multiset(Walk(at, root, ""))
    ensures IsScopeTable(table)
    ensures forall e | e in table :: e.span.start <= e.span.end <= |text|
  {
    var bytes := BuildByteMap(text);
    SameBytes(at, bytes, text);
    var list := new ScopeList();
    list.WalkNode(bytes, root, "");
    table := Sort(EntryOrder(), list.entries);
    WalkIsLaminar(bytes, text, root, "");
    SortKeeps(EntryOrder(), list.entries);
    SortSorts(EntryOrder(), list.entries);
  }

  lemma SameBytes(a: map<nat, nat>, b: map<nat, nat>, text: string)
    requires MapsBytes(a, text) && MapsBytes(b, text)
    ensures a == b
  {
  }

  predicate Encloses(e: Entry, offset: int) {
    e.span.start <= offset < e.span.end
  }

  /** `_resolve_scope`: the innermost scope around the offset, or none exactly when there is none. */
  method ResolveScope(offset: int, table: seq<Entry>) returns (r: Option<Entry>)
    requires IsScopeTable(table)
    ensures r.None? <==> forall e | e in table :: !Encloses(e, offset)
    ensures r.Some? ==> r.value in table && Encloses(r.value, offset)
                        && forall e | e in table && Encloses(e, offset) :: Segmentation.Contains(e.span, r.value.span)
  {
    var starts := seq(|table|, i requires 0 <= i < |table| => table[i].span.start as int);
    assert forall i, j | 0 <= i < j < |table| :: EntryOrder()(table[i], table[j]);
    var i := BisectRight(starts, offset);
    assert forall k | 0 <= k < |table| :: starts[k] == table[k].span.start as int;
    while i > 0
      invariant 0 <= i <= |table| && forall k | i <= k < |table| :: !Encloses(table[k], offset)
      invariant forall k | 0 <= k < i :: table[k].span.start <= offset
    {
      i := i - 1;
      if table[i].span.end > offset {
        assert table[i] in table && Encloses(table[i], offset);
        FirstFoundIsInnermost(offset, table, i);
        return Some(table[i]);
      }
    }
    return None;
  }

  lemma FirstFoundIsInnermost(offset: int, table: seq<Entry>, i: nat)
    requires IsScopeTable(table) && i < |table| && Encloses(table[i], offset)
    requires forall k | i < k < |table| :: !Encloses(table[k], offset)
    ensures forall e | e in table && Encloses(e, offset) :: Segmentation.Contains(e.span, table[i].span)
  {
    forall e | e in table && Encloses(e, offset) ensures Segmentation.Contains(e.span, table[i].span) {
      var k :| 0 <= k < |table| && table[k] == e;
      assert k < i ==> EntryOrder()(table[k], table[i]);
      assert Segmentation.NestedOrApart(e.span, table[i].span);
    }
  }

  function Spans(table: seq<Entry>): (spans: seq<Span>)
    ensures |spans| == |table| && forall i | 0 <= i < |table| :: spans[i] == table[i].span
  {
    seq(|table|, i requires 0 <= i < |table| => table[i].span)
  }

  /** A scope table is one the segmentation takes. */
  lemma ScopeTablesCanBeSegmented(text: string, table: seq<Entry>)
    requires IsScopeTable(table) && forall e | e in table :: e.span.start <= e.span.end <= |text|
    ensures Segmentation.Laminar(Spans(table)) && forall s | s in Spans(table) :: s.start <= s.end <= |text|
  {
    forall i, j | 0 <= i < |table| && 0 <= j < |table|
      ensures Segmentation.NestedOrApart(table[i].span, table[j].span)
    {
      assert table[i] in table && table[j] in table;
    }
    forall s | s in Spans(table) ensures s.start <= s.end <= |text| {
      var i :| 0 <= i < |table| && Spans(table)[i] == s;
      assert table[i] in table;
    }
  }
}
