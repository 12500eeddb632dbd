/** daggerverse/grafana-stack: the same splicing on a heap of nodes that point at their
    children, edited in place. A shape says which objects make up a tree; a context is a
    shape with one subtree taken out, and is what an edit of that subtree leaves alone. */
module YamlHeap {
  import opened Text
  import opened YamlTree

  class YamlNode {
    var kind: Kind
    var tag: string
    var value: string
    var style: string
    var content: seq<YamlNode>

    constructor (kind: Kind, tag: string, value: string, content: seq<YamlNode>)
      ensures this.kind == kind && this.tag == tag && this.value == value && this.style == ""
      ensures this.content == content
    {
      this.kind, this.tag, this.value, this.style, this.content := kind, tag, value, "", content;
    }

    ghost function Header(): Tree
      reads this
    {
      Tree(kind, tag, value, style, [])
    }
  }

  /** A new node is none of the nodes there are. */
  method NewNode(kind: Kind, tag: string, value: string, content: seq<YamlNode>, ghost others: set<YamlNode>)
      returns (n: YamlNode)
    ensures fresh(n) && n !in others
    ensures n.Header() == Tree(kind, tag, value, "", []) && n.content == content
  {
    n := new YamlNode(kind, tag, value, content);
  }

  // ------------------------------------------------------------ shapes

  datatype Shape = Shape(node: YamlNode, kids: seq<Shape>)

  ghost function Nodes(s: Shape): set<YamlNode>
    decreases s, 1
  {
    {s.node} + NodesAll(s.kids)
  }

  ghost function NodesAll(ks: seq<Shape>): set<YamlNode>
    decreases ks, 0
  {
    if ks == [] then {} else Nodes(ks[0]) + NodesAll(ks[1..])
  }

  /** No node occurs twice: nothing is shared. */
  ghost predicate Apart(s: Shape)
    decreases s, 1
  {
    s.node !in NodesAll(s.kids) && ApartAll(s.kids)
  }

  ghost predicate ApartAll(ks: seq<Shape>)
    decreases ks, 0
  {
    ks == [] || (Nodes(ks[0]) !! NodesAll(ks[1..]) && Apart(ks[0]) && ApartAll(ks[1..]))
  }

  ghost function Roots(ks: seq<Shape>): (roots: seq<YamlNode>)
    ensures |roots| == |ks|
  {
    seq(|ks|, i requires 0 <= i < |ks| => ks[i].node)
  }

  /** The nodes point at each other the way the shape says. */
  ghost predicate Shaped(s: Shape)
    reads Nodes(s)
    decreases s, 1
  {
    s.node.content == Roots(s.kids) && ShapedAll(s.kids)
  }

  ghost predicate ShapedAll(ks: seq<Shape>)
    reads NodesAll(ks)
    decreases ks, 0
  {
    ks == [] || (Shaped(ks[0]) && ShapedAll(ks[1..]))
  }

  /** The tree a shape stands for. */
  ghost function Abs(s: Shape): Tree
    reads Nodes(s)
    decreases s, 1
  {
    s.node.Header().(children := AbsAll(s.kids))
  }

  ghost function AbsAll(ks: seq<Shape>): (ts: seq<Tree>)
    reads NodesAll(ks)
    ensures |ts| == |ks|
    decreases ks, 0
  {
    if ks == [] then [] else [Abs(ks[0])] + AbsAll(ks[1..])
  }

  lemma {:induction false} NodesConcat(a: seq<Shape>, b: seq<Shape>)
    ensures NodesAll(a + b) == NodesAll(a) + NodesAll(b)
  {
    if a == [] {
      assert a + b == b;
    } else {
      assert (a + b)[1..] == a[1..] + b;
      NodesConcat(a[1..], b);
    }
  }

  lemma {:induction false} ApartConcat(a: seq<Shape>, b: seq<Shape>)
    ensures ApartAll(a + b) <==> ApartAll(a) && ApartAll(b) && NodesAll(a) !! NodesAll(b)
  {
    if a == [] {
      assert a + b == b;
    } else {
      assert (a + b)[1..] == a[1..] + b;
      NodesConcat(a[1..], b);
      ApartConcat(a[1..], b);
    }
  }

  lemma {:induction false} ShapedConcat(a: seq<Shape>, b: seq<Shape>)
    ensures ShapedAll(a + b) <==> ShapedAll(a) && ShapedAll(b)
  {
    if a == [] {
      assert a + b == b;
    } else {
      assert (a + b)[1..] == a[1..] + b;
      ShapedConcat(a[1..], b);
    }
  }

  lemma {:induction false} AbsConcat(a: seq<Shape>, b: seq<Shape>)
    ensures AbsAll(a + b) == AbsAll(a) + AbsAll(b)
  {
    if a == [] {
      assert a + b == b;
    } else {
      assert (a + b)[1..] == a[1..] + b;
      AbsConcat(a[1..], b);
    }
  }

  /** A list of children with one of them singled out. */
  lemma {:induction false} AllAround(a: seq<Shape>, s: Shape, b: seq<Shape>)
    ensures NodesAll(a + [s] + b) == NodesAll(a) + Nodes(s) + NodesAll(b)
    ensures ApartAll(a + [s] + b) <==>
      && ApartAll(a) && Apart(s) && ApartAll(b)
      && NodesAll(a) !! Nodes(s) && NodesAll(a) !! NodesAll(b) && Nodes(s) !! NodesAll(b)
    ensures ShapedAll(a + [s] + b) <==> ShapedAll(a) && Shaped(s) && ShapedAll(b)
    ensures AbsAll(a + [s] + b) == AbsAll(a) + [Abs(s)] + AbsAll(b)
    ensures Roots(a + [s] + b) == Roots(a) + [s.node] + Roots(b)
  {
    assert NodesAll([s]) == Nodes(s) && (ApartAll([s]) <==> Apart(s)) by {
      assert [s][1..] == [];
    }
    assert (ShapedAll([s]) <==> Shaped(s)) && AbsAll([s]) == [Abs(s)] by {
      assert [s][1..] == [];
    }
    NodesConcat(a + [s], b);
    NodesConcat(a, [s]);
    ApartConcat(a + [s], b);
    ApartConcat(a, [s]);
    ShapedConcat(a + [s], b);
    ShapedConcat(a, [s]);
    AbsConcat(a + [s], b);
    AbsConcat(a, [s]);
  }

  // ------------------------------------------------------------ contexts

  datatype Context = Top | Under(node: YamlNode, before: seq<Shape>, after: seq<Shape>, outer: Context)

  ghost function ContextNodes(c: Context): set<YamlNode> {
    match c
    case Top => {}
    case Under(n, b, a, outer) => {n} + NodesAll(b) + NodesAll(a) + ContextNodes(outer)
  }

  ghost predicate ContextApart(c: Context) {
    match c
    case Top => true
    case Under(n, b, a, outer) =>
      && n !in NodesAll(b) && n !in NodesAll(a) && NodesAll(b) !! NodesAll(a)
      && ApartAll(b) && ApartAll(a)
      && ContextApart(outer) && ContextNodes(outer) !! ({n} + NodesAll(b) + NodesAll(a))
  }

  /** The context is a tree but for the hole, where `hole` hangs. */
  ghost predicate ContextShaped(c: Context, hole: YamlNode)
    reads ContextNodes(c)
    decreases c
  {
    match c
    case Top => true
    case Under(n, b, a, outer) =>
      && n.content == Roots(b) + [hole] + Roots(a)
      && ShapedAll(b) && ShapedAll(a) && ContextShaped(outer, n)
  }

  ghost function Plug(c: Context, s: Shape): Shape
    decreases c
  {
    match c
    case Top => s
    case Under(n, b, a, outer) => Plug(outer, Shape(n, b + [s] + a))
  }

  /** The whole tree, when `t` stands in the hole. */
  ghost function PlugTree(c: Context, t: Tree): Tree
    reads ContextNodes(c)
    decreases c
  {
    match c
    case Top => t
    case Under(n, b, a, outer) => PlugTree(outer, n.Header().(children := AbsAll(b) + [t] + AbsAll(a)))
  }

  /** The outermost node. */
  ghost function Outermost(c: Context, n: YamlNode): YamlNode
    decreases c
  {
    if c.Top? then n else Outermost(c.outer, c.node)
  }

  /** An edit at `s` sees a tree without sharing, and `s` hangs in the hole. */
  ghost predicate Focus(c: Context, s: Shape)
    reads ContextNodes(c), Nodes(s)
  {
    && ContextShaped(c, s.node) && Shaped(s)
    && ContextApart(c) && Apart(s) && ContextNodes(c) !! Nodes(s)
  }

  ghost function AllNodes(c: Context, s: Shape): set<YamlNode> {
    ContextNodes(c) + Nodes(s)
  }

  /** The innermost level of a context, as a frame of the tree. */
  ghost function FrameOf(c: Context): Frame
    requires c.Under?
    reads ContextNodes(c)
  {
    Frame(c.node.Header(), AbsAll(c.before), AbsAll(c.after))
  }

  /** Moving the focus back up. */
  lemma {:induction false} FocusOut(c: Context, s: Shape)
    requires Focus(c, s) && c.Under?
    ensures var up := Shape(c.node, c.before + [s] + c.after);
      && Focus(c.outer, up)
      && Abs(up) == FrameOf(c).Fill(Abs(s))
      && AllNodes(c.outer, up) == AllNodes(c, s)
  {
    AllAround(c.before, s, c.after);
  }

  /** All the way up: the whole heap tree, without sharing. */
  lemma {:induction false} PlugFocus(c: Context, s: Shape)
    requires Focus(c, s)
    ensures Focus(Top, Plug(c, s)) && Abs(Plug(c, s)) == PlugTree(c, Abs(s))
    ensures Nodes(Plug(c, s)) == AllNodes(c, s) && Plug(c, s).node == Outermost(c, s.node)
    decreases c
  {
    if c.Under? {
      FocusOut(c, s);
      PlugFocus(c.outer, Shape(c.node, c.before + [s] + c.after));
    }
  }

  /** Moving the focus to a child that is there. */
  lemma {:induction false} FocusIn(c: Context, s: Shape, i: nat)
    requires Focus(c, s) && i < |s.kids|
    ensures var c' := Under(s.node, s.kids[..i], s.kids[i + 1..], c);
      && Focus(c', s.kids[i]) && s.kids[i].node == s.node.content[i]
      && Abs(s).children == AbsAll(s.kids[..i]) + [Abs(s.kids[i])] + AbsAll(s.kids[i + 1..])
      && AllNodes(c', s.kids[i]) == AllNodes(c, s)
  {
    assert s.kids == s.kids[..i] + [s.kids[i]] + s.kids[i + 1..];
    AllAround(s.kids[..i], s.kids[i], s.kids[i + 1..]);
  }

  /** Moving the focus to the child that is there under a key. */
  lemma {:induction false} FocusInKey(c: Context, s: Shape, key: string)
    requires Focus(c, s) && Find(Abs(s), key).Some?
    ensures var i := Find(Abs(s), key).value + 1;
      var c' := Under(s.node, s.kids[..i], s.kids[i + 1..], c);
      && Focus(c', s.kids[i]) && s.kids[i].node == s.node.content[i]
      && (FrameOf(c'), Abs(s.kids[i])) == Enter(Abs(s), key)
      && AllNodes(c', s.kids[i]) == AllNodes(c, s)
  {
    var i := Find(Abs(s), key).value + 1;
    FocusIn(c, s, i);
    assert Abs(s).children[..i] == AbsAll(s.kids[..i]);
    assert Abs(s).children[i + 1..] == AbsAll(s.kids[i + 1..]);
  }

  lemma {:induction false} EnterExisting(c: Context, s: Shape, key: string) returns (c': Context, s': Shape)
    requires Focus(c, s) && Find(Abs(s), key).Some?
    ensures Focus(c', s') && s'.node == s.node.content[Find(Abs(s), key).value + 1]
    ensures c'.Under? && c'.node == s.node && c'.outer == c
    ensures (FrameOf(c'), Abs(s')) == Enter(Abs(s), key)
    ensures AllNodes(c', s') == AllNodes(c, s)
  {
    var i := Find(Abs(s), key).value + 1;
    FocusInKey(c, s, key);
    s' := s.kids[i];
    c' := Under(s.node, s.kids[..i], s.kids[i + 1..], c);
  }

  /** Moving the focus to a subtree that was just appended after its key. */
  lemma {:induction false} FocusNew(c: Context, n: YamlNode, kids: seq<Shape>, k: YamlNode, child: Shape)
    requires ContextShaped(c, n) && ShapedAll(kids) && Shaped(child) && k.content == []
    requires n.content == Roots(kids) + [k, child.node]
    requires ContextApart(c) && Apart(Shape(n, kids)) && Apart(child)
    requires ContextNodes(c) !! Nodes(Shape(n, kids)) && Nodes(child) !! AllNodes(c, Shape(n, kids))
    requires k !in AllNodes(c, Shape(n, kids)) && k !in Nodes(child)
    ensures var c' := Under(n, kids + [Shape(k, [])], [], c);
      && Focus(c', child)
      && FrameOf(c') == Frame(n.Header(), AbsAll(kids) + [k.Header()], [])
      && ContextNodes(c') == AllNodes(c, Shape(n, kids)) + {k}
  {
    var ks := Shape(k, []);
    AllAround(kids, ks, []);
    assert kids + [ks] + [] == kids + [ks];
    assert Roots(kids + [ks]) == Roots(kids) + [k];
    assert Shaped(ks) && Apart(ks) && Nodes(ks) == {k} && Abs(ks) == k.Header();
    assert n.content == Roots(kids + [ks]) + [child.node] + Roots([]);
  }

  /** The nodes at hand, as a set that is known to be allocated. */
  lemma {:induction false} Footprint(c: Context, s: Shape, vs: Shape) returns (all: set<YamlNode>)
    ensures all == AllNodes(c, s) + Nodes(vs)
  {
    all := AllNodes(c, s) + Nodes(vs);
  }

  // ------------------------------------------------------------ the two edits

  /** The search both edits make: the first pair whose key node has the value. */
  method FindPair(mapping: YamlNode, key: string, ghost s: Shape) returns (r: Option<nat>)
    requires s.node == mapping && Shaped(s)
    ensures r == Find(Abs(s), key)
  {
    var i := 0;
    while i + 1 < |mapping.content|
      invariant i <= |mapping.content| + 1
      invariant Find(Abs(s), key) == FindFrom(AbsAll(s.kids), key, i)
      decreases |mapping.content| - i
    {
      assert s.kids == s.kids[..i] + [s.kids[i]] + s.kids[i + 1..];
      AllAround(s.kids[..i], s.kids[i], s.kids[i + 1..]);
      if mapping.content[i].value == key {
        return Some(i);
      }
      i := i + 2;
    }
    return None;
  }

  /** A change of the focused node's child list leaves what is around and below it alone. */
  method SetContent(n: YamlNode, content: seq<YamlNode>, ghost c: Context, ghost s: Shape, ghost vs: Shape)
    requires Focus(c, s) && s.node == n
    requires Shaped(vs) && Nodes(vs) !! AllNodes(c, s)
    modifies n`content
    ensures n.content == content
    ensures ContextShaped(c, n) && ShapedAll(s.kids) && Shaped(vs)
    ensures AbsAll(s.kids) == old(AbsAll(s.kids)) && Abs(vs) == old(Abs(vs))
    ensures forall t: Tree :: PlugTree(c, t) == old(PlugTree(c, t))
    ensures c.Under? ==> FrameOf(c) == old(FrameOf(c))
    ensures c.Under? ==> forall t: Tree :: PlugTree(c.outer, t) == old(PlugTree(c.outer, t))
  {
    ghost var all := Footprint(c, s, vs);
    n.content := content;
  }

  /** A new pair at the end of a mapping, key node included. */
  method AppendPair(mapping: YamlNode, key: string, v: YamlNode, ghost c: Context, ghost s: Shape, ghost vs: Shape)
      returns (ghost c': Context, ghost k: YamlNode)
    requires Focus(c, s) && s.node == mapping && Find(Abs(s), key).None?
    requires Shaped(vs) && Apart(vs) && vs.node == v && Nodes(vs) !! AllNodes(c, s)
    modifies mapping`content
    ensures Focus(c', vs) && Abs(vs) == old(Abs(vs))
    ensures c'.Under? && c'.node == mapping && c'.outer == c
    ensures FrameOf(c') == Enter(old(Abs(s)), key).0
    ensures fresh(k) && ContextNodes(c') == AllNodes(c, s) + {k}
    ensures forall t: Tree :: PlugTree(c, t) == old(PlugTree(c, t))
    ensures c.Under? ==> FrameOf(c) == old(FrameOf(c))
    ensures c.Under? ==> forall t: Tree :: PlugTree(c.outer, t) == old(PlugTree(c.outer, t))
  {
    ghost var all := Footprint(c, s, vs);
    var keyNode := NewNode(Scalar, "!!str", key, [], all);
    k := keyNode;
    SetContent(mapping, mapping.content + [keyNode, v], c, s, vs);
    c' := Under(mapping, s.kids + [Shape(k, [])], [], c);
    FocusNew(c, mapping, s.kids, k, vs);
  }

  /** `ensureMapNode`: the node under `key`, created when missing. The tree around it is the
      one `Enter` speaks of. */
  method EnsureMapNode(mapping: YamlNode, key: string, ghost c: Context, ghost s: Shape)
      returns (child: YamlNode, ghost c': Context, ghost s': Shape, ghost added: set<YamlNode>)
    requires Focus(c, s) && s.node == mapping
    modifies mapping`content
    ensures Focus(c', s') && s'.node == child
    ensures c'.Under? && c'.node == mapping && c'.outer == c
    ensures Abs(s') == Enter(old(Abs(s)), key).1
    ensures FrameOf(c') == Enter(old(Abs(s)), key).0
    ensures forall t: Tree :: PlugTree(c, t) == old(PlugTree(c, t))
    ensures fresh(added) && AllNodes(c', s') <= AllNodes(c, s) + added
  {
    ghost var all := Footprint(c, s, s);
    var found := FindPair(mapping, key, s);
    if found.Some? {
      child, added := mapping.content[found.value + 1], {};
      c', s' := EnterExisting(c, s, key);
      return;
    }
    child, c', s', added := NewMapNode(mapping, key, c, s);
  }

  /** The branch that makes the node. */
  method NewMapNode(mapping: YamlNode, key: string, ghost c: Context, ghost s: Shape)
      returns (child: YamlNode, ghost c': Context, ghost s': Shape, ghost added: set<YamlNode>)
    requires Focus(c, s) && s.node == mapping && Find(Abs(s), key).None?
    modifies mapping`content
    ensures Focus(c', s') && s'.node == child
    ensures c'.Under? && c'.node == mapping && c'.outer == c
    ensures Abs(s') == Enter(old(Abs(s)), key).1
    ensures FrameOf(c') == Enter(old(Abs(s)), key).0
    ensures forall t: Tree :: PlugTree(c, t) == old(PlugTree(c, t))
    ensures fresh(added) && AllNodes(c', s') <= AllNodes(c, s) + added
  {
    ghost var all := Footprint(c, s, s);
    child := NewNode(Mapping, "!!map", "", [], all);
    s' := Shape(child, []);
    assert Nodes(s') == {child};
    ghost var k;
    c', k := AppendPair(mapping, key, child, c, s, s');
    added := {k, child};
  }

  /** `setMapKey`: the value replaces the one under `key`, or goes at the end with it. */
  method SetMapKey(mapping: YamlNode, key: string, v: YamlNode, ghost c: Context, ghost s: Shape, ghost vs: Shape)
      returns (ghost s': Shape, ghost added: set<YamlNode>)
    requires Focus(c, s) && s.node == mapping
    requires Shaped(vs) && Apart(vs) && vs.node == v && Nodes(vs) !! AllNodes(c, s)
    modifies mapping`content
    ensures Focus(c, s') && s'.node == mapping
    ensures Abs(s') == Enter(old(Abs(s)), key).0.Fill(old(Abs(vs)))
    ensures forall t: Tree :: PlugTree(c, t) == old(PlugTree(c, t))
    ensures c.Under? ==> FrameOf(c) == old(FrameOf(c))
    ensures c.Under? ==> forall t: Tree :: PlugTree(c.outer, t) == old(PlugTree(c.outer, t))
    ensures fresh(added) && Nodes(s') <= Nodes(s) + Nodes(vs) + added
  {
    ghost var all := Footprint(c, s, vs);
    var found := FindPair(mapping, key, s);
    if found.Some? {
      added := {};
      s' := ReplaceValue(mapping, key, found.value + 1, v, c, s, vs);
    } else {
      ghost var around, k := AppendPair(mapping, key, v, c, s, vs);
      FocusOut(around, vs);
      s' := Shape(mapping, around.before + [vs] + around.after);
      added := {k};
    }
  }

  method ReplaceValue(mapping: YamlNode, key: string, i: nat, v: YamlNode, ghost c: Context, ghost s: Shape,
        ghost vs: Shape)
      returns (ghost s': Shape)
    requires Focus(c, s) && s.node == mapping && Find(Abs(s), key).Some? && i == Find(Abs(s), key).value + 1
    requires Shaped(vs) && Apart(vs) && vs.node == v && Nodes(vs) !! AllNodes(c, s)
    modifies mapping`content
    ensures Focus(c, s') && s'.node == mapping
    ensures Abs(s') == Enter(old(Abs(s)), key).0.Fill(old(Abs(vs)))
    ensures forall t: Tree :: PlugTree(c, t) == old(PlugTree(c, t))
    ensures c.Under? ==> FrameOf(c) == old(FrameOf(c))
    ensures c.Under? ==> forall t: Tree :: PlugTree(c.outer, t) == old(PlugTree(c.outer, t))
    ensures Nodes(s') <= Nodes(s) + Nodes(vs)
  {
    ghost var all := Footprint(c, s, vs);
    FocusInKey(c, s, key);
    SetChild(mapping, i, v, c, s, vs);
    s' := SwapFocus(c, mapping, s.kids[..i], s.kids[i + 1..], vs);
  }

  /** One child pointer overwritten, seen from the trees on its two sides. */
  method SetChild(n: YamlNode, i: nat, v: YamlNode, ghost c: Context, ghost s: Shape, ghost vs: Shape)
    requires Focus(c, s) && s.node == n && i < |s.kids|
    requires Shaped(vs) && vs.node == v && Nodes(vs) !! AllNodes(c, s)
    modifies n`content
    ensures n.content == Roots(s.kids[..i]) + [v] + Roots(s.kids[i + 1..])
    ensures ContextShaped(c, n) && ShapedAll(s.kids[..i]) && ShapedAll(s.kids[i + 1..]) && Shaped(vs)
    ensures AbsAll(s.kids[..i]) == old(AbsAll(s.kids[..i])) && AbsAll(s.kids[i + 1..]) == old(AbsAll(s.kids[i + 1..]))
    ensures Abs(vs) == old(Abs(vs))
    ensures forall t: Tree :: PlugTree(c, t) == old(PlugTree(c, t))
    ensures c.Under? ==> FrameOf(c) == old(FrameOf(c))
    ensures c.Under? ==> forall t: Tree :: PlugTree(c.outer, t) == old(PlugTree(c.outer, t))
  {
    SplitKids(s.kids, i);
    SetContent(n, n.content[i := v], c, s, vs);
    SplitKids(s.kids, i);
  }

  lemma {:induction false} SplitKids(kids: seq<Shape>, i: nat)
    requires i < |kids|
    ensures AbsAll(kids[..i]) == AbsAll(kids)[..i] && AbsAll(kids[i + 1..]) == AbsAll(kids)[i + 1..]
    ensures Roots(kids[..i]) == Roots(kids)[..i] && Roots(kids[i + 1..]) == Roots(kids)[i + 1..]
    ensures ShapedAll(kids) ==> ShapedAll(kids[..i]) && ShapedAll(kids[i + 1..])
  {
    assert kids == kids[..i] + [kids[i]] + kids[i + 1..];
    AllAround(kids[..i], kids[i], kids[i + 1..]);
  }

  /** A node whose children are two lists of trees and one more between them. */
  lemma {:induction false} SwapFocus(c: Context, n: YamlNode, before: seq<Shape>, after: seq<Shape>, vs: Shape)
      returns (s: Shape)
    requires n.content == Roots(before) + [vs.node] + Roots(after)
    requires ContextShaped(c, n) && ShapedAll(before) && ShapedAll(after) && Shaped(vs)
    requires ContextApart(Under(n, before, after, c)) && Apart(vs)
    requires Nodes(vs) !! ContextNodes(Under(n, before, after, c))
    ensures s.node == n && Focus(c, s)
    ensures Abs(s) == n.Header().(children := AbsAll(before) + [Abs(vs)] + AbsAll(after))
    ensures Nodes(s) == {n} + NodesAll(before) + Nodes(vs) + NodesAll(after)
  {
    s := Shape(n, before + [vs] + after);
    AllAround(before, vs, after);
  }

  /** `ensureMapNode` inside `ensureMapNode`, from the outermost key to the innermost. */
  method EnsurePath(mapping: YamlNode, path: seq<string>, ghost c: Context, ghost s: Shape)
      returns (node: YamlNode, ghost c': Context, ghost s': Shape, ghost added: set<YamlNode>)
    requires Focus(c, s) && s.node == mapping
    modifies Nodes(s)
    ensures Focus(c', s') && s'.node == node
    ensures Abs(s') == Walk(old(Abs(s)), path) && Outermost(c', node) == Outermost(c, mapping)
    ensures forall t: Tree :: PlugTree(c', t) == old(PlugTree(c, Put(Abs(s), path, t)))
    ensures fresh(added) && AllNodes(c', s') <= AllNodes(c, s) + added
    decreases |path|
  {
    if path == [] {
      return mapping, c, s, {};
    }
    var child, c1, s1, new1 := EnsureMapNode(mapping, path[0], c, s);
    assert Nodes(s1) <= Nodes(s) + new1;
    ghost var new2;
    node, c', s', new2 := EnsurePath(child, path[1..], c1, s1);
    added := new1 + new2;
  }

  // ------------------------------------------------------------ blocks and documents

  /** The children of a block: a key and a value node for every entry. */
  method BlockPairs(entries: seq<(string, string)>) returns (nodes: seq<YamlNode>, ghost kids: seq<Shape>,
        ghost all: set<YamlNode>)
    ensures nodes == Roots(kids) && ShapedAll(kids) && ApartAll(kids)
    ensures AbsAll(kids) == PairNodes(entries)
    ensures all == NodesAll(kids) && fresh(all)
  {
    if entries == [] {
      return [], [], {};
    }
    ghost var rest, restAll;
    nodes, rest, restAll := BlockPairs(entries[1..]);
    var v := NewNode(Scalar, "!!str", entries[0].1, [], restAll);
    var k := NewNode(Scalar, "!!str", entries[0].0, [], restAll + {v});
    nodes := [k, v] + nodes;
    kids := [Shape(k, []), Shape(v, [])] + rest;
    all := restAll + {k, v};
    PairInFront(k, v, rest, entries);
  }

  /** One childless node in front of a list of trees. */
  lemma {:induction false} LeafInFront(n: YamlNode, rest: seq<Shape>)
    requires n.content == [] && n !in NodesAll(rest) && ShapedAll(rest) && ApartAll(rest)
    ensures var kids := [Shape(n, [])] + rest;
      && ShapedAll(kids) && ApartAll(kids) && NodesAll(kids) == NodesAll(rest) + {n}
      && AbsAll(kids) == [n.Header()] + AbsAll(rest)
  {
    var leaf := Shape(n, []);
    assert ([leaf] + rest)[1..] == rest;
    assert Nodes(leaf) == {n} && Abs(leaf) == n.Header();
  }

  lemma {:induction false} PairInFront(k: YamlNode, v: YamlNode, rest: seq<Shape>, entries: seq<(string, string)>)
    requires entries != [] && k != v && k !in NodesAll(rest) && v !in NodesAll(rest)
    requires k.content == [] && k.Header() == KeyNode(entries[0].0)
    requires v.content == [] && v.Header() == KeyNode(entries[0].1)
    requires ShapedAll(rest) && ApartAll(rest) && AbsAll(rest) == PairNodes(entries[1..])
    ensures var kids := [Shape(k, []), Shape(v, [])] + rest;
      && ShapedAll(kids) && ApartAll(kids) && NodesAll(kids) == NodesAll(rest) + {k, v}
      && AbsAll(kids) == PairNodes(entries)
  {
    var ks, vs := Shape(k, []), Shape(v, []);
    LeafInFront(v, rest);
    LeafInFront(k, [vs] + rest);
    assert [ks] + ([vs] + rest) == [ks, vs] + rest;
  }

  /** `blockNode`. */
  method BlockNode(entries: seq<(string, string)>, ghost others: set<YamlNode>) returns (n: YamlNode, ghost s: Shape)
    ensures Shaped(s) && Apart(s) && s.node == n && Abs(s) == Block(entries)
    ensures fresh(Nodes(s)) && Nodes(s) !! others
  {
    ghost var kids, all;
    var nodes;
    nodes, kids, all := BlockPairs(entries);
    n := NewNode(Mapping, "!!map", "", nodes, all);
    s := Shape(n, kids);
  }

  /** `documentMapping`. */
  method DocumentMapping(doc: YamlNode, ghost s: Shape) returns (root: YamlNode, ghost c: Context, ghost r: Shape,
        ghost added: set<YamlNode>)
    requires Focus(Top, s) && s.node == doc
    modifies doc`content
    ensures Focus(c, r) && r.node == root && Abs(r) == Root(old(Abs(s))) && Outermost(c, root) == doc
    ensures forall t: Tree :: PlugTree(c, t) == old(WithRoot(Abs(s), t))
    ensures fresh(added) && AllNodes(c, r) <= Nodes(s) + added
  {
    ghost var all := Footprint(Top, s, s);
    if !doc.kind.Document? {
      return doc, Top, s, {};
    }
    if |doc.content| == 0 {
      assert s.kids == [];
      root := NewNode(Mapping, "!!map", "", [], all);
      doc.content := [root];
      c, r, added := Under(doc, [], [], Top), Shape(root, []), {root};
      assert Roots([]) + [root] + Roots([]) == [root];
      assert forall t: Tree :: [] + [t] + [] == [t];
      return;
    }
    root := doc.content[0];
    FocusIn(Top, s, 0);
    c, r, added := Under(doc, s.kids[..0], s.kids[1..], Top), s.kids[0], {};
    assert AbsAll(s.kids[..0]) == [];
    assert Abs(s).children[1..] == AbsAll(s.kids[1..]);
    assert forall t: Tree :: Abs(s).children[0 := t] == [] + [t] + Abs(s).children[1..];
  }

  // ------------------------------------------------------------ the two renderers

  /** `setMapKey(mapping, key, blockNode(...))`, and back up to the parent. */
  method SetBlock(mapping: YamlNode, key: string, entries: seq<(string, string)>, ghost c: Context, ghost s: Shape)
      returns (ghost up: Shape, ghost added: set<YamlNode>)
    requires Focus(c, s) && s.node == mapping && c.Under?
    modifies mapping`content
    ensures Focus(c.outer, up) && up.node == c.node
    ensures Abs(up) == old(FrameOf(c)).Fill(Enter(old(Abs(s)), key).0.Fill(Block(entries)))
    ensures forall t: Tree :: PlugTree(c.outer, t) == old(PlugTree(c.outer, t))
    ensures fresh(added) && Nodes(up) <= AllNodes(c, s) + added
  {
    ghost var s2;
    s2, added := SetNewBlock(mapping, key, entries, c, s);
    FocusOut(c, s2);
    up := Shape(c.node, c.before + [s2] + c.after);
  }

  method SetNewBlock(mapping: YamlNode, key: string, entries: seq<(string, string)>, ghost c: Context, ghost s: Shape)
      returns (ghost s': Shape, ghost added: set<YamlNode>)
    requires Focus(c, s) && s.node == mapping && c.Under?
    modifies mapping`content
    ensures Focus(c, s') && s'.node == mapping
    ensures Abs(s') == Enter(old(Abs(s)), key).0.Fill(Block(entries))
    ensures FrameOf(c) == old(FrameOf(c))
    ensures forall t: Tree :: PlugTree(c.outer, t) == old(PlugTree(c.outer, t))
    ensures fresh(added) && Nodes(s') <= Nodes(s) + added
  {
    ghost var all := Footprint(c, s, s);
    var blk, vs := BlockNode(entries, all);
    ghost var more;
    s', more := SetMapKey(mapping, key, blk, c, s, vs);
    added := more + Nodes(vs);
  }

  /** `setMapKey(ensureMapNode(root, "server"), "http_tls_config", blk)`. */
  method ServeTls(root: YamlNode, dir: string, mtls: bool, ghost c: Context, ghost r: Shape)
      returns (ghost r': Shape, ghost added: set<YamlNode>)
    requires Focus(c, r) && r.node == root
    modifies Nodes(r)
    ensures Focus(c, r') && r'.node == root
    ensures Abs(r') == DskitTree(old(Abs(r)), dir, mtls)
    ensures forall t: Tree :: PlugTree(c, t) == old(PlugTree(c, t))
    ensures fresh(added) && Nodes(r') <= Nodes(r) + added
  {
    var server, c1, s1, new1 := EnsureMapNode(root, "server", c, r);
    assert s1.node in Nodes(r) + new1;
    ghost var new2;
    r', new2 := SetBlock(server, "http_tls_config", ServerEntries(dir, mtls), c1, s1);
    added := new1 + new2;
    PutTwoKeys(old(Abs(r)), ServerBlock(dir, mtls));
  }

  lemma {:induction false} PutTwoKeys(t: Tree, v: Tree)
    ensures Put(t, SERVER, v)
         == Enter(t, "server").0.Fill(Enter(Enter(t, "server").1, "http_tls_config").0.Fill(v))
  {
    assert SERVER[1..] == ["http_tls_config"] && ["http_tls_config"][1..] == [];
  }

  /** `setMapKey(ensureMapNode(protocols, proto), "tls", blk)`. */
  method ReceiveTls(protocols: YamlNode, proto: string, dir: string, mtls: bool, ghost c: Context, ghost r: Shape)
      returns (ghost r': Shape, ghost added: set<YamlNode>)
    requires Focus(c, r) && r.node == protocols
    modifies Nodes(r)
    ensures Focus(c, r') && r'.node == protocols
    ensures Abs(r') == Put(old(Abs(r)), [proto, "tls"], ReceiverBlock(dir, mtls))
    ensures forall t: Tree :: PlugTree(c, t) == old(PlugTree(c, t))
    ensures fresh(added) && Nodes(r') <= Nodes(r) + added
  {
    var node, c1, s1, new1 := EnsureMapNode(protocols, proto, c, r);
    assert s1.node in Nodes(r) + new1;
    ghost var new2;
    r', new2 := SetBlock(node, "tls", ReceiverEntries(dir, mtls), c1, s1);
    added := new1 + new2;
    assert [proto, "tls"][1..] == ["tls"] && ["tls"][1..] == [];
  }

  /** `renderDskitHTTPTLSConfig`, between decoding and encoding. */
  method RenderDskit(doc: YamlNode, dir: string, mtls: bool, ghost s: Shape) returns (ghost s': Shape)
    requires Focus(Top, s) && s.node == doc
    modifies Nodes(s)
    ensures Focus(Top, s') && s'.node == doc
    ensures Abs(s') == WithRoot(old(Abs(s)), DskitTree(Root(old(Abs(s))), dir, mtls))
  {
    var root, c, r, new1 := DocumentMapping(doc, s);
    assert Nodes(r) <= Nodes(s) + new1;
    ghost var r', new2 := ServeTls(root, dir, mtls, c, r);
    PlugFocus(c, r');
    s' := Plug(c, r');
  }

  /** `renderTempoTLSConfig`, between decoding and encoding: the heap tree that is left is
      without sharing, and stands for the value the tree lemmas speak of. */
  method RenderTempo(doc: YamlNode, dir: string, mtls: bool, ghost s: Shape) returns (ghost s': Shape)
    requires Focus(Top, s) && s.node == doc
    modifies Nodes(s)
    ensures Focus(Top, s') && s'.node == doc
    ensures Abs(s') == WithRoot(old(Abs(s)), TempoTree(Root(old(Abs(s))), dir, mtls))
  {
    hide Focus;
    var root, c, r, new1 := DocumentMapping(doc, s);
    assert Nodes(r) <= Nodes(s) + new1;
    ghost var served, new2 := ServeTls(root, dir, mtls, c, r);
    assert Nodes(served) <= Nodes(s) + new1 + new2;
    var protocols, c4, p, new3 := EnsurePath(root, PROTOCOLS, c, served);
    assert Nodes(p) <= Nodes(s) + new1 + new2 + new3;
    ghost var p' := ReceiveBoth(protocols, dir, mtls, c4, p);
    PlugFocus(c4, p');
    s' := Plug(c4, p');
  }

  /** The loop over the two protocols. */
  method ReceiveBoth(protocols: YamlNode, dir: string, mtls: bool, ghost c: Context, ghost r: Shape)
      returns (ghost r': Shape)
    requires Focus(c, r) && r.node == protocols
    modifies Nodes(r)
    ensures Focus(c, r') && r'.node == protocols
    ensures Abs(r') == Receivers(old(Abs(r)), dir, mtls)
    ensures forall t: Tree :: PlugTree(c, t) == old(PlugTree(c, t))
  {
    ghost var nodes := Footprint(Top, r, r);
    ghost var tree := Abs(r);
    r' := r;
    var protos := ["grpc", "http"];
    for k := 0 to |protos|
      invariant Focus(c, r') && r'.node == protocols
      invariant Nodes(r') <= nodes && fresh(nodes - Nodes(r))
      invariant Abs(r') == if k == 0 then tree
                           else if k == 1 then Put(tree, GRPC, ReceiverBlock(dir, mtls))
                           else Receivers(tree, dir, mtls)
      invariant forall t: Tree :: PlugTree(c, t) == old(PlugTree(c, t))
    {
      ghost var more;
      r', more := ReceiveTls(protocols, protos[k], dir, mtls, c, r');
      nodes := nodes + more;
    }
  }
}
