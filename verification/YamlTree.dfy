/** daggerverse/grafana-stack: what splicing a TLS block into a YAML tree means, on values.
    A tree is what `yaml.Node` carries; decoding and encoding text are assumed inverse. */
module YamlTree {
  import opened Text

  datatype Kind = Document | Sequence | Mapping | Scalar | Alias | Zero

  /** `style` stands for everything the encoder uses to write a node back as it was read. A
      mapping's children alternate keys and values. */
  datatype Tree = Tree(kind: Kind, tag: string, value: string, style: string, children: seq<Tree>)

  const EMPTY_MAP := Tree(Mapping, "!!map", "", "", [])

  function KeyNode(key: string): Tree {
    Tree(Scalar, "!!str", key, "", [])
  }

  /** The first position whose key is `key`, stepping over pairs from `i` on. */
  function FindFrom(children: seq<Tree>, key: string, i: nat): (r: Option<nat>)
    requires i <= |children| + 1
    ensures r.Some? ==> i <= r.value && r.value + 1 < |children| && children[r.value].value == key
    ensures r.Some? ==> (r.value - i) % 2 == 0
    decreases |children| + 1 - i
  {
    if i + 1 >= |children| then None
    else if children[i].value == key then Some(i)
    else FindFrom(children, key, i + 2)
  }

  function Find(t: Tree, key: string): (r: Option<nat>)
    ensures r.Some? ==> r.value + 1 < |t.children|
  {
    FindFrom(t.children, key, 0)
  }

  /** A node with one child taken out. */
  datatype Frame = Frame(node: Tree, before: seq<Tree>, after: seq<Tree>) {
    function Fill(child: Tree): Tree {
      node.(children := before + [child] + after)
    }
  }

  /** The place under `key`: the first pair that has it, or a new pair at the end. */
  function Enter(t: Tree, key: string): (Frame, Tree) {
    match Find(t, key)
    case Some(i) => (Frame(t.(children := []), t.children[..i + 1], t.children[i + 2..]), t.children[i + 1])
    case None => (Frame(t.(children := []), t.children + [KeyNode(key)], []), EMPTY_MAP)
  }

  /** `ensureMapNode` all along the path but for its last key, then `setMapKey`. */
  function Put(t: Tree, path: seq<string>, v: Tree): Tree
    decreases |path|
  {
    if path == [] then v
    else
      var (frame, child) := Enter(t, path[0]);
      frame.Fill(Put(child, path[1..], v))
  }

  /** What a reader of the configuration finds at a path: only mappings have entries. */
  function Lookup(t: Tree, path: seq<string>): Option<Tree>
    decreases |path|
  {
    if path == [] then Some(t)
    else if !t.kind.Mapping? || Find(t, path[0]).None? then None
    else Lookup(t.children[Find(t, path[0]).value + 1], path[1..])
  }

  /** Every node that already exists on the path is a mapping. */
  predicate MappingsAlong(t: Tree, path: seq<string>)
    decreases |path|
  {
    path == [] || (t.kind.Mapping? && MappingsAlong(Enter(t, path[0]).1, path[1..]))
  }

  /** What is put under `key` will be found there again: the children come in pairs, or one
      of the pairs has the key. */
  predicate Settles(t: Tree, key: string) {
    |t.children| % 2 == 0 || Find(t, key).Some?
  }

  /** Every node that already exists on the path has its children in pairs, or has the key. */
  predicate SettledAlong(t: Tree, path: seq<string>)
    decreases |path|
  {
    path == [] || (Settles(t, path[0]) && SettledAlong(Enter(t, path[0]).1, path[1..]))
  }

  function Keys(t: Tree): (keys: seq<string>)
    ensures |keys| == |t.children| / 2
  {
    seq(|t.children| / 2, k requires 0 <= k < |t.children| / 2 => t.children[2 * k].value)
  }

  predicate Distinct(keys: seq<string>) {
    forall i, j :: 0 <= i < j < |keys| ==> keys[i] != keys[j]
  }

  /** Section 3.2.1.1 of YAML 1.2.2: pairs, with keys that differ; scalars hold no nodes. */
  predicate WellFormed(t: Tree)
    decreases t
  {
    && (t.kind.Mapping? ==> |t.children| % 2 == 0 && Distinct(Keys(t)))
    && (t.kind in {Scalar, Alias} ==> t.children == [])
    && forall c :: c in t.children ==> WellFormed(c)
  }

  /** What decoding always gives: the children of a mapping come in pairs. */
  predicate MapsPaired(t: Tree)
    decreases t
  {
    && (t.kind.Mapping? ==> |t.children| % 2 == 0)
    && forall c :: c in t.children ==> MapsPaired(c)
  }

  lemma {:induction false} WellFormedPaired(t: Tree)
    requires WellFormed(t)
    ensures MapsPaired(t)
    decreases t
  {
    forall c | c in t.children ensures MapsPaired(c) {
      WellFormedPaired(c);
    }
  }

  // ------------------------------------------------------------ one key

  lemma {:induction false} FindFromSkips(children: seq<Tree>, key: string, i: nat, j: nat)
    requires i <= j <= |children| + 1 && (j - i) % 2 == 0
    requires forall k :: i <= k < j && (k - i) % 2 == 0 && k + 1 < |children| ==> children[k].value != key
    ensures FindFrom(children, key, i) == FindFrom(children, key, j)
    decreases j - i
  {
    if i < j && i + 1 < |children| {
      FindFromSkips(children, key, i + 2, j);
    }
  }

  /** What `FindFrom` answers, without its recursion. */
  lemma {:induction false} FindFromFirst(children: seq<Tree>, key: string, i: nat)
    requires i <= |children| + 1
    ensures var r := FindFrom(children, key, i);
      forall k :: i <= k && (k - i) % 2 == 0 && k + 1 < |children| && (r.None? || k < r.value) ==>
          children[k].value != key
    decreases |children| + 1 - i
  {
    if i + 1 < |children| && children[i].value != key {
      FindFromFirst(children, key, i + 2);
    }
  }

  /** The filled place is the first one its key finds. */
  lemma {:induction false} FindFilled(t: Tree, key: string, x: Tree)
    requires Settles(t, key)
    ensures Find(Enter(t, key).0.Fill(x), key) == Some(|Enter(t, key).0.before| - 1)
  {
    var frame := Enter(t, key).0;
    var filled := frame.Fill(x);
    FindFromFirst(t.children, key, 0);
    FindFromSkips(filled.children, key, 0, |frame.before| - 1);
  }

  lemma {:induction false} EnterFill(t: Tree, key: string, x: Tree)
    requires Settles(t, key)
    ensures Enter(Enter(t, key).0.Fill(x), key) == (Enter(t, key).0, x)
    ensures Settles(Enter(t, key).0.Fill(x), key)
  {
    FindFilled(t, key, x);
    var frame := Enter(t, key).0;
    var filled := frame.Fill(x);
    assert filled.children[..|frame.before|] == frame.before;
    assert filled.children[|frame.before| + 1..] == frame.after;
  }

  /** The search only reads keys. */
  lemma {:induction false} FindFromSame(a: seq<Tree>, b: seq<Tree>, key: string, i: nat)
    requires i <= |a| + 1 && i % 2 == 0 && |a| == |b|
    requires forall k :: 0 <= k < |a| && k % 2 == 0 ==> b[k].value == a[k].value
    ensures FindFrom(b, key, i) == FindFrom(a, key, i)
    decreases |a| + 1 - i
  {
    if i + 1 < |a| {
      FindFromSame(a, b, key, i + 2);
    }
  }

  lemma {:induction false} FindFromAppended(a: seq<Tree>, key: string, other: string, x: Tree, i: nat)
    requires i <= |a| && i % 2 == 0 && |a| % 2 == 0 && other != key
    ensures FindFrom(a + [KeyNode(key), x], other, i) == FindFrom(a, other, i)
    decreases |a| - i
  {
    if i < |a| {
      FindFromAppended(a, key, other, x, i + 2);
    }
  }

  /** Other keys find the same child in the same place. */
  lemma {:induction false} FindOther(t: Tree, key: string, other: string, x: Tree)
    requires Settles(t, key) && other != key
    ensures var filled := Enter(t, key).0.Fill(x);
      && Find(filled, other) == Find(t, other) && |filled.children| % 2 == |t.children| % 2
      && (Find(t, other).Some? ==> filled.children[Find(t, other).value + 1] == t.children[Find(t, other).value + 1])
  {
    var filled := Enter(t, key).0.Fill(x);
    if Find(t, key).Some? {
      var i := Find(t, key).value;
      assert filled.children == t.children[i + 1 := x];
      FindFromSame(t.children, filled.children, other, 0);
    } else {
      assert filled.children == t.children + [KeyNode(key), x];
      FindFromAppended(t.children, key, other, x, 0);
    }
  }

  // ------------------------------------------------------------ one path

  lemma {:induction false} PutPaired(t: Tree, path: seq<string>, v: Tree)
    requires MapsPaired(t) && MapsPaired(v)
    ensures MapsPaired(Put(t, path, v))
    decreases |path|
  {
    if path != [] {
      var (frame, child) := Enter(t, path[0]);
      assert MapsPaired(child);
      var inner := Put(child, path[1..], v);
      PutPaired(child, path[1..], v);
      forall c | c in frame.Fill(inner).children ensures MapsPaired(c) {
        assert c == inner || c == KeyNode(path[0]) || c in t.children;
      }
    }
  }

  /** What is found below the edited path is found in the new value, if every node that was
      already on the path is a mapping; otherwise nothing is found at all. */
  lemma {:induction false} PutThenLookup(t: Tree, path: seq<string>, v: Tree, below: seq<string>)
    requires MapsPaired(t)
    ensures Lookup(Put(t, path, v), path + below)
         == if MappingsAlong(t, path) then Lookup(v, below) else None
    decreases |path|
  {
    if path == [] {
      assert path + below == below;
    } else if t.kind.Mapping? {
      var (frame, child) := Enter(t, path[0]);
      assert MapsPaired(child);
      assert (path + below)[1..] == path[1..] + below;
      PutThenLookup(child, path[1..], v, below);
      FindFilled(t, path[0], Put(child, path[1..], v));
    }
  }

  predicate Prefix(p: seq<string>, q: seq<string>) {
    |p| <= |q| && q[..|p|] == p
  }

  /** Paths that are neither a prefix nor an extension of the edited one are left alone. */
  lemma {:induction false} PutFrame(t: Tree, path: seq<string>, v: Tree, other: seq<string>)
    requires MapsPaired(t)
    requires !Prefix(path, other) && !Prefix(other, path)
    ensures Lookup(Put(t, path, v), other) == Lookup(t, other)
    decreases |path|
  {
    if t.kind.Mapping? {
      var (frame, child) := Enter(t, path[0]);
      var inner := Put(child, path[1..], v);
      if other[0] == path[0] {
        assert path == [path[0]] + path[1..] && other == [other[0]] + other[1..];
        assert MapsPaired(child);
        PutFrame(child, path[1..], v, other[1..]);
        FindFilled(t, path[0], inner);
        if Find(t, path[0]).None? {
          assert Lookup(EMPTY_MAP, other[1..]) == None;
        }
      } else {
        FindOther(t, path[0], other[0], inner);
      }
    }
  }

  /** A node and its edited form: same kind, tag, value and style, same keys in the same
      order, except for new keys at the end. */
  predicate Grown(t: Tree, t': Tree) {
    t'.(children := []) == t.(children := []) && Keys(t) <= Keys(t')
  }

  lemma {:induction false} RootGrows(t: Tree, key: string, x: Tree)
    ensures Grown(t, Enter(t, key).0.Fill(x))
  {
    var filled := Enter(t, key).0.Fill(x);
    forall k | 0 <= k < |Keys(t)| ensures Keys(filled)[k] == Keys(t)[k] {
      assert filled.children[2 * k].value == t.children[2 * k].value by {
        if Find(t, key).Some? {
          assert 2 * k != Find(t, key).value + 1;
        }
      }
    }
    assert Keys(filled)[..|Keys(t)|] == Keys(t);
  }

  /** Any node outside the new value only ever gains keys at its end. */
  lemma {:induction false} PutGrows(t: Tree, path: seq<string>, v: Tree, place: seq<string>)
    requires MapsPaired(t)
    requires !Prefix(path, place) && Lookup(t, place).Some?
    ensures Lookup(Put(t, path, v), place).Some?
    ensures Grown(Lookup(t, place).value, Lookup(Put(t, path, v), place).value)
    decreases |path|
  {
    var (frame, child) := Enter(t, path[0]);
    var inner := Put(child, path[1..], v);
    if place == [] {
      RootGrows(t, path[0], inner);
    } else if place[0] == path[0] {
      FindFilled(t, path[0], inner);
      assert path == [path[0]] + path[1..] && place == [place[0]] + place[1..];
      assert MapsPaired(child);
      PutGrows(child, path[1..], v, place[1..]);
    } else {
      FindOther(t, path[0], place[0], inner);
    }
  }

  lemma {:induction false} FillWellFormed(t: Tree, key: string, x: Tree)
    requires WellFormed(t) && t.kind.Mapping? && WellFormed(x)
    ensures WellFormed(Enter(t, key).0.Fill(x))
  {
    hide FindFrom;
    var (frame, child) := Enter(t, key);
    var filled := frame.Fill(x);
    FindFromFirst(t.children, key, 0);
    var n := |Keys(t)|;
    if Find(t, key).Some? {
      assert Keys(filled) == Keys(t);
    } else {
      assert filled.children == t.children + [KeyNode(key), x];
      assert Keys(filled) == Keys(t) + [key];
    }
    assert WellFormed(KeyNode(key));
    forall c | c in filled.children ensures WellFormed(c) {
      assert c == x || c == KeyNode(key) || c in t.children;
    }
  }

  lemma {:induction false} PutWellFormed(t: Tree, path: seq<string>, v: Tree)
    requires WellFormed(t) && WellFormed(v) && MappingsAlong(t, path)
    ensures WellFormed(Put(t, path, v))
    decreases |path|
  {
    if path != [] {
      var child := Enter(t, path[0]).1;
      assert WellFormed(child);
      PutWellFormed(child, path[1..], v);
      FillWellFormed(t, path[0], Put(child, path[1..], v));
    }
  }

  // ------------------------------------------------------------ several paths

  /** Whether the nodes on one path are mappings is not changed by putting at another one. */
  lemma {:induction false} PutKeepsMappings(t: Tree, path: seq<string>, v: Tree, other: seq<string>)
    requires MapsPaired(t) && !Prefix(path, other)
    ensures MappingsAlong(Put(t, path, v), other) == MappingsAlong(t, other)
    decreases |path|
  {
    if other != [] && t.kind.Mapping? {
      var (frame, child) := Enter(t, path[0]);
      var inner := Put(child, path[1..], v);
      EnterFill(t, path[0], inner);
      if other[0] == path[0] {
        assert path == [path[0]] + path[1..] && other == [other[0]] + other[1..];
        assert MapsPaired(child);
        PutKeepsMappings(child, path[1..], v, other[1..]);
      } else {
        FindOther(t, path[0], other[0], inner);
      }
    }
  }

  /** Putting at one path settles no other, and unsettles none. */
  lemma {:induction false} PutKeepsSettled(t: Tree, path: seq<string>, v: Tree, other: seq<string>)
    requires SettledAlong(t, path) && !Prefix(path, other)
    ensures SettledAlong(Put(t, path, v), other) == SettledAlong(t, other)
    decreases |path|
  {
    if other != [] {
      var child := Enter(t, path[0]).1;
      var inner := Put(child, path[1..], v);
      EnterFill(t, path[0], inner);
      if other[0] == path[0] {
        assert path == [path[0]] + path[1..] && other == [other[0]] + other[1..];
        PutKeepsSettled(child, path[1..], v, other[1..]);
      } else {
        FindOther(t, path[0], other[0], inner);
      }
    }
  }

  /** The child found by walking a path, whatever the kinds of the nodes. */
  function Walk(t: Tree, path: seq<string>): Tree
    decreases |path|
  {
    if path == [] then t else Walk(Enter(t, path[0]).1, path[1..])
  }

  /** The keys of a path are all there. */
  predicate Present(t: Tree, path: seq<string>)
    decreases |path|
  {
    path == [] || (Find(t, path[0]).Some? && Present(Enter(t, path[0]).1, path[1..]))
  }

  lemma {:induction false} PutPresent(t: Tree, path: seq<string>, v: Tree)
    requires SettledAlong(t, path)
    ensures Present(Put(t, path, v), path) && Walk(Put(t, path, v), path) == v
    decreases |path|
  {
    if path != [] {
      var child := Enter(t, path[0]).1;
      var inner := Put(child, path[1..], v);
      PutPresent(child, path[1..], v);
      EnterFill(t, path[0], inner);
      FindFilled(t, path[0], inner);
    }
  }

  /** Putting at one path leaves every other path as it was. */
  lemma {:induction false} PutKeepsPresent(t: Tree, path: seq<string>, v: Tree, other: seq<string>)
    requires SettledAlong(t, path) && !Prefix(path, other) && !Prefix(other, path)
    ensures Present(Put(t, path, v), other) == Present(t, other)
    ensures Walk(Put(t, path, v), other) == Walk(t, other)
    decreases |path|
  {
    var child := Enter(t, path[0]).1;
    var inner := Put(child, path[1..], v);
    EnterFill(t, path[0], inner);
    FindFilled(t, path[0], inner);
    if other[0] == path[0] {
      assert path == [path[0]] + path[1..] && other == [other[0]] + other[1..];
      PutKeepsPresent(child, path[1..], v, other[1..]);
      assert other[1..] != [] && !Present(EMPTY_MAP, other[1..]);
    } else {
      FindOther(t, path[0], other[0], inner);
    }
  }

  /** Putting a value where it already is changes nothing. */
  lemma {:induction false} PutAgain(t: Tree, path: seq<string>, v: Tree)
    requires Present(t, path) && Walk(t, path) == v
    ensures Put(t, path, v) == t
    decreases |path|
  {
    if path != [] {
      var (frame, child) := Enter(t, path[0]);
      PutAgain(child, path[1..], v);
      var i := Find(t, path[0]).value;
      assert t.children[..i + 1] + [child] + t.children[i + 2..] == t.children;
    }
  }

  /** A put below a path is a put at the path, of the edited node. */
  lemma {:induction false} PutBelow(t: Tree, path: seq<string>, below: seq<string>, v: Tree)
    ensures Put(t, path + below, v) == Put(t, path, Put(Walk(t, path), below, v))
    ensures MappingsAlong(t, path + below) <==> MappingsAlong(t, path) && MappingsAlong(Walk(t, path), below)
    ensures SettledAlong(t, path + below) <==> SettledAlong(t, path) && SettledAlong(Walk(t, path), below)
    decreases |path|
  {
    if path == [] {
      assert path + below == below;
    } else {
      assert (path + below)[1..] == path[1..] + below;
      PutBelow(Enter(t, path[0]).1, path[1..], below, v);
    }
  }

  /** The later of two puts at one path wins. */
  lemma {:induction false} PutPut(t: Tree, path: seq<string>, v: Tree, w: Tree)
    requires SettledAlong(t, path)
    ensures Put(Put(t, path, v), path, w) == Put(t, path, w)
    decreases |path|
  {
    if path != [] {
      var child := Enter(t, path[0]).1;
      PutPut(child, path[1..], v, w);
      EnterFill(t, path[0], Put(child, path[1..], v));
    }
  }

  // ------------------------------------------------------------ putting twice

  lemma {:induction false} PutNotEmpty(t: Tree, path: seq<string>, v: Tree)
    requires path != []
    ensures |Put(t, path, v).children| >= |t.children| && Put(t, path, v).children != []
  {
  }

  /** A put that changes nothing put what was there. */
  lemma {:induction false} PutFixed(t: Tree, path: seq<string>, v: Tree)
    requires Put(t, path, v) == t
    ensures Present(t, path) && Walk(t, path) == v
    decreases |path|
  {
    if path != [] {
      var (frame, child) := Enter(t, path[0]);
      var inner := Put(child, path[1..], v);
      assert |frame.Fill(inner).children| == |t.children|;
      assert frame.Fill(inner).children[|frame.before|] == inner;
      PutFixed(child, path[1..], v);
    }
  }

  /** What is found after a put, other than a bare key, is found because the path settles. */
  lemma {:induction false} FoundAfterPut(t: Tree, path: seq<string>, v: Tree)
    requires Present(Put(t, path, v), path) && Walk(Put(t, path, v), path).children != []
    ensures SettledAlong(t, path) && Walk(Put(t, path, v), path) == v
    decreases |path|
  {
    if path != [] {
      var key := path[0];
      var (frame, child) := Enter(t, key);
      var inner := Put(child, path[1..], v);
      if Settles(t, key) {
        EnterFill(t, key, inner);
        FoundAfterPut(child, path[1..], v);
      } else {
        Misplaced(t, key, inner);
      }
    }
  }

  /** Behind an odd child out, a new pair is read shifted by one. */
  lemma {:induction false} Misplaced(t: Tree, key: string, x: Tree)
    requires !Settles(t, key)
    ensures var filled := Enter(t, key).0.Fill(x);
      Find(filled, key).Some? ==> Enter(filled, key).1 == KeyNode(key)
  {
    var filled, n := Enter(t, key).0.Fill(x), |t.children|;
    assert filled.children == t.children + [KeyNode(key), x];
    FindFromFirst(t.children, key, 0);
    FindFromSkips(filled.children, key, 0, n - 1);
  }

  /** Exactly on the paths that settle, putting a block twice is putting it once. */
  lemma {:induction false} PutIdempotent(t: Tree, path: seq<string>, v: Tree)
    requires v.children != []
    ensures Put(Put(t, path, v), path, v) == Put(t, path, v) <==> SettledAlong(t, path)
  {
    if SettledAlong(t, path) {
      PutPut(t, path, v, v);
    } else if Put(Put(t, path, v), path, v) == Put(t, path, v) {
      PutFixed(Put(t, path, v), path, v);
      FoundAfterPut(t, path, v);
    }
  }

  lemma {:induction false} FillBack(t: Tree, key: string)
    requires Find(t, key).Some?
    ensures Enter(t, key).0.Fill(Enter(t, key).1) == t
  {
    var i := Find(t, key).value;
    assert t.children[..i + 1] + [t.children[i + 1]] + t.children[i + 2..] == t.children;
  }

  /** The first pair with a key stays the first as long as the keys up to it do. */
  lemma {:induction false} FindKept(a: seq<Tree>, b: seq<Tree>, key: string, i: nat)
    requires FindFrom(a, key, 0) == Some(i) && |a| <= |b|
    requires forall k :: 0 <= k <= i && k % 2 == 0 ==> b[k].value == a[k].value
    ensures FindFrom(b, key, 0) == Some(i)
  {
    FindFromFirst(a, key, 0);
    FindFromSkips(b, key, 0, i);
  }

  /** What is under one key is not touched by filling another. */
  lemma {:induction false} FillApart(t: Tree, key: string, other: string, x: Tree)
    requires Find(t, key).Some? && other != key
    ensures Enter(Enter(t, other).0.Fill(x), key).1 == Enter(t, key).1
  {
    hide FindFrom;
    var i, filled := Find(t, key).value, Enter(t, other).0.Fill(x);
    if Find(t, other).Some? {
      var j := Find(t, other).value;
      assert i != j && i % 2 == j % 2 == 0;
      assert filled.children == t.children[j + 1 := x];
    } else {
      assert filled.children == t.children + [KeyNode(other), x];
    }
    assert filled.children[i + 1] == t.children[i + 1];
    FindKept(t.children, filled.children, key, i);
  }

  /** Two puts that change nothing together change nothing one by one. */
  lemma {:induction false} TwoPutsFixed(t: Tree, p: seq<string>, v: Tree, q: seq<string>, w: Tree)
    requires !Prefix(p, q) && !Prefix(q, p) && Put(Put(t, p, v), q, w) == t
    ensures Put(t, p, v) == t && Put(t, q, w) == t
    decreases |p|
  {
    var one, child := Put(t, p, v), Enter(t, p[0]).1;
    var inner := Put(child, p[1..], v);
    PutNotEmpty(t, p, v);
    PutNotEmpty(one, q, w);
    EnterFill(t, p[0], inner);
    FindFilled(t, p[0], inner);
    FillBack(t, p[0]);
    if p[0] == q[0] {
      assert p == [p[0]] + p[1..] && q == [q[0]] + q[1..];
      EnterFill(one, q[0], Put(inner, q[1..], w));
      TwoPutsFixed(child, p[1..], v, q[1..], w);
    } else {
      FillApart(one, p[0], q[0], Put(Enter(one, q[0]).1, q[1..], w));
    }
  }

  // ------------------------------------------------------------ the TLS splices

  function PairNodes(entries: seq<(string, string)>): seq<Tree> {
    if entries == [] then []
    else [KeyNode(entries[0].0), KeyNode(entries[0].1)] + PairNodes(entries[1..])
  }

  /** `blockNode` of a string map, whose encoder writes the keys in order. */
  function Block(entries: seq<(string, string)>): Tree {
    Tree(Mapping, "!!map", "", "", PairNodes(entries))
  }

  function ServerEntries(dir: string, mtls: bool): seq<(string, string)> {
    if mtls then
      [("cert_file", dir + "/tls.crt"), ("client_auth_type", "RequireAndVerifyClientCert"),
       ("client_ca_file", dir + "/ca.crt"), ("key_file", dir + "/tls.key")]
    else
      [("cert_file", dir + "/tls.crt"), ("key_file", dir + "/tls.key")]
  }

  function ReceiverEntries(dir: string, mtls: bool): seq<(string, string)> {
    if mtls then
      [("cert_file", dir + "/tls.crt"), ("client_ca_file", dir + "/ca.crt"), ("key_file", dir + "/tls.key")]
    else
      [("cert_file", dir + "/tls.crt"), ("key_file", dir + "/tls.key")]
  }

  function ServerBlock(dir: string, mtls: bool): Tree {
    Block(ServerEntries(dir, mtls))
  }

  function ReceiverBlock(dir: string, mtls: bool): Tree {
    Block(ReceiverEntries(dir, mtls))
  }

  lemma {:induction false} PairNodesAt(entries: seq<(string, string)>)
    ensures |PairNodes(entries)| == 2 * |entries|
    ensures forall i :: 0 <= i < |entries| ==>
      PairNodes(entries)[2 * i] == KeyNode(entries[i].0) && PairNodes(entries)[2 * i + 1] == KeyNode(entries[i].1)
  {
    if entries != [] {
      PairNodesAt(entries[1..]);
      forall i | 0 <= i < |entries|
        ensures PairNodes(entries)[2 * i] == KeyNode(entries[i].0)
            && PairNodes(entries)[2 * i + 1] == KeyNode(entries[i].1)
      {
        if i > 0 {
          assert PairNodes(entries)[2 * i] == PairNodes(entries[1..])[2 * (i - 1)];
        }
      }
    }
  }

  lemma {:induction false} PairNodesWellFormed(entries: seq<(string, string)>)
    ensures forall c :: c in PairNodes(entries) ==> WellFormed(c)
  {
    if entries != [] {
      PairNodesWellFormed(entries[1..]);
      assert WellFormed(KeyNode(entries[0].0)) && WellFormed(KeyNode(entries[0].1));
    }
  }

  lemma {:induction false} BlockWellFormed(entries: seq<(string, string)>)
    requires forall i, j :: 0 <= i < j < |entries| ==> entries[i].0 != entries[j].0
    ensures WellFormed(Block(entries))
  {
    hide PairNodes;
    PairNodesAt(entries);
    PairNodesWellFormed(entries);
    var keys := Keys(Block(entries));
    forall i, j | 0 <= i < j < |keys| ensures keys[i] != keys[j] {
      assert keys[i] == entries[i].0 && keys[j] == entries[j].0;
    }
  }

  lemma {:induction false} BlocksWellFormed(dir: string, mtls: bool)
    ensures WellFormed(ServerBlock(dir, mtls)) && WellFormed(ReceiverBlock(dir, mtls))
    ensures MapsPaired(ServerBlock(dir, mtls)) && MapsPaired(ReceiverBlock(dir, mtls))
  {
    assert |"cert_file"| == 9 && |"key_file"| == 8 && |"client_auth_type"| == 16 && |"client_ca_file"| == 14;
    BlockWellFormed(ServerEntries(dir, mtls));
    BlockWellFormed(ReceiverEntries(dir, mtls));
    WellFormedPaired(ServerBlock(dir, mtls));
    WellFormedPaired(ReceiverBlock(dir, mtls));
  }

  const SERVER := ["server", "http_tls_config"]
  const PROTOCOLS := ["distributor", "receivers", "otlp", "protocols"]
  const GRPC := ["grpc", "tls"]
  const HTTP := ["http", "tls"]

  /** `renderDskitHTTPTLSConfig`, on the top-level mapping. */
  function DskitTree(t: Tree, dir: string, mtls: bool): Tree {
    Put(t, SERVER, ServerBlock(dir, mtls))
  }

  /** The loop over the two protocols. */
  function Receivers(protocols: Tree, dir: string, mtls: bool): Tree {
    Put(Put(protocols, GRPC, ReceiverBlock(dir, mtls)), HTTP, ReceiverBlock(dir, mtls))
  }

  /** `renderTempoTLSConfig`, on the top-level mapping. */
  function TempoTree(t: Tree, dir: string, mtls: bool): Tree {
    var served := DskitTree(t, dir, mtls);
    Put(served, PROTOCOLS, Receivers(Walk(served, PROTOCOLS), dir, mtls))
  }

  predicate TempoMappings(t: Tree) {
    && MappingsAlong(t, ["server", "http_tls_config"])
    && MappingsAlong(t, ["distributor", "receivers", "otlp", "protocols", "grpc", "tls"])
    && MappingsAlong(t, ["distributor", "receivers", "otlp", "protocols", "http", "tls"])
  }

  lemma {:induction false} PathsSpelled()
    ensures SERVER == ["server", "http_tls_config"]
    ensures PROTOCOLS + GRPC == ["distributor", "receivers", "otlp", "protocols", "grpc", "tls"]
    ensures PROTOCOLS + HTTP == ["distributor", "receivers", "otlp", "protocols", "http", "tls"]
  {
  }

  predicate TempoSettled(t: Tree) {
    SettledAlong(t, SERVER) && SettledAlong(t, PROTOCOLS + GRPC) && SettledAlong(t, PROTOCOLS + HTTP)
  }

  lemma {:induction false} PathsApart()
    ensures !Prefix(SERVER, PROTOCOLS) && !Prefix(PROTOCOLS, SERVER)
    ensures !Prefix(GRPC, HTTP) && !Prefix(HTTP, GRPC)
    ensures forall q :: !Prefix(SERVER, PROTOCOLS + q) && !Prefix(PROTOCOLS + q, SERVER)
  {
    assert |"server"| != |"distributor"|;
    assert SERVER[0] != PROTOCOLS[0];
    assert "grpc"[0] != "http"[0];
    assert GRPC[0] != HTTP[0];
    forall q ensures !Prefix(SERVER, PROTOCOLS + q) && !Prefix(PROTOCOLS + q, SERVER) {
      assert (PROTOCOLS + q)[0] == PROTOCOLS[0];
    }
  }

  lemma {:induction false} WalkPaired(t: Tree, path: seq<string>)
    requires MapsPaired(t)
    ensures MapsPaired(Walk(t, path))
    decreases |path|
  {
    if path != [] {
      assert MapsPaired(Enter(t, path[0]).1);
      WalkPaired(Enter(t, path[0]).1, path[1..]);
    }
  }

  /** Reading the spliced tree back finds the three blocks in place, exactly when every node
      that was already on the way to one of them is a mapping. */
  lemma {:induction false} TempoSecures(t: Tree, dir: string, mtls: bool)
    requires MapsPaired(t)
    ensures
      && Lookup(TempoTree(t, dir, mtls), ["server", "http_tls_config"]) == Some(ServerBlock(dir, mtls))
      && Lookup(TempoTree(t, dir, mtls), ["distributor", "receivers", "otlp", "protocols", "grpc", "tls"])
           == Some(ReceiverBlock(dir, mtls))
      && Lookup(TempoTree(t, dir, mtls), ["distributor", "receivers", "otlp", "protocols", "http", "tls"])
           == Some(ReceiverBlock(dir, mtls))
      <==> TempoMappings(t)
  {
    PathsSpelled();
    var sb, rb := ServerBlock(dir, mtls), ReceiverBlock(dir, mtls);
    PathsApart();
    BlocksWellFormed(dir, mtls);
    var served := Put(t, SERVER, sb);
    PutPaired(t, SERVER, sb);
    var p := Walk(served, PROTOCOLS);
    WalkPaired(served, PROTOCOLS);
    var p1 := Put(p, GRPC, rb);
    PutPaired(p, GRPC, rb);
    var both := Put(p1, HTTP, rb);
    // the server block
    assert SERVER + [] == SERVER;
    PutThenLookup(t, SERVER, sb, []);
    PutFrame(served, PROTOCOLS, both, SERVER);
    // the receivers
    PutThenLookup(served, PROTOCOLS, both, GRPC);
    PutThenLookup(served, PROTOCOLS, both, HTTP);
    PutFrame(p1, HTTP, rb, GRPC);
    assert GRPC + [] == GRPC && HTTP + [] == HTTP;
    PutThenLookup(p, GRPC, rb, []);
    PutThenLookup(p1, HTTP, rb, []);
    PutKeepsMappings(p, GRPC, rb, HTTP);
    PutBelow(served, PROTOCOLS, GRPC, rb);
    PutBelow(served, PROTOCOLS, HTTP, rb);
    PutKeepsMappings(t, SERVER, sb, PROTOCOLS + GRPC);
    PutKeepsMappings(t, SERVER, sb, PROTOCOLS + HTTP);
  }

  predicate Unrelated(p: seq<string>, q: seq<string>) {
    !Prefix(p, q) && !Prefix(q, p)
  }

  /** Where the paths settle, the splice is three puts, one after the other. */
  lemma {:induction false} TempoIsThreePuts(t: Tree, dir: string, mtls: bool)
    requires SettledAlong(t, SERVER) && SettledAlong(t, PROTOCOLS)
    ensures TempoTree(t, dir, mtls)
         == Put(Put(Put(t, SERVER, ServerBlock(dir, mtls)), PROTOCOLS + GRPC, ReceiverBlock(dir, mtls)),
                PROTOCOLS + HTTP, ReceiverBlock(dir, mtls))
  {
    var rb := ReceiverBlock(dir, mtls);
    PathsApart();
    var served := DskitTree(t, dir, mtls);
    PutKeepsSettled(t, SERVER, ServerBlock(dir, mtls), PROTOCOLS);
    var p := Walk(served, PROTOCOLS);
    PutBelow(served, PROTOCOLS, GRPC, rb);
    var one := Put(served, PROTOCOLS, Put(p, GRPC, rb));
    PutPresent(served, PROTOCOLS, Put(p, GRPC, rb));
    PutBelow(one, PROTOCOLS, HTTP, rb);
    PutPut(served, PROTOCOLS, Put(p, GRPC, rb), Put(Put(p, GRPC, rb), HTTP, rb));
  }

  lemma {:induction false} PairedAlong(t: Tree, path: seq<string>)
    requires MapsPaired(t) && MappingsAlong(t, path)
    ensures SettledAlong(t, path)
    decreases |path|
  {
    if path != [] {
      assert MapsPaired(Enter(t, path[0]).1);
      PairedAlong(Enter(t, path[0]).1, path[1..]);
    }
  }

  /** What was found is still found, grown at most. */
  predicate Kept(before: Option<Tree>, after: Option<Tree>) {
    before.Some? ==> after.Some? && Grown(before.value, after.value)
  }

  lemma {:induction false} KeptTransitive(a: Option<Tree>, b: Option<Tree>, c: Option<Tree>)
    requires Kept(a, b) && Kept(b, c)
    ensures Kept(a, c)
  {
    if a.Some? {
      assert Keys(a.value) <= Keys(b.value) <= Keys(c.value);
    }
  }

  /** Looking below a walked path is looking from the node walked to. */
  lemma {:induction false} LookupBelow(t: Tree, path: seq<string>, rest: seq<string>)
    ensures rest != [] ==>
      Lookup(t, path + rest) == if MappingsAlong(t, path) then Lookup(Walk(t, path), rest) else None
    ensures Lookup(t, path + rest).Some? ==>
      MappingsAlong(t, path) && Lookup(Walk(t, path), rest) == Lookup(t, path + rest)
    decreases |path|
  {
    if path == [] {
      assert path + rest == rest;
    } else {
      assert (path + rest)[1..] == path[1..] + rest;
      LookupBelow(Enter(t, path[0]).1, path[1..], rest);
      if rest != [] && Find(t, path[0]).None? {
        NothingInside(path[1..] + rest);
      }
    }
  }

  lemma {:induction false} NothingInside(path: seq<string>)
    requires path != []
    ensures Lookup(EMPTY_MAP, path) == None
  {
  }

  /** Below the protocols, the loop leaves what is unrelated and grows what is above. */
  lemma {:induction false} ReceiversFrame(p: Tree, dir: string, mtls: bool, rest: seq<string>)
    requires MapsPaired(p) && !Prefix(GRPC, rest) && !Prefix(HTTP, rest)
    ensures MapsPaired(Receivers(p, dir, mtls))
    ensures Unrelated(rest, GRPC) && Unrelated(rest, HTTP) ==> Lookup(Receivers(p, dir, mtls), rest) == Lookup(p, rest)
    ensures Kept(Lookup(p, rest), Lookup(Receivers(p, dir, mtls), rest))
  {
    var rb := ReceiverBlock(dir, mtls);
    var p1 := Put(p, GRPC, rb);
    BlocksWellFormed(dir, mtls);
    PutPaired(p, GRPC, rb);
    PutPaired(p1, HTTP, rb);
    if Unrelated(rest, GRPC) && Unrelated(rest, HTTP) {
      PutFrame(p, GRPC, rb, rest);
      PutFrame(p1, HTTP, rb, rest);
    }
    if Lookup(p, rest).Some? {
      PutGrows(p, GRPC, rb, rest);
      PutGrows(p1, HTTP, rb, rest);
    }
  }

  lemma {:induction false} PrefixBelow(path: seq<string>, p: seq<string>, q: seq<string>)
    ensures Prefix(path + p, path + q) <==> Prefix(p, q)
  {
    if Prefix(p, q) {
      assert (path + q)[..|path + p|] == path + p;
    } else if |p| <= |q| {
      assert (path + q)[..|path + p|][|path|..] == q[..|p|] && (path + p)[|path|..] == p;
    }
  }

  lemma {:induction false} UnderProtocols(place: seq<string>) returns (rest: seq<string>)
    requires Prefix(PROTOCOLS, place)
    ensures place == PROTOCOLS + rest
    ensures Prefix(PROTOCOLS + GRPC, place) <==> Prefix(GRPC, rest)
    ensures Prefix(PROTOCOLS + HTTP, place) <==> Prefix(HTTP, rest)
    ensures Unrelated(place, PROTOCOLS + GRPC) <==> Unrelated(rest, GRPC)
    ensures Unrelated(place, PROTOCOLS + HTTP) <==> Unrelated(rest, HTTP)
  {
    rest := place[|PROTOCOLS|..];
    assert place == PROTOCOLS + rest;
    PrefixBelow(PROTOCOLS, GRPC, rest);
    PrefixBelow(PROTOCOLS, HTTP, rest);
    PrefixBelow(PROTOCOLS, rest, GRPC);
    PrefixBelow(PROTOCOLS, rest, HTTP);
  }

  /** The first half of the splice. */
  lemma {:induction false} ServedFrame(t: Tree, dir: string, mtls: bool, place: seq<string>)
    requires MapsPaired(t) && !Prefix(SERVER, place)
    ensures var served := DskitTree(t, dir, mtls);
      && MapsPaired(served)
      && (Unrelated(place, SERVER) ==> Lookup(served, place) == Lookup(t, place))
      && Kept(Lookup(t, place), Lookup(served, place))
  {
    var sb := ServerBlock(dir, mtls);
    BlocksWellFormed(dir, mtls);
    PutPaired(t, SERVER, sb);
    if Unrelated(place, SERVER) {
      PutFrame(t, SERVER, sb, place);
    }
    if Lookup(t, place).Some? {
      PutGrows(t, SERVER, sb, place);
    }
  }

  /** The second half of the splice, at a place under the protocols. */
  lemma {:induction false} ProtocolsFrame(served: Tree, dir: string, mtls: bool, rest: seq<string>)
    requires MapsPaired(served) && !Prefix(GRPC, rest) && !Prefix(HTTP, rest)
    ensures var t := Put(served, PROTOCOLS, Receivers(Walk(served, PROTOCOLS), dir, mtls));
      && (Unrelated(rest, GRPC) && Unrelated(rest, HTTP) ==>
          Lookup(t, PROTOCOLS + rest) == Lookup(served, PROTOCOLS + rest))
      && Kept(Lookup(served, PROTOCOLS + rest), Lookup(t, PROTOCOLS + rest))
  {
    var p := Walk(served, PROTOCOLS);
    WalkPaired(served, PROTOCOLS);
    ReceiversFrame(p, dir, mtls, rest);
    PutThenLookup(served, PROTOCOLS, Receivers(p, dir, mtls), rest);
    LookupBelow(served, PROTOCOLS, rest);
    assert rest == [] ==> Prefix(rest, GRPC);
  }

  /** The same at any other place. */
  lemma {:induction false} ElsewhereFrame(served: Tree, dir: string, mtls: bool, place: seq<string>)
    requires MapsPaired(served) && !Prefix(PROTOCOLS, place)
    ensures var t := Put(served, PROTOCOLS, Receivers(Walk(served, PROTOCOLS), dir, mtls));
      && (!Prefix(place, PROTOCOLS) ==> Lookup(t, place) == Lookup(served, place))
      && Kept(Lookup(served, place), Lookup(t, place))
  {
    var both := Receivers(Walk(served, PROTOCOLS), dir, mtls);
    if !Prefix(place, PROTOCOLS) {
      PutFrame(served, PROTOCOLS, both, place);
    }
    if Lookup(served, place).Some? {
      PutGrows(served, PROTOCOLS, both, place);
    }
  }

  /** Every other place keeps its node, with all that is below it; the nodes above the blocks
      keep their own text and their keys, in order. It holds of the trees the splice fails to
      secure as well. */
  lemma {:induction false} TempoFrame(t: Tree, dir: string, mtls: bool, place: seq<string>)
    requires MapsPaired(t)
    requires !Prefix(SERVER, place) && !Prefix(PROTOCOLS + GRPC, place) && !Prefix(PROTOCOLS + HTTP, place)
    ensures Unrelated(place, SERVER) && Unrelated(place, PROTOCOLS + GRPC) && Unrelated(place, PROTOCOLS + HTTP) ==>
      Lookup(TempoTree(t, dir, mtls), place) == Lookup(t, place)
    ensures Kept(Lookup(t, place), Lookup(TempoTree(t, dir, mtls), place))
  {
    hide Put, Lookup, Grown;
    var served := DskitTree(t, dir, mtls);
    ServedFrame(t, dir, mtls, place);
    if Prefix(PROTOCOLS, place) {
      var rest := UnderProtocols(place);
      ProtocolsFrame(served, dir, mtls, rest);
    } else {
      ElsewhereFrame(served, dir, mtls, place);
      assert Prefix(place, PROTOCOLS) ==> (PROTOCOLS + GRPC)[..|place|] == PROTOCOLS[..|place|];
    }
    KeptTransitive(Lookup(t, place), Lookup(served, place), Lookup(TempoTree(t, dir, mtls), place));
  }

  lemma {:induction false} TempoWellFormed(t: Tree, dir: string, mtls: bool)
    requires WellFormed(t) && TempoMappings(t)
    ensures WellFormed(TempoTree(t, dir, mtls))
  {
    PathsSpelled();
    var sb, rb := ServerBlock(dir, mtls), ReceiverBlock(dir, mtls);
    WellFormedPaired(t);
    BlocksWellFormed(dir, mtls);
    PathsApart();
    ApartProtocols();
    PutBelow(t, PROTOCOLS, GRPC, rb);
    PairedAlong(t, SERVER);
    PairedAlong(t, PROTOCOLS);
    TempoIsThreePuts(t, dir, mtls);
    var t1 := Put(t, SERVER, sb);
    var t2 := Put(t1, PROTOCOLS + GRPC, rb);
    PutWellFormed(t, SERVER, sb);
    PutPaired(t, SERVER, sb);
    PutKeepsMappings(t, SERVER, sb, PROTOCOLS + GRPC);
    PutKeepsMappings(t, SERVER, sb, PROTOCOLS + HTTP);
    PutWellFormed(t1, PROTOCOLS + GRPC, rb);
    PutKeepsMappings(t1, PROTOCOLS + GRPC, rb, PROTOCOLS + HTTP);
    PutWellFormed(t2, PROTOCOLS + HTTP, rb);
  }

  lemma {:induction false} ApartProtocols()
    ensures Unrelated(PROTOCOLS + GRPC, PROTOCOLS + HTTP)
  {
    assert "grpc"[0] != "http"[0];
    assert (PROTOCOLS + GRPC)[4] == "grpc" && (PROTOCOLS + HTTP)[4] == "http";
  }

  lemma {:induction false} BlocksNotEmpty(dir: string, mtls: bool)
    ensures ServerBlock(dir, mtls).children != [] && ReceiverBlock(dir, mtls).children != []
  {
  }

  /** What a second splice finds, when the first one settled. */
  lemma {:induction false} TempoStays(t: Tree, dir: string, mtls: bool)
    requires TempoSettled(t)
    ensures TempoTree(TempoTree(t, dir, mtls), dir, mtls) == TempoTree(t, dir, mtls)
  {
    var sb, rb := ServerBlock(dir, mtls), ReceiverBlock(dir, mtls);
    var served, t3 := DskitTree(t, dir, mtls), TempoTree(t, dir, mtls);
    PathsApart();
    PutBelow(t, PROTOCOLS, GRPC, rb);
    PutBelow(t, PROTOCOLS, HTTP, rb);
    PutPresent(t, SERVER, sb);
    PutKeepsPresent(t, SERVER, sb, PROTOCOLS);
    PutKeepsSettled(t, SERVER, sb, PROTOCOLS);
    var n := Walk(t, PROTOCOLS);
    var both := Receivers(n, dir, mtls);
    PutPresent(served, PROTOCOLS, both);
    PutKeepsPresent(served, PROTOCOLS, both, SERVER);
    PutAgain(t3, SERVER, sb);
    ReceiversStay(n, dir, mtls);
    PutAgain(t3, PROTOCOLS, both);
  }

  lemma {:induction false} ReceiversStay(n: Tree, dir: string, mtls: bool)
    requires SettledAlong(n, GRPC) && SettledAlong(n, HTTP)
    ensures Receivers(Receivers(n, dir, mtls), dir, mtls) == Receivers(n, dir, mtls)
  {
    var rb := ReceiverBlock(dir, mtls);
    var one, both := Put(n, GRPC, rb), Receivers(n, dir, mtls);
    PathsApart();
    PutPresent(n, GRPC, rb);
    PutKeepsSettled(n, GRPC, rb, HTTP);
    PutPresent(one, HTTP, rb);
    PutKeepsPresent(one, HTTP, rb, GRPC);
    PutAgain(both, GRPC, rb);
    PutAgain(both, HTTP, rb);
  }

  lemma {:induction false} ReceiversSettled(n: Tree, dir: string, mtls: bool)
    requires Receivers(Receivers(n, dir, mtls), dir, mtls) == Receivers(n, dir, mtls)
    ensures SettledAlong(n, GRPC) && SettledAlong(n, HTTP)
  {
    var rb := ReceiverBlock(dir, mtls);
    var one, both := Put(n, GRPC, rb), Receivers(n, dir, mtls);
    PathsApart();
    BlocksNotEmpty(dir, mtls);
    TwoPutsFixed(both, GRPC, rb, HTTP, rb);
    PutFixed(both, GRPC, rb);
    PutFixed(both, HTTP, rb);
    FoundAfterPut(one, HTTP, rb);
    PutKeepsPresent(one, HTTP, rb, GRPC);
    FoundAfterPut(n, GRPC, rb);
    PutKeepsSettled(n, GRPC, rb, HTTP);
  }

  /** A splice that a second one leaves alone has settled. */
  lemma {:induction false} StaysSettled(t: Tree, dir: string, mtls: bool)
    requires TempoTree(TempoTree(t, dir, mtls), dir, mtls) == TempoTree(t, dir, mtls)
    ensures TempoSettled(t)
  {
    var sb, rb := ServerBlock(dir, mtls), ReceiverBlock(dir, mtls);
    var served, t3 := DskitTree(t, dir, mtls), TempoTree(t, dir, mtls);
    var both := Receivers(Walk(DskitTree(t3, dir, mtls), PROTOCOLS), dir, mtls);
    PathsApart();
    BlocksNotEmpty(dir, mtls);
    TwoPutsFixed(t3, SERVER, sb, PROTOCOLS, both);
    PutFixed(t3, SERVER, sb);
    PutFixed(t3, PROTOCOLS, both);
    PutNotEmpty(Put(Walk(t3, PROTOCOLS), GRPC, rb), HTTP, rb);
    FoundAfterPut(served, PROTOCOLS, Receivers(Walk(served, PROTOCOLS), dir, mtls));
    PutKeepsPresent(served, PROTOCOLS, both, SERVER);
    FoundAfterPut(t, SERVER, sb);
    PutKeepsSettled(t, SERVER, sb, PROTOCOLS);
    PutKeepsPresent(t, SERVER, sb, PROTOCOLS);
    ReceiversSettled(Walk(t, PROTOCOLS), dir, mtls);
    PutBelow(t, PROTOCOLS, GRPC, rb);
    PutBelow(t, PROTOCOLS, HTTP, rb);
  }

  /** Splicing twice is splicing once, exactly when every node that is already on the three
      paths has its children in pairs, or the key in one of them. */
  lemma {:induction false} TempoIdempotent(t: Tree, dir: string, mtls: bool)
    ensures TempoTree(TempoTree(t, dir, mtls), dir, mtls) == TempoTree(t, dir, mtls) <==> TempoSettled(t)
  {
    if TempoSettled(t) {
      TempoStays(t, dir, mtls);
    } else if TempoTree(TempoTree(t, dir, mtls), dir, mtls) == TempoTree(t, dir, mtls) {
      StaysSettled(t, dir, mtls);
    }
  }

  /** A file whose server settings are a list of one element. */
  function ListServer(x: Tree): Tree {
    EMPTY_MAP.(children := [KeyNode("server"), Tree(Sequence, "!!seq", "", "", [x])])
  }

  lemma {:induction false} ListWellFormed(x: Tree)
    requires WellFormed(x)
    ensures WellFormed(ListServer(x))
  {
    var list := Tree(Sequence, "!!seq", "", "", [x]);
    assert WellFormed(list) && WellFormed(KeyNode("server"));
    assert |Keys(ListServer(x))| == 1;
  }

  /** It never settles: each splice adds to the list. */
  lemma {:induction false} ListSplicedTwice(x: Tree, dir: string, mtls: bool)
    ensures DskitTree(DskitTree(ListServer(x), dir, mtls), dir, mtls) != DskitTree(ListServer(x), dir, mtls)
    ensures TempoTree(TempoTree(ListServer(x), dir, mtls), dir, mtls) != TempoTree(ListServer(x), dir, mtls)
  {
    hide TempoTree, ServerBlock, Put;
    var t, list := ListServer(x), Tree(Sequence, "!!seq", "", "", [x]);
    assert Find(t, "server") == Some(0) && Enter(t, "server").1 == list;
    assert SERVER[0] == "server" && SERVER[1..] == ["http_tls_config"];
    assert !Settles(list, "http_tls_config");
    assert !SettledAlong(list, SERVER[1..]);
    BlocksNotEmpty(dir, mtls);
    PutIdempotent(t, SERVER, ServerBlock(dir, mtls));
    TempoIdempotent(t, dir, mtls);
  }

  // ------------------------------------------------------------ the files the blocks name

  datatype Material = ServerCert | ServerKey | ClientCa

  /** `applyServerTLSMaterial`: what is mounted where, once a server certificate is set. */
  function TlsMounts(dir: string, mtls: bool): map<string, Material> {
    var m := map[dir + "/tls.crt" := ServerCert][dir + "/tls.key" := ServerKey];
    if mtls then m[dir + "/ca.crt" := ClientCa] else m
  }

  lemma {:induction false} BlockEntry(entries: seq<(string, string)>, i: nat)
    requires i < |entries|
    requires forall j :: 0 <= j < i ==> entries[j].0 != entries[i].0
    ensures Lookup(Block(entries), [entries[i].0]) == Some(KeyNode(entries[i].1))
    ensures i > 0 ==> FindFrom(PairNodes(entries), entries[i].0, 2).Some?
    ensures FindFrom(PairNodes(entries), entries[i].0, 0) == Some(2 * i)
  {
    var nodes := PairNodes(entries);
    if i > 0 {
      var tail := PairNodes(entries[1..]);
      BlockEntry(entries[1..], i - 1);
      FindFromShift(nodes, tail, entries[i].0, 0);
      assert nodes[2 * i + 1] == tail[2 * (i - 1) + 1];
    }
    assert [entries[i].0][1..] == [];
  }

  lemma {:induction false} FindFromShift(nodes: seq<Tree>, tail: seq<Tree>, key: string, i: nat)
    requires |nodes| == |tail| + 2 && nodes[2..] == tail && i <= |tail| + 1
    ensures FindFrom(nodes, key, i + 2)
         == (match FindFrom(tail, key, i) case None => None case Some(k) => Some(k + 2))
    decreases |tail| + 1 - i
  {
    if i + 1 < |tail| {
      FindFromShift(nodes, tail, key, i + 2);
    }
  }

  /** The node a block entry leads to names a file that is mounted, and holds what the entry
      is for; the client CA is asked for exactly under mutual TLS. */
  predicate NamesMount(t: Tree, path: seq<string>, dir: string, mtls: bool, material: Material) {
    && Lookup(t, path).Some? && Lookup(t, path).value.value in TlsMounts(dir, mtls)
    && TlsMounts(dir, mtls)[Lookup(t, path).value.value] == material
  }

  lemma {:induction false} MountsDiffer(dir: string)
    ensures dir + "/tls.crt" != dir + "/tls.key"
    ensures dir + "/tls.crt" != dir + "/ca.crt"
    ensures dir + "/tls.key" != dir + "/ca.crt"
  {
    assert (dir + "/tls.crt")[|dir| + 5] == 'c' && (dir + "/tls.key")[|dir| + 5] == 'k';
    assert (dir + "/tls.crt")[|dir| + 1] == 't' && (dir + "/tls.key")[|dir| + 1] == 't';
    assert (dir + "/ca.crt")[|dir| + 1] == 'c';
  }

  lemma {:induction false} ServerBlockNamesMounts(dir: string, mtls: bool)
    ensures NamesMount(ServerBlock(dir, mtls), ["cert_file"], dir, mtls, ServerCert)
    ensures NamesMount(ServerBlock(dir, mtls), ["key_file"], dir, mtls, ServerKey)
    ensures mtls ==> NamesMount(ServerBlock(dir, mtls), ["client_ca_file"], dir, mtls, ClientCa)
    ensures Lookup(ServerBlock(dir, mtls), ["client_ca_file"]).Some? <==> mtls
  {
    MountsDiffer(dir);
    KeyLengths();
    var e := ServerEntries(dir, mtls);
    BlockEntry(e, 0);
    BlockEntry(e, |e| - 1);
    if mtls {
      BlockEntry(e, 2);
    } else {
      NoOtherEntry(e, "client_ca_file");
    }
  }

  lemma {:induction false} ReceiverBlockNamesMounts(dir: string, mtls: bool)
    ensures NamesMount(ReceiverBlock(dir, mtls), ["cert_file"], dir, mtls, ServerCert)
    ensures NamesMount(ReceiverBlock(dir, mtls), ["key_file"], dir, mtls, ServerKey)
    ensures mtls ==> NamesMount(ReceiverBlock(dir, mtls), ["client_ca_file"], dir, mtls, ClientCa)
    ensures Lookup(ReceiverBlock(dir, mtls), ["client_ca_file"]).Some? <==> mtls
  {
    MountsDiffer(dir);
    KeyLengths();
    var e := ReceiverEntries(dir, mtls);
    BlockEntry(e, 0);
    BlockEntry(e, |e| - 1);
    if mtls {
      BlockEntry(e, 1);
    } else {
      NoOtherEntry(e, "client_ca_file");
    }
  }

  lemma {:induction false} KeyLengths()
    ensures |"cert_file"| == 9 && |"key_file"| == 8 && |"client_auth_type"| == 16 && |"client_ca_file"| == 14
  {
  }

  lemma {:induction false} NoOtherEntry(entries: seq<(string, string)>, key: string)
    requires forall i :: 0 <= i < |entries| ==> entries[i].0 != key
    ensures FindFrom(PairNodes(entries), key, 0).None?
    ensures Lookup(Block(entries), [key]).None?
  {
    if entries != [] {
      NoOtherEntry(entries[1..], key);
      FindFromShift(PairNodes(entries), PairNodes(entries[1..]), key, 0);
    }
  }

  // ------------------------------------------------------------ documents

  /** `documentMapping`: the node the splice starts from. */
  function Root(doc: Tree): Tree {
    if !doc.kind.Document? then doc
    else if doc.children == [] then EMPTY_MAP
    else doc.children[0]
  }

  function WithRoot(doc: Tree, root: Tree): Tree {
    if !doc.kind.Document? then root
    else if doc.children == [] then doc.(children := [root])
    else doc.(children := doc.children[0 := root])
  }

  /** Decoding nothing leaves the zero node; splicing into it gives a tree in which nothing
      is found, so the empty document is not served by the branch that makes a mapping. */
  lemma {:induction false} ZeroDocumentStaysUnserved(doc: Tree, dir: string, mtls: bool)
    requires doc.kind.Zero?
    ensures Lookup(Root(WithRoot(doc, TempoTree(Root(doc), dir, mtls))), SERVER) == None
  {
    PutKind(doc, SERVER, ServerBlock(dir, mtls));
    var served := DskitTree(doc, dir, mtls);
    PutKind(served, PROTOCOLS, Receivers(Walk(served, PROTOCOLS), dir, mtls));
  }

  lemma {:induction false} PutKind(t: Tree, path: seq<string>, v: Tree)
    requires path != []
    ensures Put(t, path, v).kind == t.kind
  {
  }
}
