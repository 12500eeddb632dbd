/** Mounting files in a container: what is mounted later wins at a path. */
module Mounting {
  datatype Mount<+V> = Mount(path: string, content: V)

  function Table<V>(mounts: seq<Mount<V>>): map<string, V> {
    if mounts == [] then map[]
    else Table(mounts[..|mounts| - 1])[mounts[|mounts| - 1].path := mounts[|mounts| - 1].content]
  }

  lemma {:induction false} TableConcat<V>(a: seq<Mount<V>>, b: seq<Mount<V>>)
    ensures Table(a + b) == Table(a) + Table(b)
  {
    if b == [] {
      assert a + b == a;
    } else {
      assert (a + b)[..|a + b| - 1] == a + b[..|b| - 1];
      TableConcat(a, b[..|b| - 1]);
    }
  }

  /** A short table, written out. */
  lemma {:induction false} UnfoldTable<V>(mounts: seq<Mount<V>>)
    requires |mounts| <= 3
    ensures Table(mounts)
         == if |mounts| == 0 then map[]
            else if |mounts| == 1 then map[mounts[0].path := mounts[0].content]
            else if |mounts| == 2 then map[mounts[0].path := mounts[0].content][mounts[1].path := mounts[1].content]
            else map[mounts[0].path := mounts[0].content][mounts[1].path := mounts[1].content][
                     mounts[2].path := mounts[2].content]
  {
    if |mounts| > 0 {
      UnfoldTable(mounts[..|mounts| - 1]);
    }
  }

  /** No mount overwrites another. */
  ghost predicate DistinctPaths<V>(mounts: seq<Mount<V>>) {
    forall i, j :: 0 <= i < j < |mounts| ==> mounts[i].path != mounts[j].path
  }

  ghost predicate Separate<V>(a: seq<Mount<V>>, b: seq<Mount<V>>) {
    forall x, y :: x in a && y in b ==> x.path != y.path
  }

  lemma {:induction false} DistinctConcat<V>(a: seq<Mount<V>>, b: seq<Mount<V>>)
    ensures DistinctPaths(a + b) <==> DistinctPaths(a) && DistinctPaths(b) && Separate(a, b)
  {
    var c := a + b;
    if DistinctPaths(c) {
      assert forall i :: 0 <= i < |a| ==> c[i] == a[i];
      assert forall i :: 0 <= i < |b| ==> c[|a| + i] == b[i];
    }
  }

  lemma {:induction false} TableGet<V>(mounts: seq<Mount<V>>, i: nat)
    requires DistinctPaths(mounts) && i < |mounts|
    ensures mounts[i].path in Table(mounts) && Table(mounts)[mounts[i].path] == mounts[i].content
  {
    if i < |mounts| - 1 {
      TableGet(mounts[..|mounts| - 1], i);
    }
  }

  /** What nothing later is mounted over stays. */
  lemma {:induction false} LastWins<V>(mounts: seq<Mount<V>>, i: nat)
    requires i < |mounts| && forall j :: i < j < |mounts| ==> mounts[j].path != mounts[i].path
    ensures mounts[i].path in Table(mounts) && Table(mounts)[mounts[i].path] == mounts[i].content
  {
    if i < |mounts| - 1 {
      LastWins(mounts[..|mounts| - 1], i);
    }
  }

  lemma {:induction false} TableKeys<V>(mounts: seq<Mount<V>>, path: string)
    ensures path in Table(mounts) <==> exists i :: 0 <= i < |mounts| && mounts[i].path == path
  {
    if mounts != [] {
      TableKeys(mounts[..|mounts| - 1], path);
    }
  }

  // ------------------------------------------------------------ groups of mounts

  function Flat<V>(groups: seq<seq<Mount<V>>>): seq<Mount<V>> {
    if groups == [] then [] else Flat(groups[..|groups| - 1]) + groups[|groups| - 1]
  }

  lemma {:induction false} FlatSnoc<V>(groups: seq<seq<Mount<V>>>, i: nat)
    requires i < |groups|
    ensures Flat(groups[..i + 1]) == Flat(groups[..i]) + groups[i]
  {
    assert groups[..i + 1][..i] == groups[..i];
  }

  lemma {:induction false} FlatMember<V>(groups: seq<seq<Mount<V>>>, i: nat, m: Mount<V>)
    requires i < |groups| && m in groups[i]
    ensures m in Flat(groups)
  {
    if i < |groups| - 1 {
      FlatMember(groups[..|groups| - 1], i, m);
    }
  }

  lemma {:induction false} FlatOrigin<V>(groups: seq<seq<Mount<V>>>, m: Mount<V>) returns (i: nat)
    requires m in Flat(groups)
    ensures i < |groups| && m in groups[i]
  {
    if m in groups[|groups| - 1] {
      i := |groups| - 1;
    } else {
      i := FlatOrigin(groups[..|groups| - 1], m);
    }
  }

  /** All the mounts are apart exactly when each group's are and no two groups meet. */
  lemma {:induction false} FlatDistinct<V>(groups: seq<seq<Mount<V>>>)
    ensures DistinctPaths(Flat(groups)) <==>
      && (forall i :: 0 <= i < |groups| ==> DistinctPaths(groups[i]))
      && (forall i, j :: 0 <= i < j < |groups| ==> Separate(groups[i], groups[j]))
  {
    if groups != [] {
      var n := |groups| - 1;
      var before, last := groups[..n], groups[n];
      FlatDistinct(before);
      DistinctConcat(Flat(before), last);
      forall x | x in Flat(before) ensures exists i :: 0 <= i < n && x in groups[i] {
        var i := FlatOrigin(before, x);
        assert x in groups[i];
      }
      forall i, x | 0 <= i < n && x in groups[i] ensures x in Flat(before) {
        FlatMember(before, i, x);
      }
    }
  }
}
