// Ordered trees with data at the nodes, and their pre-order listing with depths.

module Trees {
  datatype Tree<T> = Tree(data: T, children: seq<Tree<T>>)

  /** One pre-order entry: the distance below the root, and the node's data. */
  datatype Entry<T> = Entry(depth: nat, data: T)

  function Flat<T>(t: Tree<T>, depth: nat): (r: seq<Entry<T>>)
    ensures r != [] && r[0] == Entry(depth, t.data)
    decreases t, 1
  {
    [Entry(depth, t.data)] + FlatAll(t.children, depth + 1)
  }

  function FlatAll<T>(ts: seq<Tree<T>>, depth: nat): seq<Entry<T>>
    decreases ts, 0
  {
    if ts == [] then [] else Flat(ts[0], depth) + FlatAll(ts[1..], depth)
  }

  /** Reads the trees rooted at `depth` off the front of a listing; the rest is left over. */
  function Build<T>(list: seq<Entry<T>>, depth: nat): (r: (seq<Tree<T>>, seq<Entry<T>>))
    ensures |r.1| <= |list|
    decreases |list|
  {
    if list == [] || list[0].depth != depth then ([], list)
    else
      var (children, after) := Build(list[1..], depth + 1);
      var (siblings, rest) := Build(after, depth);
      ([Tree(list[0].data, children)] + siblings, rest)
  }

  /** A listing determines its trees. */
  lemma {:induction false} BuildFlat<T>(ts: seq<Tree<T>>, depth: nat, rest: seq<Entry<T>>)
    requires rest == [] || rest[0].depth < depth
    ensures Build(FlatAll(ts, depth) + rest, depth) == (ts, rest)
    decreases ts
  {
    var list := FlatAll(ts, depth) + rest;
    if ts == [] {
      assert list == rest;
    } else {
      var t := ts[0];
      var later := FlatAll(ts[1..], depth) + rest;
      assert FlatAll(ts, depth) == Flat(t, depth) + FlatAll(ts[1..], depth);
      assert Flat(t, depth) == [Entry(depth, t.data)] + FlatAll(t.children, depth + 1);
      assert list[1..] == FlatAll(t.children, depth + 1) + later;
      FlatAllHead(ts[1..], depth);
      BuildFlat(t.children, depth + 1, later);
      BuildFlat(ts[1..], depth, rest);
      assert ts == [t] + ts[1..];
    }
  }

  lemma FlatAllHead<T>(ts: seq<Tree<T>>, depth: nat)
    ensures FlatAll(ts, depth) != [] ==> FlatAll(ts, depth)[0].depth == depth
  {
  }

  lemma FlatInjective<T>(a: Tree<T>, b: Tree<T>, depth: nat)
    requires Flat(a, depth) == Flat(b, depth)
    ensures a == b
  {
    FlatOfOne(a, depth);
    FlatOfOne(b, depth);
    BuildFlat([a], depth, []);
    BuildFlat([b], depth, []);
    assert FlatAll([a], depth) + [] == Flat(a, depth) && FlatAll([b], depth) + [] == Flat(b, depth);
    assert [a][0] == [b][0];
  }

  lemma FlatOfOne<T>(t: Tree<T>, depth: nat)
    ensures FlatAll([t], depth) == Flat(t, depth)
  {
    assert [t][1..] == [];
  }

  lemma {:induction false} FlatAllAppend<T>(a: seq<Tree<T>>, b: seq<Tree<T>>, depth: nat)
    ensures FlatAll(a + b, depth) == FlatAll(a, depth) + FlatAll(b, depth)
  {
    if a == [] {
      assert a + b == b;
    } else {
      assert (a + b)[1..] == a[1..] + b;
      FlatAllAppend(a[1..], b, depth);
    }
  }

  /** Number of nodes. */
  function Size<T>(t: Tree<T>): nat { |Flat(t, 0)| }

  lemma {:induction false} FlatSize<T>(ts: seq<Tree<T>>, d: nat, e: nat)
    ensures |FlatAll(ts, d)| == |FlatAll(ts, e)|
    decreases ts
  {
    if ts != [] {
      FlatSize(ts[0].children, d + 1, e + 1);
      FlatSize(ts[1..], d, e);
    }
  }
}
