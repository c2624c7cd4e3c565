// Bounded snapshots of an accessibility tree: the depth- and node-limited trim.

module Snapshot {
  import opened Core
  import opened Trees

  // ----- trim -----

  /** The entries no deeper than `maxDepth`. */
  function AtMost<T>(list: seq<Entry<T>>, maxDepth: nat): seq<Entry<T>> {
    if list == [] then []
    else (if list[0].depth <= maxDepth then [list[0]] else []) + AtMost(list[1..], maxDepth)
  }

  lemma {:induction false} AtMostAppend<T>(a: seq<Entry<T>>, b: seq<Entry<T>>, maxDepth: nat)
    ensures AtMost(a + b, maxDepth) == AtMost(a, maxDepth) + AtMost(b, maxDepth)
  {
    if a == [] {
      assert a + b == b;
    } else {
      assert (a + b)[0] == a[0] && (a + b)[1..] == a[1..] + b;
      AtMostAppend(a[1..], b, maxDepth);
      var first := if a[0].depth <= maxDepth then [a[0]] else [];
      assert (first + AtMost(a[1..], maxDepth)) + AtMost(b, maxDepth) ==
             first + (AtMost(a[1..], maxDepth) + AtMost(b, maxDepth));
    }
  }

  /** Exactly the entries within the limit survive, each as often as it stood there. */
  lemma {:induction false} AtMostExact<T>(list: seq<Entry<T>>, maxDepth: nat, e: Entry<T>)
    ensures multiset(AtMost(list, maxDepth))[e] == if e.depth <= maxDepth then multiset(list)[e] else 0
  {
    if list != [] {
      AtMostExact(list[1..], maxDepth, e);
      assert list == [list[0]] + list[1..];
    }
  }

  lemma {:induction false} AtMostSmaller<T>(list: seq<Entry<T>>, maxDepth: nat)
    ensures |AtMost(list, maxDepth)| <= |list|
  {
    if list != [] { AtMostSmaller(list[1..], maxDepth); }
  }

  /** Below the depth limit nothing is left. */
  lemma {:induction false} AtMostDeeper<T>(ts: seq<Tree<T>>, depth: nat, maxDepth: nat)
    requires depth > maxDepth
    ensures AtMost(FlatAll(ts, depth), maxDepth) == []
    decreases ts
  {
    if ts != [] {
      var t := ts[0];
      AtMostDeeper(t.children, depth + 1, maxDepth);
      AtMostDeeper(ts[1..], depth, maxDepth);
      assert Flat(t, depth)[1..] == FlatAll(t.children, depth + 1);
      AtMostAppend(Flat(t, depth), FlatAll(ts[1..], depth), maxDepth);
    }
  }

  lemma TakeAppend<T>(a: seq<T>, b: seq<T>, n: nat)
    ensures Take(a + b, n) == Take(a, n) + Take(b, n - |Take(a, n)|)
  {
  }

  /** The kept entries of a node, given room for `room` of them. */
  function Kept<T>(t: Tree<T>, depth: nat, maxDepth: nat, room: nat): seq<Entry<T>> {
    Take(AtMost(Flat(t, depth), maxDepth), room)
  }

  function KeptAll<T>(ts: seq<Tree<T>>, depth: nat, maxDepth: nat, room: nat): seq<Entry<T>> {
    Take(AtMost(FlatAll(ts, depth), maxDepth), room)
  }

  lemma KeptSmaller<T>(ts: seq<Tree<T>>, depth: nat, maxDepth: nat, room: nat)
    ensures |KeptAll(ts, depth, maxDepth, room)| <= room
    ensures |KeptAll(ts, depth, maxDepth, room)| <= |FlatAll(ts, depth)|
  {
    AtMostSmaller(FlatAll(ts, depth), maxDepth);
  }

  /** One more child, kept in the room its elder siblings left. */
  lemma KeptSnoc<T>(ts: seq<Tree<T>>, t: Tree<T>, depth: nat, maxDepth: nat, room: nat)
    ensures var elder := KeptAll(ts, depth, maxDepth, room);
            && |elder| <= room
            && KeptAll(ts + [t], depth, maxDepth, room) == elder + Kept(t, depth, maxDepth, room - |elder|)
    ensures |FlatAll(ts + [t], depth)| == |FlatAll(ts, depth)| + |Flat(t, depth)|
  {
    KeptSmaller(ts, depth, maxDepth, room);
    FlatAllAppend(ts, [t], depth);
    FlatOfOne(t, depth);
    AtMostAppend(FlatAll(ts, depth), Flat(t, depth), maxDepth);
    TakeAppend(AtMost(FlatAll(ts, depth), maxDepth), AtMost(Flat(t, depth), maxDepth), room);
  }

  /** Once the room is used up, later children change nothing. */
  lemma KeptFull<T>(ts: seq<Tree<T>>, more: seq<Tree<T>>, depth: nat, maxDepth: nat, room: nat)
    requires |KeptAll(ts, depth, maxDepth, room)| == room
    ensures KeptAll(ts + more, depth, maxDepth, room) == KeptAll(ts, depth, maxDepth, room)
    ensures more != [] ==> |FlatAll(ts + more, depth)| > room
  {
    FlatAllAppend(ts, more, depth);
    AtMostAppend(FlatAll(ts, depth), FlatAll(more, depth), maxDepth);
    KeptSmaller(ts, depth, maxDepth, room);
  }

  /** Adding a kept child to the kept elder children. */
  lemma AddChild<T>(kids: seq<Tree<T>>, kid: Tree<T>, ts: seq<Tree<T>>, t: Tree<T>,
                    depth: nat, maxDepth: nat, room: nat)
    requires FlatAll(kids, depth) == KeptAll(ts, depth, maxDepth, room) && |FlatAll(kids, depth)| <= room
    requires Flat(kid, depth) == Kept(t, depth, maxDepth, room - |FlatAll(kids, depth)|)
    ensures FlatAll(kids + [kid], depth) == KeptAll(ts + [t], depth, maxDepth, room)
    ensures |FlatAll(kids + [kid], depth)| == |FlatAll(kids, depth)| + |Flat(kid, depth)|
    ensures |FlatAll(ts + [t], depth)| == |FlatAll(ts, depth)| + |Flat(t, depth)|
    ensures |FlatAll(kids, depth)| <= |FlatAll(ts, depth)| && |Flat(kid, depth)| <= |Flat(t, depth)|
  {
    KeptSnoc(ts, t, depth, maxDepth, room);
    KeptSmaller(ts, depth, maxDepth, room);
    FlatAllAppend(kids, [kid], depth);
    FlatOfOne(kid, depth);
    AtMostSmaller(Flat(t, depth), maxDepth);
  }

  /** A node over its kept children is the kept node. */
  lemma KeptNode<T>(t: Tree<T>, kids: seq<Tree<T>>, depth: nat, maxDepth: nat, room: nat)
    requires depth <= maxDepth && room > 0
    requires FlatAll(kids, depth + 1) == KeptAll(t.children, depth + 1, maxDepth, room - 1)
    ensures Flat(Tree(t.data, kids), depth) == Kept(t, depth, maxDepth, room)
    ensures |Flat(Tree(t.data, kids), depth)| == 1 + |FlatAll(kids, depth + 1)|
    ensures |Flat(t, depth)| == 1 + |FlatAll(t.children, depth + 1)|
  {
    assert Flat(t, depth)[1..] == FlatAll(t.children, depth + 1);
  }

  method TrimNode<T>(node: Tree<T>, depth: nat, maxDepth: nat, remaining: nat, truncated: bool)
    returns (kept: Tree<T>, remaining': nat, truncated': bool)
    requires remaining > 0 && depth <= maxDepth
    ensures Flat(kept, depth) == Kept(node, depth, maxDepth, remaining)
    ensures remaining' == remaining - |Flat(kept, depth)|
    ensures truncated' <==> truncated || |Flat(kept, depth)| < |Flat(node, depth)|
    decreases node
  {
    hide Flat, AtMost, Take, Kept, KeptAll;
    remaining', truncated' := remaining - 1, truncated;
    var children: seq<Tree<T>> := [];
    ghost var room := remaining';
    if depth >= maxDepth {
      NothingBelow(node.children, depth + 1, maxDepth, room);
      KeptNode(node, [], depth, maxDepth, remaining);
      return Tree(node.data, []), remaining', truncated' || node.children != [];
    }
    assert KeptAll<T>([], depth + 1, maxDepth, room) == [] by { KeptSmaller<T>([], depth + 1, maxDepth, room); }
    hide FlatAll;
    for i := 0 to |node.children|
      invariant FlatAll(children, depth + 1) == KeptAll(node.children[..i], depth + 1, maxDepth, room)
      invariant remaining' == room - |FlatAll(children, depth + 1)|
      invariant |FlatAll(children, depth + 1)| <= |FlatAll(node.children[..i], depth + 1)|
      invariant truncated' <==> truncated || |FlatAll(children, depth + 1)| < |FlatAll(node.children[..i], depth + 1)|
    {
      if remaining' == 0 {
        KeptFull(node.children[..i], node.children[i..], depth + 1, maxDepth, room);
        assert node.children[..i] + node.children[i..] == node.children;
        KeptNode(node, children, depth, maxDepth, remaining);
        return Tree(node.data, children), remaining', true;
      }
      ghost var elder := node.children[..i];
      assert node.children[..i + 1] == elder + [node.children[i]];
      var child;
      child, remaining', truncated' := TrimNode(node.children[i], depth + 1, maxDepth, remaining', truncated');
      AddChild(children, child, elder, node.children[i], depth + 1, maxDepth, room);
      children := children + [child];
    }
    assert node.children[..|node.children|] == node.children;
    KeptNode(node, children, depth, maxDepth, remaining);
    kept := Tree(node.data, children);
  }

  lemma NothingBelow<T>(ts: seq<Tree<T>>, depth: nat, maxDepth: nat, room: nat)
    requires depth > maxDepth
    ensures KeptAll(ts, depth, maxDepth, room) == []
    ensures |FlatAll(ts, depth)| > 0 <==> ts != []
  {
    AtMostDeeper(ts, depth, maxDepth);
  }

  /**
   * The kept tree is the first `max(1, maxNodes)` entries, in pre-order, of the nodes within
   * the depth limit; `truncated` says exactly whether a node is missing.
   */
  method Trim<T>(root: Tree<T>, maxDepth: nat, maxNodes: nat) returns (kept: Tree<T>, truncated: bool)
    ensures Flat(kept, 0) == Take(AtMost(Flat(root, 0), maxDepth), Max(1, maxNodes))
    ensures truncated <==> Size(kept) < Size(root)
    ensures !truncated ==> kept == root
  {
    var remaining: nat;
    kept, remaining, truncated := TrimNode(root, 0, maxDepth, Max(1, maxNodes), false);
    if !truncated {
      AtMostSmaller(Flat(root, 0), maxDepth);
      AtMostWhole(Flat(root, 0), maxDepth);
      FlatInjective(kept, root, 0);
    }
  }

  lemma {:induction false} AtMostWhole<T>(list: seq<Entry<T>>, maxDepth: nat)
    ensures |AtMost(list, maxDepth)| == |list| ==> AtMost(list, maxDepth) == list
  {
    if list != [] {
      AtMostSmaller(list[1..], maxDepth);
      AtMostWhole(list[1..], maxDepth);
    }
  }
}
