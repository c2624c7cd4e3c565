// Rectangles: half-open boxes with saturating i32 edges, the merge rule of two of them, and
// the settled covers that merging leads to.

module Geometry {
  import opened Core

  /** Saturating cast from a 64-bit value to a 32-bit one. */
  function ClampI32(v: int): I32 {
    if v > I32_MAX then I32_MAX else if v < -0x8000_0000 then -0x8000_0000 else v
  }

  datatype Rect = Rect(x: I32, y: I32, w: U32, h: U32) {
    function Right(): I32 { ClampI32(x + w) }

    function Bottom(): I32 { ClampI32(y + h) }

    predicate IsEmpty() { w == 0 || h == 0 }

    function Area(): nat { w * h }

    predicate Contains(px: int, py: int) {
      !IsEmpty() && x <= px < x + w && y <= py < y + h
    }

    /** The overlap of two rectangles, exact even where the edges leave the i32 range. */
    function Intersect(o: Rect): (r: Option<Rect>)
      ensures forall px, py :: (r.Some? && r.value.Contains(px, py)) <==> (Contains(px, py) && o.Contains(px, py))
      ensures r.Some? ==> !r.value.IsEmpty()
    {
      if IsEmpty() || o.IsEmpty() then None
      else
        var x0, y0 := Max(x, o.x), Max(y, o.y);
        var x1, y1 := Min(x + w, o.x + o.w), Min(y + h, o.y + o.h);
        if x1 <= x0 || y1 <= y0 then None
        else Some(Rect(ClampI32(x0), ClampI32(y0), x1 - x0, y1 - y0))
    }

    /** Smallest box over both operands; an empty operand is ignored. */
    function Union(o: Rect): Rect {
      if IsEmpty() then o
      else if o.IsEmpty() then this
      else
        var x0, y0 := Min(x, o.x), Min(y, o.y);
        var x1, y1 := Max(x + w, o.x + o.w), Max(y + h, o.y + o.h);
        Rect(ClampI32(x0), ClampI32(y0), Min(x1 - x0, U32_MAX), Min(y1 - y0, U32_MAX))
    }

    /** Inclusion of boxes, on the true (unsaturated) edges. */
    predicate Within(o: Rect) {
      o.x <= x && x + w <= o.x + o.w && o.y <= y && y + h <= o.y + o.h
    }

    /** Both exclusive edges are themselves i32 coordinates. */
    predicate Fits() { x + w <= I32_MAX && y + h <= I32_MAX }

    /** A rectangle that marks some damage and lies in the coordinate range. */
    predicate Sound() { !IsEmpty() && Fits() }
  }

  const EMPTY := Rect(0, 0, 0, 0)

  function MergePair(a: Rect, b: Rect): Option<Rect> {
    if a.IsEmpty() || b.IsEmpty() then None
    else if a.Intersect(b).Some? then Some(a.Union(b))
    else
      var touchesX := a.Right() == b.x || b.Right() == a.x;
      var spansY := Max(a.y, b.y) < Min(a.Bottom(), b.Bottom());
      var touchesY := a.Bottom() == b.y || b.Bottom() == a.y;
      var spansX := Max(a.x, b.x) < Min(a.Right(), b.Right());
      if (touchesX && spansY) || (touchesY && spansX) then Some(a.Union(b)) else None
  }

  // ----- one pair -----

  /**
   * `union` covers both operands exactly when the bounding box has a representable size;
   * beyond that the saturated width or height cuts damage off.
   */
  lemma UnionCoversIff(a: Rect, b: Rect)
    requires !a.IsEmpty() && !b.IsEmpty()
    ensures (a.Within(a.Union(b)) && b.Within(a.Union(b))) <==>
            && Max(a.x + a.w, b.x + b.w) - Min(a.x, b.x) <= U32_MAX
            && Max(a.y + a.h, b.y + b.h) - Min(a.y, b.y) <= U32_MAX
  {
  }

  /** In range, `union` is the least box over its operands. */
  lemma UnionIsLeast(a: Rect, b: Rect, c: Rect)
    requires a.Sound() && b.Sound()
    ensures a.Union(b).Sound() && a.Within(a.Union(b)) && b.Within(a.Union(b))
    ensures a.Within(c) && b.Within(c) ==> a.Union(b).Within(c)
  {
  }

  /** Length of the shared part of two half-open intervals; zero when they only touch. */
  function Shared(lo1: int, hi1: int, lo2: int, hi2: int): int {
    Min(hi1, hi2) - Max(lo1, lo2)
  }

  /** The closed boxes meet in more than a corner. */
  predicate Adjacent(a: Rect, b: Rect) {
    var dx := Shared(a.x, a.x + a.w, b.x, b.x + b.w);
    var dy := Shared(a.y, a.y + a.h, b.y, b.y + b.h);
    dx >= 0 && dy >= 0 && (dx > 0 || dy > 0)
  }

  /** In range, exactly the rectangles that overlap or share an edge segment merge. */
  lemma MergePairExact(a: Rect, b: Rect)
    requires a.Sound() && b.Sound()
    ensures MergePair(a, b) == if Adjacent(a, b) then Some(a.Union(b)) else None
  {
  }

  /** Growing two mergeable rectangles keeps them mergeable: why merging is confluent. */
  lemma MergeMonotone(a: Rect, b: Rect, a': Rect, b': Rect)
    requires a.Sound() && b.Sound() && a'.Sound() && b'.Sound()
    requires a.Within(a') && b.Within(b') && MergePair(a, b).Some?
    ensures MergePair(a', b').Some?
  {
    MergePairExact(a, b);
    MergePairExact(a', b');
  }

  lemma MergeSymmetric(a: Rect, b: Rect)
    requires a.Sound() && b.Sound()
    ensures MergePair(a, b) == MergePair(b, a)
  {
    MergePairExact(a, b);
    MergePairExact(b, a);
  }

  lemma WithinMerges(a: Rect, b: Rect)
    requires a.Sound() && b.Sound() && a.Within(b)
    ensures MergePair(a, b).Some?
  {
    MergePairExact(a, b);
  }

  /** Out of range the merge loses damage: the second rectangle ends up outside the result. */
  lemma MergeLosesDamageOutOfRange()
    ensures var a, b := Rect(-0x8000_0000, 0, 0xffff_ffff, 1), Rect(0x7fff_ffff, 0, 0xffff_ffff, 1);
            && MergePair(a, b) == Some(a)
            && b.Contains(0x7fff_ffff, 0) && !a.Contains(0x7fff_ffff, 0)
  {
  }

  // ----- covers -----

  ghost predicate AllSound(rs: seq<Rect>) { forall r :: r in rs ==> r.Sound() }

  ghost predicate AllFit(rs: seq<Rect>) { forall r :: r in rs ==> r.Fits() }

  predicate NoEmpty(rs: seq<Rect>) { forall r :: r in rs ==> !r.IsEmpty() }

  /** No two of the rectangles merge. */
  predicate Settled(rs: seq<Rect>) {
    forall i, j :: 0 <= i < j < |rs| ==> MergePair(rs[i], rs[j]) == None
  }

  ghost predicate CoveredBy(r: Rect, c: seq<Rect>) { exists k :: 0 <= k < |c| && r.Within(c[k]) }

  ghost predicate Covers(c: seq<Rect>, rs: seq<Rect>) { forall r :: r in rs ==> CoveredBy(r, c) }

  /** Whatever settled cover one picks, it already covers `rs`. */
  ghost predicate Minimal(input: seq<Rect>, rs: seq<Rect>) {
    forall c {:trigger Covers(c, rs)} {:trigger Covers(c, input)} ::
      AllSound(c) && Settled(c) && Covers(c, input) ==> Covers(c, rs)
  }

  /** `out` is the least settled cover of `input`. */
  ghost predicate LeastCover(input: seq<Rect>, out: seq<Rect>) {
    AllSound(out) && Settled(out) && Covers(out, input) && Minimal(input, out)
  }

  function NonEmpty(rs: seq<Rect>): (r: seq<Rect>)
    ensures forall q :: q in r <==> q in rs && !q.IsEmpty()
    ensures NoEmpty(rs) ==> r == rs
  {
    if rs == [] then []
    else (if rs[0].IsEmpty() then [] else [rs[0]]) + NonEmpty(rs[1..])
  }

  /** In a settled list only a rectangle and itself merge. */
  lemma SettledSameIndex(c: seq<Rect>, p: nat, q: nat)
    requires AllSound(c) && Settled(c) && p < |c| && q < |c| && MergePair(c[p], c[q]).Some?
    ensures p == q
  {
    hide MergePair;
    MergeSymmetric(c[p], c[q]);
  }

  /** `rects[i] = u; rects.remove(j)`. */
  function MergeAt(rs: seq<Rect>, i: nat, j: nat, u: Rect): (r: seq<Rect>)
    requires i < j < |rs|
    ensures |r| == |rs| - 1
  {
    rs[i := u][..j] + rs[i := u][j + 1..]
  }

  lemma MergeAtMembers(rs: seq<Rect>, i: nat, j: nat, u: Rect)
    requires i < j < |rs|
    ensures u in MergeAt(rs, i, j, u)
    ensures forall r :: r in MergeAt(rs, i, j, u) ==> r == u || r in rs
    ensures forall r :: r in rs ==> r == rs[i] || r == rs[j] || r in MergeAt(rs, i, j, u)
  {
    var m := MergeAt(rs, i, j, u);
    assert m[i] == u;
    forall r | r in rs ensures r == rs[i] || r == rs[j] || r in m {
      var k :| 0 <= k < |rs| && rs[k] == r;
      if k < j { assert k == i || m[k] == r; } else { assert k == j || m[k - 1] == r; }
    }
  }

  lemma CoversTransitive(a: seq<Rect>, b: seq<Rect>, c: seq<Rect>)
    requires Covers(a, b) && Covers(b, c)
    ensures Covers(a, c)
  {
    forall r | r in c ensures CoveredBy(r, a) {
      var k :| 0 <= k < |b| && r.Within(b[k]);
      assert CoveredBy(b[k], a);
      var l :| 0 <= l < |a| && b[k].Within(a[l]);
    }
  }

  lemma CoversSelf(rs: seq<Rect>)
    ensures Covers(rs, rs)
  {
    forall r | r in rs ensures CoveredBy(r, rs) {
      var k :| 0 <= k < |rs| && rs[k] == r;
      assert r.Within(rs[k]);
    }
  }

  /** A settled cover of two mergeable rectangles holds both in one of its members. */
  lemma SettledCoversMerge(c: seq<Rect>, a: Rect, b: Rect)
    requires AllSound(c) && Settled(c) && CoveredBy(a, c) && CoveredBy(b, c)
    requires a.Sound() && b.Sound() && MergePair(a, b).Some?
    ensures CoveredBy(a.Union(b), c)
  {
    hide MergePair;
    var p :| 0 <= p < |c| && a.Within(c[p]);
    var q :| 0 <= q < |c| && b.Within(c[q]);
    MergeMonotone(a, b, c[p], c[q]);
    SettledSameIndex(c, p, q);
    UnionIsLeast(a, b, c[p]);
    assert a.Union(b).Within(c[p]);
  }

  lemma MergeCovers(rs: seq<Rect>, i: nat, j: nat, u: Rect)
    requires i < j < |rs| && rs[i].Within(u) && rs[j].Within(u)
    ensures Covers(MergeAt(rs, i, j, u), rs)
  {
    var m := MergeAt(rs, i, j, u);
    MergeAtMembers(rs, i, j, u);
    forall r | r in rs ensures CoveredBy(r, m) {
      var q := if r in m then r else u;
      var k :| 0 <= k < |m| && m[k] == q;
      assert r.Within(m[k]);
    }
  }

  /** A merge keeps every rectangle covered and stays below every settled cover. */
  lemma MergeKeeps(input: seq<Rect>, rs: seq<Rect>, i: nat, j: nat)
    requires i < j < |rs| && AllSound(rs) && Covers(rs, input) && Minimal(input, rs)
    requires MergePair(rs[i], rs[j]).Some?
    ensures var m := MergeAt(rs, i, j, MergePair(rs[i], rs[j]).value);
            AllSound(m) && Covers(m, input) && Minimal(input, m)
  {
    var u := MergePair(rs[i], rs[j]).value;
    var m := MergeAt(rs, i, j, u);
    assert u == rs[i].Union(rs[j]) by { MergePairExact(rs[i], rs[j]); }
    hide MergePair;
    MergeAtMembers(rs, i, j, u);
    UnionIsLeast(rs[i], rs[j], u);
    MergeCovers(rs, i, j, u);
    CoversTransitive(m, rs, input);
    forall c | AllSound(c) && Settled(c) && Covers(c, input) ensures Covers(c, m) {
      assert Covers(c, rs);
      SettledCoversMerge(c, rs[i], rs[j]);
    }
  }

  // ----- what a least cover is worth -----

  /** Distinct outputs never overlap, so an input lies in exactly one of them. */
  lemma ExactlyOneOutput(input: seq<Rect>, out: seq<Rect>, r: Rect)
    requires LeastCover(input, out) && r in input && r.Sound()
    ensures exists k :: 0 <= k < |out| && r.Within(out[k]) &&
              forall l :: 0 <= l < |out| && l != k ==> out[k].Intersect(out[l]) == None && !r.Within(out[l])
  {
    var k :| 0 <= k < |out| && r.Within(out[k]);
    forall l | 0 <= l < |out| && l != k
      ensures out[k].Intersect(out[l]) == None && !r.Within(out[l])
    {
      SettledApart(out, k, l);
      NotInBoth(out[k], out[l], r);
    }
  }

  lemma SettledApart(c: seq<Rect>, k: nat, l: nat)
    requires AllSound(c) && Settled(c) && k < |c| && l < |c| && k != l
    ensures MergePair(c[k], c[l]) == None
  {
    hide MergePair;
    MergeSymmetric(c[k], c[l]);
  }

  lemma NotInBoth(a: Rect, b: Rect, r: Rect)
    requires a.Sound() && b.Sound() && r.Sound() && MergePair(a, b) == None && r.Within(a)
    ensures a.Intersect(b) == None && !r.Within(b)
  {
    MergePairExact(a, b);
  }

  /** Two settled covers below each other consist of the same rectangles. */
  lemma SameMembers(a: seq<Rect>, b: seq<Rect>, r: Rect)
    requires AllSound(a) && AllSound(b) && Settled(a) && Covers(a, b) && Covers(b, a)
    requires r in a
    ensures r in b
  {
    hide MergePair;
    assert CoveredBy(r, b);
    var k :| 0 <= k < |b| && r.Within(b[k]);
    assert CoveredBy(b[k], a);
    var l :| 0 <= l < |a| && b[k].Within(a[l]);
    var i :| 0 <= i < |a| && a[i] == r;
    WithinMerges(a[i], a[l]);
    SettledSameIndex(a, i, l);
    assert r == b[k];
  }

  lemma SettledDistinct(a: seq<Rect>, r: Rect)
    requires AllSound(a) && Settled(a)
    ensures multiset(a)[r] == if r in a then 1 else 0
  {
    if r in a {
      var k :| 0 <= k < |a| && a[k] == r;
      assert a == a[..k] + [a[k]] + a[k + 1..];
      forall l | 0 <= l < |a| && l != k ensures a[l] != r { MergePairExact(r, r); }
      assert r !in a[..k] && r !in a[k + 1..];
    }
  }

  /** The least cover depends only on which rectangles were pushed, not on their order. */
  lemma LeastCoverUnique(in1: seq<Rect>, in2: seq<Rect>, out1: seq<Rect>, out2: seq<Rect>)
    requires forall r :: r in in1 <==> r in in2
    requires LeastCover(in1, out1) && LeastCover(in2, out2)
    ensures multiset(out1) == multiset(out2)
  {
    assert Covers(out1, in2) && Covers(out2, in1);
    assert Covers(out1, out2) && Covers(out2, out1);
    forall r: Rect ensures multiset(out1)[r] == multiset(out2)[r] {
      SettledDistinct(out1, r);
      SettledDistinct(out2, r);
      if r in out1 { SameMembers(out1, out2, r); }
      if r in out2 { SameMembers(out2, out1, r); }
    }
  }

  /** Bounding box of a list, `None` without a non-empty rectangle. */
  function BoundsOf(rs: seq<Rect>): Option<Rect> {
    if NonEmpty(rs) == [] then None else Some(FoldUnion(NonEmpty(rs)[0], NonEmpty(rs)[1..]))
  }

  function FoldUnion(acc: Rect, rs: seq<Rect>): Rect
    decreases rs
  {
    if rs == [] then acc else FoldUnion(acc.Union(rs[0]), rs[1..])
  }

  /** The fold is the least sound box over the accumulator and the list. */
  lemma {:induction false} FoldUnionIsLeast(acc: Rect, rs: seq<Rect>, c: Rect)
    requires acc.Sound() && AllSound(rs)
    ensures FoldUnion(acc, rs).Sound() && acc.Within(FoldUnion(acc, rs))
    ensures forall r :: r in rs ==> r.Within(FoldUnion(acc, rs))
    ensures acc.Within(c) && (forall r :: r in rs ==> r.Within(c)) ==> FoldUnion(acc, rs).Within(c)
    decreases rs
  {
    if rs != [] {
      UnionIsLeast(acc, rs[0], c);
      FoldUnionIsLeast(acc.Union(rs[0]), rs[1..], c);
    }
  }

  lemma BoundsIsLeast(rs: seq<Rect>, c: Rect)
    requires AllSound(rs) && rs != []
    ensures BoundsOf(rs).Some? && BoundsOf(rs).value.Sound()
    ensures forall r :: r in rs ==> r.Within(BoundsOf(rs).value)
    ensures (forall r :: r in rs ==> r.Within(c)) ==> BoundsOf(rs).value.Within(c)
  {
    assert NonEmpty(rs) == rs;
    FoldUnionIsLeast(rs[0], rs[1..], c);
  }

  /** What lies within one box lies within the box's own (settled) cover, so the outputs do too. */
  lemma LeastCoverStaysWithin(input: seq<Rect>, out: seq<Rect>, box: Rect)
    requires LeastCover(input, out) && box.Sound()
    requires forall r :: r in input ==> r.Within(box)
    ensures forall r :: r in out ==> r.Within(box)
  {
    forall r | r in input ensures CoveredBy(r, [box]) { assert r.Within([box][0]); }
    assert Covers([box], input) && Settled([box]);
    assert Covers([box], out);
    forall r | r in out ensures r.Within(box) { assert CoveredBy(r, [box]); }
  }

  lemma LeastCoverOfNothing(out: seq<Rect>)
    requires LeastCover([], out)
    ensures out == []
  {
    assert Covers([], []) && Settled([]);
    assert Covers([], out);
    assert out != [] ==> out[0] in out && CoveredBy(out[0], []);
  }

  lemma CoveredWithin(r: Rect, out: seq<Rect>, box: Rect)
    requires CoveredBy(r, out) && forall q :: q in out ==> q.Within(box)
    ensures r.Within(box)
  {
    var k :| 0 <= k < |out| && r.Within(out[k]);
    assert out[k] in out;
  }

  /** A cover that stays inside the bounding box has the same bounding box. */
  lemma CoverKeepsBounds(input: seq<Rect>, out: seq<Rect>)
    requires AllSound(input) && AllSound(out) && input != [] && Covers(out, input)
    requires BoundsOf(input).Some? ==> forall r :: r in out ==> r.Within(BoundsOf(input).value)
    ensures BoundsOf(out) == BoundsOf(input)
  {
    hide BoundsOf, FoldUnion;
    assert input[0] in input && CoveredBy(input[0], out);
    BoundsIsLeast(input, EMPTY);
    BoundsIsLeast(out, EMPTY);
    var bi, bo := BoundsOf(input).value, BoundsOf(out).value;
    BoundsIsLeast(out, bi);
    forall r | r in input ensures r.Within(bo) { CoveredWithin(r, out, bo); }
    BoundsIsLeast(input, bo);
  }

  /** Coalescing moves no outer edge. */
  lemma LeastCoverKeepsBounds(input: seq<Rect>, out: seq<Rect>)
    requires AllSound(input) && LeastCover(input, out)
    ensures BoundsOf(out) == BoundsOf(input)
  {
    if input == [] {
      LeastCoverOfNothing(out);
    } else {
      BoundsIsLeast(input, EMPTY);
      LeastCoverStaysWithin(input, out, BoundsOf(input).value);
      CoverKeepsBounds(input, out);
    }
  }
}
