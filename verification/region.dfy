// The damage region as the source holds it: a vector of rectangles changed in place,
// and the reduction of a damage list to a fixed number of rectangles.

module DamageRegion {
  import opened Core
  import opened Geometry
  import opened Sorting

  /** Order of `simplified`: by (y, x, h, w). */
  predicate ByPosition(a: Rect, b: Rect) {
    a.y < b.y || (a.y == b.y && (a.x < b.x || (a.x == b.x && (a.h < b.h || (a.h == b.h && a.w <= b.w)))))
  }

  /** Order of `trim_regions`: largest area first, ties by position. */
  predicate ByArea(a: Rect, b: Rect) {
    a.Area() > b.Area() || (a.Area() == b.Area() && ByPosition(a, b))
  }

  lemma ByPositionTotal()
    ensures TotalOrder(ByPosition)
  {
  }

  lemma ByAreaTotal()
    ensures TotalOrder(ByArea)
  {
    forall a: Rect, b: Rect, c: Rect | ByArea(a, b) && ByArea(b, c) ensures ByArea(a, c) {}
  }

  /**
   * The whole promise of `simplified`: the sorted result is fixed by the set of pushed
   * rectangles alone.
   */
  lemma SimplifiedUnique(in1: seq<Rect>, in2: seq<Rect>, out1: seq<Rect>, out2: seq<Rect>)
    requires forall r :: r in in1 <==> r in in2
    requires LeastCover(in1, out1) && LeastCover(in2, out2)
    requires Sorted(out1, ByPosition) && Sorted(out2, ByPosition)
    ensures out1 == out2
  {
    LeastCoverUnique(in1, in2, out1, out2);
    ByPositionTotal();
    SortedUnique(out1, out2, ByPosition);
  }

  lemma SortedCover(input: seq<Rect>, a: seq<Rect>, b: seq<Rect>)
    requires AllSound(a) && Settled(a) && multiset(a) == multiset(b)
    ensures Settled(b) && AllSound(b)
    ensures LeastCover(input, a) ==> LeastCover(input, b)
  {
    hide MergePair;
    SameElements(a, b);
    forall i, j | 0 <= i < j < |b| ensures MergePair(b[i], b[j]) == None {
      assert b[i] in a && b[j] in a;
      var p :| 0 <= p < |a| && a[p] == b[i];
      var q :| 0 <= q < |a| && a[q] == b[j];
      if p == q {
        TwiceCounted(b, i, j);
        SettledDistinct(a, a[p]);
        assert false;
      }
      MergeSymmetric(a[p], a[q]);
    }
    if LeastCover(input, a) {
      forall c: seq<Rect> ensures Covers(c, a) <==> Covers(c, b) {}
      CoversSelf(b);
      CoversTransitive(b, a, input);
    }
  }

  lemma SameElements<T>(a: seq<T>, b: seq<T>)
    requires multiset(a) == multiset(b)
    ensures forall r :: r in a <==> r in b
  {
    forall r ensures r in a <==> r in b {
      assert r in a <==> r in multiset(a);
      assert r in b <==> r in multiset(b);
    }
  }

  lemma TwiceCounted<T>(s: seq<T>, i: nat, j: nat)
    requires i < j < |s| && s[i] == s[j]
    ensures multiset(s)[s[i]] >= 2
  {
    assert s == s[..j] + [s[j]] + s[j + 1..];
    assert s[i] in s[..j];
  }

  class Region {
    var rects: seq<Rect>

    constructor ()
      ensures rects == []
    {
      rects := [];
    }

    method Push(rect: Rect)
      modifies this
      ensures rects == if rect.IsEmpty() then old(rects) else old(rects) + [rect]
    {
      if !rect.IsEmpty() {
        rects := rects + [rect];
      }
    }

    method Extend(other: seq<Rect>)
      modifies this
      ensures rects == old(rects) + NonEmpty(other)
    {
      rects := rects + NonEmpty(other);
    }

    /** The damage inside `clip`: exactly the points of the region that lie in it. */
    method Clip(clip: Rect) returns (out: Region)
      ensures fresh(out) && NoEmpty(out.rects)
      ensures ClippedTo(rects, clip, out.rects)
    {
      out := new Region();
      if clip.IsEmpty() {
        return;
      }
      for k := 0 to |rects|
        invariant fresh(out) && NoEmpty(out.rects)
        invariant ClippedTo(rects[..k], clip, out.rects)
      {
        ClipStep(rects[..k], rects[k], clip, out.rects);
        assert rects[..k + 1] == rects[..k] + [rects[k]];
        match rects[k].Intersect(clip) {
          case Some(part) => out.Push(part);
          case None =>
        }
      }
      assert rects[..|rects|] == rects;
    }

    method Coalesce()
      modifies this
      ensures NoEmpty(rects) && Settled(rects)
      ensures AllFit(old(rects)) ==> LeastCover(NonEmpty(old(rects)), rects)
      ensures NoEmpty(old(rects)) && Settled(old(rects)) ==> rects == old(rects)
    {
      rects := NonEmpty(rects);
      ghost var input := rects;
      ghost var inRange := AllFit(old(rects));
      CoversSelf(input);
      var merged := true;
      while merged
        invariant NoEmpty(rects) && (merged || Settled(rects))
        invariant inRange ==> AllSound(rects) && Covers(rects, input) && Minimal(input, rects)
        invariant Settled(input) ==> rects == input
        decreases |rects|, merged
      {
        merged := MergeFirst(input);
      }
    }

    /** One search of the loop: merges the first mergeable pair, or finds none. */
    method MergeFirst(ghost input: seq<Rect>) returns (merged: bool)
      requires NoEmpty(rects)
      modifies this
      ensures NoEmpty(rects)
      ensures !merged ==> rects == old(rects) && Settled(rects)
      ensures merged ==> |rects| == |old(rects)| - 1 && !Settled(old(rects))
      ensures AllSound(old(rects)) && Covers(old(rects), input) && Minimal(input, old(rects)) ==>
                AllSound(rects) && Covers(rects, input) && Minimal(input, rects)
    {
      hide MergePair;
      for i := 0 to |rects|
        invariant rects == old(rects)
        invariant forall p, q :: 0 <= p < i && p < q < |rects| ==> MergePair(rects[p], rects[q]) == None
      {
        for j := i + 1 to |rects|
          invariant rects == old(rects)
          invariant forall q :: i < q < j ==> MergePair(rects[i], rects[q]) == None
        {
          var pair := MergePair(rects[i], rects[j]);
          if pair.Some? {
            MergeNonEmpty(rects[i], rects[j]);
            MergeAtMembers(rects, i, j, pair.value);
            if AllSound(rects) && Covers(rects, input) && Minimal(input, rects) {
              MergeKeeps(input, rects, i, j);
            }
            rects := MergeAt(rects, i, j, pair.value);
            return true;
          }
        }
      }
      return false;
    }

    /** Coalesced, in the order of the top edge, then the left edge, then height, then width. */
    method Simplified() returns (sorted: seq<Rect>)
      ensures NoEmpty(sorted) && Sorted(sorted, ByPosition)
      ensures forall i, j :: 0 <= i < j < |sorted| ==>
                || sorted[i].y < sorted[j].y
                || (sorted[i].y == sorted[j].y && sorted[i].x < sorted[j].x)
                || (sorted[i].y == sorted[j].y && sorted[i].x == sorted[j].x && sorted[i].h < sorted[j].h)
                || (sorted[i].y == sorted[j].y && sorted[i].x == sorted[j].x && sorted[i].h == sorted[j].h
                    && sorted[i].w <= sorted[j].w)
      ensures AllFit(rects) ==> LeastCover(NonEmpty(rects), sorted)
    {
      var region := new Region();
      region.rects := rects;
      region.Coalesce();
      sorted := Sort(region.rects, ByPosition);
      ByPositionTotal();
      SortSorted(region.rects, ByPosition);
      SameElements(sorted, region.rects);
      if AllFit(rects) {
        SortedCover(NonEmpty(rects), region.rects, sorted);
      }
    }

    method Bounds() returns (b: Option<Rect>)
      ensures b == BoundsOf(rects)
    {
      var live := NonEmpty(rects);
      if live == [] {
        return None;
      }
      var acc := live[0];
      for k := 1 to |live|
        invariant FoldUnion(acc, live[k..]) == FoldUnion(live[0], live[1..])
      {
        acc := acc.Union(live[k]);
      }
      return Some(acc);
    }
  }

  lemma MergeNonEmpty(a: Rect, b: Rect)
    requires MergePair(a, b).Some?
    ensures !MergePair(a, b).value.IsEmpty()
  {
  }

  /** Some rectangle of the list contains the point. */
  ghost predicate Marked(rs: seq<Rect>, px: int, py: int) {
    exists k :: 0 <= k < |rs| && rs[k].Contains(px, py)
  }

  ghost predicate ClippedTo(rs: seq<Rect>, clip: Rect, out: seq<Rect>) {
    forall px, py :: Marked(out, px, py) <==> (Marked(rs, px, py) && clip.Contains(px, py))
  }

  lemma MarkedAppend(rs: seq<Rect>, r: Rect, px: int, py: int)
    ensures Marked(rs + [r], px, py) <==> (Marked(rs, px, py) || r.Contains(px, py))
  {
    assert (rs + [r])[|rs|] == r;
    if Marked(rs, px, py) {
      var k :| 0 <= k < |rs| && rs[k].Contains(px, py);
      assert (rs + [r])[k].Contains(px, py);
    }
  }

  lemma ClipStep(rs: seq<Rect>, r: Rect, clip: Rect, out: seq<Rect>)
    requires ClippedTo(rs, clip, out)
    ensures match r.Intersect(clip)
            case Some(part) => ClippedTo(rs + [r], clip, out + [part])
            case None => ClippedTo(rs + [r], clip, out)
  {
    var grown := match r.Intersect(clip) case Some(part) => out + [part] case None => out;
    forall px, py
      ensures Marked(grown, px, py) <==> (Marked(rs + [r], px, py) && clip.Contains(px, py))
    {
      MarkedAppend(rs, r, px, py);
      if r.Intersect(clip).Some? { MarkedAppend(out, r.Intersect(clip).value, px, py); }
    }
  }

  // ----- trim_regions -----

  /** `kept` split at `cap` after sorting, the tail folded into the last kept rectangle. */
  method TrimRegions(regions: seq<Rect>, cap: nat) returns (kept: seq<Rect>)
    ensures |kept| <= cap
    ensures |NonEmpty(regions)| <= cap ==> kept == NonEmpty(regions)
    ensures 0 < cap < |NonEmpty(regions)| ==>
              exists tail :: Trimmed(NonEmpty(regions), cap, kept, tail)
    ensures 0 < cap < |NonEmpty(regions)| ==>
              forall i, j :: 0 <= i < j < cap - 1 ==>
                || kept[i].w * kept[i].h > kept[j].w * kept[j].h
                || (kept[i].w * kept[i].h == kept[j].w * kept[j].h
                    && (kept[i].y < kept[j].y || (kept[i].y == kept[j].y && kept[i].x <= kept[j].x)))
  {
    kept := NonEmpty(regions);
    if |kept| <= cap {
      return;
    }
    if cap == 0 {
      return [];
    }
    hide *;
    TrimmedByArea(kept, cap);
    var sorted := Sort(kept, ByArea);
    var dropped := sorted[cap..];
    var bounds := FoldUnion(EMPTY, dropped);
    LargestFirst(sorted, cap, sorted[cap - 1].Union(bounds));
    kept := sorted[..cap - 1] + [sorted[cap - 1].Union(bounds)];
  }

  /** What is kept untouched comes in the order of area, then of position. */
  lemma LargestFirst(sorted: seq<Rect>, cap: nat, last: Rect)
    requires Sorted(sorted, ByArea) && 0 < cap <= |sorted|
    ensures var kept := sorted[..cap - 1] + [last];
            forall i, j :: 0 <= i < j < cap - 1 ==>
              || kept[i].w * kept[i].h > kept[j].w * kept[j].h
              || (kept[i].w * kept[i].h == kept[j].w * kept[j].h
                  && (kept[i].y < kept[j].y || (kept[i].y == kept[j].y && kept[i].x <= kept[j].x)))
  {
    forall i, j | 0 <= i < j < cap - 1 ensures ByArea(sorted[i], sorted[j]) {}
  }

  /** Splitting the sorted list is a trim, with the sorted rest as the tail. */
  lemma TrimmedByArea(live: seq<Rect>, cap: nat)
    requires 0 < cap < |live|
    ensures var sorted := Sort(live, ByArea);
            && |sorted| == |live| && Sorted(sorted, ByArea)
            && Trimmed(live, cap, sorted[..cap - 1] + [sorted[cap - 1].Union(FoldUnion(EMPTY, sorted[cap..]))],
                       sorted[cap - 1..])
  {
    hide FoldUnion;
    var sorted := Sort(live, ByArea);
    assert |sorted| == |multiset(sorted)| == |multiset(live)| == |live|;
    ByAreaTotal();
    SortSorted(live, ByArea);
    hide ByArea;
    hide Sort;
    SplitIsTrimmed(live, sorted, cap);
  }

  lemma SplitIsTrimmed(live: seq<Rect>, sorted: seq<Rect>, cap: nat)
    requires 0 < cap < |sorted| && multiset(sorted) == multiset(live) && Sorted(sorted, ByArea)
    ensures Trimmed(live, cap, sorted[..cap - 1] + [sorted[cap - 1].Union(FoldUnion(EMPTY, sorted[cap..]))],
                    sorted[cap - 1..])
  {
    hide FoldUnion, ByArea;
    var head, tail := sorted[..cap - 1], sorted[cap - 1..];
    var kept := head + [sorted[cap - 1].Union(FoldUnion(EMPTY, sorted[cap..]))];
    assert kept[..cap - 1] == head && head + tail == sorted && tail[1..] == sorted[cap..];
  }

  /**
   * `kept` is the `cap - 1` largest rectangles as they were, then one box folded from the
   * `tail`, the rest in order of area.
   */
  ghost predicate Trimmed(live: seq<Rect>, cap: nat, kept: seq<Rect>, tail: seq<Rect>) {
    && |kept| == cap > 0 && |tail| > 1
    && multiset(kept[..cap - 1] + tail) == multiset(live)
    && Sorted(kept[..cap - 1] + tail, ByArea)
    && kept[cap - 1] == tail[0].Union(FoldUnion(EMPTY, tail[1..]))
  }

  /** The fold from the empty rectangle is the bounding box of the list. */
  lemma FoldFromEmpty(rs: seq<Rect>)
    requires rs != []
    ensures FoldUnion(EMPTY, rs) == FoldUnion(rs[0], rs[1..])
  {
  }

  lemma TailBox(tail: seq<Rect>, c: Rect)
    requires AllSound(tail) && |tail| > 1
    ensures var box := tail[0].Union(FoldUnion(EMPTY, tail[1..]));
            && box.Sound() && (forall r :: r in tail ==> r.Within(box))
            && ((forall r :: r in tail ==> r.Within(c)) ==> box.Within(c))
  {
    FoldFromEmpty(tail[1..]);
    FoldUnionIsLeast(tail[1], tail[2..], c);
    UnionIsLeast(tail[0], FoldUnion(EMPTY, tail[1..]), c);
    forall r | r in tail ensures r == tail[0] || r == tail[1] || r in tail[2..] {
      var k :| 0 <= k < |tail| && tail[k] == r;
      assert k >= 2 ==> tail[2..][k - 2] == r;
    }
  }

  /**
   * A trimmed damage list loses no damage and invents none outside its bounds, and every
   * rectangle it keeps untouched is at least as large as every one it folded away.
   */
  lemma TrimKeepsDamage(live: seq<Rect>, cap: nat, kept: seq<Rect>, tail: seq<Rect>)
    requires AllSound(live) && Trimmed(live, cap, kept, tail)
    ensures Covers(kept, live) && AllSound(kept)
    ensures BoundsOf(kept) == BoundsOf(live)
    ensures forall a, b :: a in kept[..cap - 1] && b in tail ==>
              a in live && b in live && a.w * a.h >= b.w * b.h
  {
    hide BoundsOf;
    var head := kept[..cap - 1];
    SameElements(head + tail, live);
    forall a, b | a in head && b in tail ensures a in live && b in live && a.w * a.h >= b.w * b.h {
      var i :| 0 <= i < |head| && head[i] == a;
      var j :| 0 <= j < |tail| && tail[j] == b;
      assert (head + tail)[i] == a && (head + tail)[|head| + j] == b;
    }
    TailBox(tail, EMPTY);
    assert kept == head + [kept[cap - 1]];
    forall r | r in live ensures CoveredBy(r, kept) {
      assert r in head + tail;
      if r in head {
        var i :| 0 <= i < |head| && head[i] == r;
        assert r.Within(kept[i]);
      } else {
        assert r.Within(kept[cap - 1]);
      }
    }
    TrimKeepsBounds(live, cap, kept, tail);
  }

  lemma TrimStaysWithin(live: seq<Rect>, cap: nat, kept: seq<Rect>, tail: seq<Rect>, box: Rect)
    requires AllSound(live) && Trimmed(live, cap, kept, tail)
    requires forall r :: r in live ==> r.Within(box)
    ensures forall r :: r in kept ==> r.Within(box)
  {
    var head := kept[..cap - 1];
    assert kept == head + [kept[cap - 1]];
    SameElements(head + tail, live);
    hide FoldUnion, ByArea;
    assert forall r :: r in tail ==> r in head + tail;
    TailBox(tail, box);
    forall r | r in kept ensures r.Within(box) {
      if r in head { assert r in head + tail; }
    }
  }

  lemma TrimKeepsBounds(live: seq<Rect>, cap: nat, kept: seq<Rect>, tail: seq<Rect>)
    requires AllSound(live) && Trimmed(live, cap, kept, tail)
    requires AllSound(kept) && Covers(kept, live)
    ensures BoundsOf(kept) == BoundsOf(live)
  {
    SameElements(kept[..cap - 1] + tail, live);
    assert tail[0] in live;
    BoundsIsLeast(live, EMPTY);
    TrimStaysWithin(live, cap, kept, tail, BoundsOf(live).value);
    CoverKeepsBounds(live, kept);
  }
}
