/** Intersection over Union of two boxes (computeIOU in utils.py).

    The source turns the intersection area into a float (line 99 of utils.py),
    so the denominator at line 102 is a float. The model keeps areas as `int`
    and the ratio as an exact `real`, without float rounding. A zero union
    under overlapping boxes is the `ZeroUnion` error, which is what plain
    integer boxes raise.
 */
module Iou {
  import opened Boxes
  import opened Errors

  /** The source's disjointness test on the sorted axis pairs: the boxes are
      apart, or touch only along an edge or at a corner, on some axis. */
  predicate Separated(g: Box, t: Box)
    ensures var x := Overlap(Sort(XPair(g)), Sort(XPair(t)));
      var y := Overlap(Sort(YPair(g)), Sort(YPair(t)));
      && (!Separated(g, t) ==> x.first <= x.second && y.first <= y.second)
      && (BoxArea(g) > 0 && BoxArea(t) > 0 ==>
            (Separated(g, t) <==> x.first >= x.second || y.first >= y.second))
  {
    var xg := Sort(XPair(g));
    var yg := Sort(YPair(g));
    var xt := Sort(XPair(t));
    var yt := Sort(YPair(t));
    xg.first >= xt.second || yg.first >= yt.second || xg.second <= xt.first || yg.second <= yt.first
  }

  /** The overlap of two sorted axis pairs, as `[max(lo), min(hi)]`. */
  function Overlap(a: Pair, b: Pair): (r: Pair)
    ensures r.first == a.first || r.first == b.first
    ensures r.first >= a.first && r.first >= b.first
    ensures r.second == a.second || r.second == b.second
    ensures r.second <= a.second && r.second <= b.second
  {
    Pair(Max(a.first, b.first), Min(a.second, b.second))
  }

  /** `cross_area`: the area of the intersection rectangle of two
      overlapping boxes, no larger than either box. */
  function CrossArea(g: Box, t: Box): (r: int)
    requires !Separated(g, t)
    ensures 0 <= r <= BoxArea(g) && r <= BoxArea(t)
  {
    var xg := Sort(XPair(g));
    var yg := Sort(YPair(g));
    var xt := Sort(XPair(t));
    var yt := Sort(YPair(t));
    var x := Overlap(xg, xt);
    var y := Overlap(yg, yt);
    MulMono(x.second - x.first, xg.second - xg.first, y.second - y.first, yg.second - yg.first);
    MulMono(x.second - x.first, xt.second - xt.first, y.second - y.first, yt.second - yt.first);
    Area(x, y)
  }

  lemma MulMono(a: int, b: int, c: int, d: int)
    requires 0 <= a <= b && 0 <= c <= d
    ensures a * c <= b * d
  {
    assert a * c <= b * c;
    assert b * c <= b * d;
  }

  /** `gt_area + test_area - cross_area`: the area of the union, no smaller
      than either box. */
  function UnionArea(g: Box, t: Box): (r: int)
    requires !Separated(g, t)
    ensures r >= BoxArea(g) && r >= BoxArea(t)
  {
    BoxArea(g) + BoxArea(t) - CrossArea(g, t)
  }

  lemma SubsetCard<T>(a: set<T>, b: set<T>)
    requires a <= b
    ensures |a| <= |b|
  {
    assert b == a + (b - a);
  }

  /** The intersection rectangle of two overlapping boxes covers exactly
      the unit cells they share, and the union area counts the cells either
      covers. */
  lemma CrossAreaCountsCells(g: Box, t: Box)
    requires !Separated(g, t)
    ensures CrossArea(g, t) == |Cells(g) * Cells(t)|
    ensures UnionArea(g, t) == |Cells(g) + Cells(t)|
  {
    var xg := Sort(XPair(g));
    var yg := Sort(YPair(g));
    var xt := Sort(XPair(t));
    var yt := Sort(YPair(t));
    GridIntersection(xg.first, xg.second, yg.first, yg.second, xt.first, xt.second, yt.first, yt.second);
    AreaCountsCells(Overlap(xg, xt), Overlap(yg, yt));
    BoxAreaCountsCells(g);
    BoxAreaCountsCells(t);
  }

  /** computeIOU: 0 for separated boxes, otherwise the shared area over the
      combined area; fails exactly when two overlapping boxes both have zero
      area, the only case in which the union is empty. */
  function ComputeIou(g: Box, t: Box): (r: Result<real>)
    ensures r.Err? <==> !Separated(g, t) && BoxArea(g) == 0 && BoxArea(t) == 0
    ensures r.Err? ==> r.error == ZeroUnion
    ensures r.Ok? ==> 0.0 <= r.value <= 1.0
  {
    if Separated(g, t) then
      Ok(0.0)
    else
      var cross := CrossArea(g, t);
      var union := UnionArea(g, t);
      if union == 0 then Err(ZeroUnion) else Ok(Ratio(cross, union))
  }

  /** An exact quotient of two naturals, the smaller over the larger. */
  function Ratio(n: int, d: int): (r: real)
    requires 0 <= n <= d && d > 0
    ensures 0.0 <= r <= 1.0
    ensures r * d as real == n as real
  {
    n as real / d as real
  }

  lemma RatioSelf(n: int)
    requires n > 0
    ensures Ratio(n, n) == 1.0
  {
  }

  // ---------------------------------------------------------------------
  // Properties of computeIOU

  /** Separated boxes share no unit cell. */
  lemma SeparatedSharesNoCell(g: Box, t: Box)
    requires Separated(g, t)
    ensures Cells(g) * Cells(t) == {}
  {
    var xg := Sort(XPair(g));
    var yg := Sort(YPair(g));
    var xt := Sort(XPair(t));
    var yt := Sort(YPair(t));
    GridIntersection(xg.first, xg.second, yg.first, yg.second, xt.first, xt.second, yt.first, yt.second);
    GridCard(Max(xg.first, xt.first), Min(xg.second, xt.second), Max(yg.first, yt.first), Min(yg.second, yt.second));
  }

  /** For overlapping boxes the IoU is the ratio of the shared cells to the
      covered cells, or an error when no cell is covered. */
  lemma OverlappingIouIsCellRatio(g: Box, t: Box)
    requires !Separated(g, t)
    ensures Cells(g) + Cells(t) != {} ==>
      ComputeIou(g, t) == Ok(|Cells(g) * Cells(t)| as real / |Cells(g) + Cells(t)| as real)
    ensures Cells(g) + Cells(t) == {} ==> ComputeIou(g, t) == Err(ZeroUnion)
  {
    CrossAreaCountsCells(g, t);
    var cross := CrossArea(g, t);
    var union := UnionArea(g, t);
    if union == 0 {
      assert ComputeIou(g, t) == Err(ZeroUnion);
    } else {
      assert ComputeIou(g, t) == Ok(cross as real / union as real);
    }
  }

  /** The IoU is the number of shared unit cells over the number of covered
      unit cells whenever the boxes cover any cell at all. */
  lemma IouIsCellRatio(g: Box, t: Box)
    requires Cells(g) + Cells(t) != {}
    ensures ComputeIou(g, t) == Ok(|Cells(g) * Cells(t)| as real / |Cells(g) + Cells(t)| as real)
  {
    if Separated(g, t) {
      SeparatedSharesNoCell(g, t);
      SeparatedIouZero(g, t);
      assert |Cells(g) * Cells(t)| == 0;
    } else {
      OverlappingIouIsCellRatio(g, t);
    }
  }

  /** Boxes that cover no cell at all score 0 when separated and fail with
      a zero union otherwise. */
  lemma EmptyCoverIou(g: Box, t: Box)
    requires Cells(g) + Cells(t) == {}
    ensures ComputeIou(g, t) == if Separated(g, t) then Ok(0.0) else Err(ZeroUnion)
  {
    if !Separated(g, t) {
      OverlappingIouIsCellRatio(g, t);
    }
  }

  /** computeIOU does not care which box is the ground truth. */
  lemma IouSymmetric(g: Box, t: Box)
    ensures ComputeIou(g, t) == ComputeIou(t, g)
  {
  }

  /** Reversing either axis of either box leaves the IoU unchanged. */
  lemma IouOrientationFree(g: Box, t: Box)
    ensures ComputeIou(FlipX(g), t) == ComputeIou(g, t)
    ensures ComputeIou(FlipY(g), t) == ComputeIou(g, t)
    ensures ComputeIou(g, FlipX(t)) == ComputeIou(g, t)
    ensures ComputeIou(g, FlipY(t)) == ComputeIou(g, t)
  {
    SortSwap(XPair(g));
    SortSwap(YPair(g));
    SortSwap(XPair(t));
    SortSwap(YPair(t));
  }

  /** Separated boxes, including boxes touching along an edge or at a
      corner, have IoU exactly 0. */
  lemma SeparatedIouZero(g: Box, t: Box)
    requires Separated(g, t)
    ensures ComputeIou(g, t) == Ok(0.0)
  {
  }

  /** Two boxes of positive area always have an IoU, and it lies in [0, 1]. */
  lemma PositiveAreaIouInRange(g: Box, t: Box)
    requires BoxArea(g) > 0 && BoxArea(t) > 0
    ensures ComputeIou(g, t).Ok?
    ensures 0.0 <= ComputeIou(g, t).value <= 1.0
  {
  }

  /** A box of positive area compared with itself scores 1; a box of zero
      area is separated from itself and scores 0. */
  lemma SelfIou(a: Box)
    ensures BoxArea(a) > 0 ==> ComputeIou(a, a) == Ok(1.0)
    ensures BoxArea(a) == 0 ==> ComputeIou(a, a) == Ok(0.0)
  {
    if BoxArea(a) > 0 {
      var x := Sort(XPair(a));
      var y := Sort(YPair(a));
      assert Overlap(x, x) == x && Overlap(y, y) == y;
      assert !Separated(a, a);
      assert CrossArea(a, a) == BoxArea(a);
      assert UnionArea(a, a) == BoxArea(a);
      RatioSelf(BoxArea(a));
    }
  }

  lemma EqualCardSubset<T>(a: set<T>, b: set<T>)
    requires a <= b && |a| == |b|
    ensures a == b
  {
    assert b == a + (b - a);
  }

  /** Of two cell sets covering something, shared over covered is 1 exactly
      when the sets coincide. */
  lemma CellRatioOne(a: set<(int, int)>, b: set<(int, int)>)
    requires a + b != {}
    ensures |a * b| as real / |a + b| as real == 1.0 <==> a == b
  {
    if |a * b| as real / |a + b| as real == 1.0 {
      assert |a * b| == |a + b|;
      EqualCardSubset(a * b, a + b);
    }
    if a == b {
      assert a * b == a + b;
    }
  }

  /** The IoU is 1 exactly when both boxes cover the same nonempty set of cells. */
  lemma IouOneIffSameCells(g: Box, t: Box)
    ensures ComputeIou(g, t) == Ok(1.0) <==> Cells(g) == Cells(t) && Cells(g) != {}
  {
    if Cells(g) + Cells(t) != {} {
      IouIsCellRatio(g, t);
      CellRatioOne(Cells(g), Cells(t));
    } else {
      EmptyCoverIou(g, t);
      assert ComputeIou(g, t) != Ok(1.0);
    }
  }

  /** Worked example: a 4x4 box and its copy shifted by (2, 2) share 4 of
      28 covered cells. */
  lemma PartialOverlapExample()
    ensures ComputeIou(Box(0, 0, 4, 4), Box(2, 2, 6, 6)) == Ok(4.0 / 28.0)
  {
  }

  /** Worked examples: boxes sharing only an edge, or only a corner, score 0. */
  lemma TouchingExample()
    ensures ComputeIou(Box(0, 0, 4, 4), Box(4, 0, 8, 4)) == Ok(0.0)
    ensures ComputeIou(Box(0, 0, 4, 4), Box(4, 4, 8, 8)) == Ok(0.0)
  {
  }

  /** Worked example: a vertical and a horizontal segment crossing each other
      overlap with zero union, which fails. */
  lemma DegenerateCrossExample()
    ensures ComputeIou(Box(5, 0, 5, 10), Box(0, 5, 10, 5)) == Err(ZeroUnion)
  {
  }

}
