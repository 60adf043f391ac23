/** Axis-aligned integer bounding boxes and their areas (computeArea in utils.py).

    A box is four pixel coordinates `(xmin, ymin, xmax, ymax)`; nothing forces
    `xmin <= xmax` or `ymin <= ymax`, so every consumer sorts each axis pair
    first. As an independent reference for "area" the module defines the set of
    integer unit cells a box covers and proves that computeArea counts them.
 */
module Boxes {

  datatype Box = Box(xmin: int, ymin: int, xmax: int, ymax: int)

  /** Two coordinates on one axis, as the source's two-element lists. */
  datatype Pair = Pair(first: int, second: int)

  function XPair(b: Box): Pair { Pair(b.xmin, b.xmax) }

  function YPair(b: Box): Pair { Pair(b.ymin, b.ymax) }

  function Swap(p: Pair): Pair { Pair(p.second, p.first) }

  /** The box mirrored on the x axis: xmin and xmax exchanged. */
  function FlipX(b: Box): Box { Box(b.xmax, b.ymin, b.xmin, b.ymax) }

  /** The box mirrored on the y axis: ymin and ymax exchanged. */
  function FlipY(b: Box): Box { Box(b.xmin, b.ymax, b.xmax, b.ymin) }

  /** `list.sort()` on a two-element list: the same two values, ascending. */
  function Sort(p: Pair): (s: Pair)
    ensures s.first <= s.second
    ensures s == p || s == Swap(p)
  {
    if p.first <= p.second then p else Swap(p)
  }

  function Abs(x: int): int { if x < 0 then -x else x }

  /** computeArea: the product of the two side lengths, whatever the order of
      the endpoints of each side. */
  function Area(x: Pair, y: Pair): (r: int)
    ensures r >= 0
    ensures r == 0 <==> x.first == x.second || y.first == y.second
  {
    Abs(x.first - x.second) * Abs(y.first - y.second)
  }

  /** The area of a box as computeIOU computes it, from the sorted axis pairs. */
  function BoxArea(b: Box): (r: int)
    ensures r >= 0
    ensures r == 0 <==> b.xmin == b.xmax || b.ymin == b.ymax
  {
    Area(Sort(XPair(b)), Sort(YPair(b)))
  }

  /** Swapping the endpoints of either interval leaves the area unchanged. */
  lemma AreaSwapInvariant(x: Pair, y: Pair)
    ensures Area(Swap(x), y) == Area(x, y)
    ensures Area(x, Swap(y)) == Area(x, y)
  {
  }

  /** Sorting an axis pair forgets which endpoint came first. */
  lemma SortSwap(p: Pair)
    ensures Sort(Swap(p)) == Sort(p)
  {
  }

  // ---------------------------------------------------------------------
  // Reference definition: unit cells

  /** Number of integers in the half-open range [lo, hi). */
  function Len(lo: int, hi: int): nat
  {
    if lo <= hi then hi - lo else 0
  }

  /** The unit cells (i, j) with lo1 <= i < hi1 and lo2 <= j < hi2. */
  ghost function Grid(lo1: int, hi1: int, lo2: int, hi2: int): set<(int, int)>
  {
    set i, j | lo1 <= i < hi1 && lo2 <= j < hi2 :: (i, j)
  }

  /** The cells of one column i of a grid. */
  ghost function Column(i: int, lo2: int, hi2: int): set<(int, int)>
  {
    set j | lo2 <= j < hi2 :: (i, j)
  }

  /** The unit cells covered by a box, after its axis pairs are sorted. */
  ghost function Cells(b: Box): set<(int, int)>
  {
    var x := Sort(XPair(b));
    var y := Sort(YPair(b));
    Grid(x.first, x.second, y.first, y.second)
  }

  lemma {:induction false} ColumnCard(i: int, lo2: int, hi2: int)
    ensures |Column(i, lo2, hi2)| == Len(lo2, hi2)
    decreases Len(lo2, hi2)
  {
    if hi2 <= lo2 {
      assert Column(i, lo2, hi2) == {};
    } else {
      assert Column(i, lo2, hi2) == Column(i, lo2, hi2 - 1) + {(i, hi2 - 1)};
      ColumnCard(i, lo2, hi2 - 1);
    }
  }

  lemma MulStep(n: int, m: int)
    ensures (n + 1) * m == n * m + m
  {
  }

  /** A grid of w by h cells has w * h cells. */
  lemma {:induction false} GridCard(lo1: int, hi1: int, lo2: int, hi2: int)
    ensures |Grid(lo1, hi1, lo2, hi2)| == Len(lo1, hi1) * Len(lo2, hi2)
    decreases Len(lo1, hi1)
  {
    if hi1 <= lo1 {
      assert Grid(lo1, hi1, lo2, hi2) == {};
    } else {
      var g := Grid(lo1, hi1, lo2, hi2);
      var rest := Grid(lo1, hi1 - 1, lo2, hi2);
      var col := Column(hi1 - 1, lo2, hi2);
      assert g == rest + col;
      assert rest !! col;
      GridCard(lo1, hi1 - 1, lo2, hi2);
      ColumnCard(hi1 - 1, lo2, hi2);
      MulStep(Len(lo1, hi1 - 1), Len(lo2, hi2));
    }
  }

  /** Two grids meet in the grid of the larger lower bounds and smaller upper bounds. */
  lemma GridIntersection(a1: int, b1: int, c1: int, d1: int, a2: int, b2: int, c2: int, d2: int)
    ensures Grid(a1, b1, c1, d1) * Grid(a2, b2, c2, d2)
         == Grid(Max(a1, a2), Min(b1, b2), Max(c1, c2), Min(d1, d2))
  {
    var lhs := Grid(a1, b1, c1, d1) * Grid(a2, b2, c2, d2);
    var rhs := Grid(Max(a1, a2), Min(b1, b2), Max(c1, c2), Min(d1, d2));
    forall p | p in lhs ensures p in rhs {
      assert p.0 < Min(b1, b2);
    }
    forall p | p in rhs ensures p in lhs {
      assert p in Grid(a1, b1, c1, d1);
      assert p in Grid(a2, b2, c2, d2);
    }
  }

  function Max(a: int, b: int): int { if a >= b then a else b }

  function Min(a: int, b: int): int { if a <= b then a else b }

  /** computeArea of two sorted pairs counts the unit cells they span. */
  lemma AreaCountsCells(x: Pair, y: Pair)
    requires x.first <= x.second && y.first <= y.second
    ensures Area(x, y) == |Grid(x.first, x.second, y.first, y.second)|
  {
    GridCard(x.first, x.second, y.first, y.second);
  }

  /** The area of a box is the number of unit cells it covers. */
  lemma BoxAreaCountsCells(b: Box)
    ensures BoxArea(b) == |Cells(b)|
  {
    AreaCountsCells(Sort(XPair(b)), Sort(YPair(b)));
  }

}
