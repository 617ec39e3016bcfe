/** The two point-in-convex-polygon tests of src/server/algo.py. */
module Locate {
  import opened Projection
  import opened Hull

  /** The edge test of the linear variant for edge i. */
  function EdgeCross(point: Point2D, convex: seq<Point2D>, i: nat): int
    requires i < |convex|
  {
    Cross(Sub(convex[i], point), Sub(convex[(i + 1) % |convex|], point))
  }

  /** The point lies on the left of, or on, every edge i -> (i + 1) % len
      with i < len - 1. */
  predicate InsideEdges(point: Point2D, convex: seq<Point2D>) {
    forall i :: 0 <= i < |convex| - 1 ==> EdgeCross(point, convex, i) >= 0
  }

  /** point_in_convex_linear: False exactly when some edge i with
      i < len - 1 has the point strictly on its right. */
  method PointInConvexLinear(point: Point2D, convex: seq<Point2D>) returns (r: bool)
    ensures !r <==> exists i :: 0 <= i < |convex| - 1 && EdgeCross(point, convex, i) < 0
    ensures r == InsideEdges(point, convex)
  {
    var i := 0;
    while i < |convex| - 1
      invariant 0 <= i <= if |convex| == 0 then 0 else |convex| - 1
      invariant forall j :: 0 <= j < i ==> EdgeCross(point, convex, j) >= 0
    {
      if Cross(Sub(convex[i], point), Sub(convex[(i + 1) % |convex|], point)) < 0 {
        assert EdgeCross(point, convex, i) < 0;
        return false;
      }
      i := i + 1;
    }
    return true;
  }

  /** The loop bound i < len - 1 keeps the modulo from ever wrapping, so no
      edge from the last entry back to the first is checked; on a closed ring
      (first entry repeated at the end) the closing edge is the last one. */
  lemma LinearEdgesDoNotWrap(convex: seq<Point2D>, i: nat)
    requires i < |convex| - 1
    ensures (i + 1) % |convex| == i + 1
  {
  }

  /** The fan predicate of the binary search, relative to the pivot
      convex[0]. */
  function FanCross(point: Point2D, convex: seq<Point2D>, m: nat): int
    requires m < |convex|
  {
    Cross(Sub(convex[m], convex[0]), Sub(point, convex[0]))
  }

  /** What the search keeps: lb is the pivot or has the point on its left
      side of the fan; rb is the last entry or has it strictly on the right. */
  predicate SectorBounds(point: Point2D, convex: seq<Point2D>, lb: nat, rb: nat)
    requires lb <= rb < |convex|
  {
    (lb == 0 || FanCross(point, convex, lb) >= 0)
    && (rb == |convex| - 1 || FanCross(point, convex, rb) < 0)
  }

  /** The binary search of point_in_convex, from the bounds (lb, rb). */
  function Search(point: Point2D, convex: seq<Point2D>, lb: nat, rb: nat): (r: (nat, nat))
    requires lb <= rb < |convex|
    ensures lb <= r.0 <= r.1 <= rb
    ensures rb - lb >= 1 ==> r.1 == r.0 + 1
    ensures rb - lb <= 1 ==> r == (lb, rb)
    ensures SectorBounds(point, convex, lb, rb) ==> SectorBounds(point, convex, r.0, r.1)
    decreases rb - lb
  {
    if rb - lb > 1 then
      var mid := (lb + rb) / 2;
      if FanCross(point, convex, mid) >= 0 then Search(point, convex, mid, rb)
      else Search(point, convex, lb, mid)
    else (lb, rb)
  }

  /** The final cross test of point_in_convex. */
  predicate InConvex(point: Point2D, convex: seq<Point2D>)
    requires |convex| >= 1
  {
    var (lb, rb) := Search(point, convex, 0, |convex| - 1);
    Cross(Sub(convex[lb], point), Sub(convex[rb], point)) >= 0
  }

  /** For two or more entries the search ends on two adjacent entries
      0 <= lb < rb = lb + 1 <= len - 1 that bound the point's fan sector, and
      the answer is the final cross test on them. */
  lemma SearchSector(point: Point2D, convex: seq<Point2D>)
    requires |convex| >= 2
    ensures var (lb, rb) := Search(point, convex, 0, |convex| - 1);
      rb == lb + 1 <= |convex| - 1 && SectorBounds(point, convex, lb, rb)
      && (InConvex(point, convex) <==> Cross(Sub(convex[lb], point), Sub(convex[rb], point)) >= 0)
  {
  }

  /** point_in_convex. */
  method PointInConvex(point: Point2D, convex: seq<Point2D>) returns (r: bool)
    requires |convex| >= 1
    ensures r == InConvex(point, convex)
  {
    var lb: nat := 0;
    var rb: nat := |convex| - 1;
    while rb - lb > 1
      invariant lb <= rb < |convex|
      invariant Search(point, convex, lb, rb) == Search(point, convex, 0, |convex| - 1)
    {
      var mid := (lb + rb) / 2;
      if Cross(Sub(convex[mid], convex[0]), Sub(point, convex[0])) >= 0 {
        lb := mid;
      } else {
        rb := mid;
      }
    }
    return Cross(Sub(convex[lb], point), Sub(convex[rb], point)) >= 0;
  }
}
