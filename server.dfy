/** The synchronous logic of the two region handlers of
    src/server/server.py. A request's polygon arrives as a list of grid
    points; the raster is the processed array the server holds. Every
    exception of the handler body becomes an error payload carrying the
    exception's message. */
module Server {
  import opened Wrappers
  import opened Projection
  import Hull
  import Locate
  import Scanline
  import Accessor
  import DataManip

  /** The JSON payloads: {'convex', 'population'}, {'grid'} or {'error'}. */
  datatype Response =
    | Total(convex: seq<Point2D>, population: int)
    | Grid(grid: seq<seq<int>>)
    | Failure(error: string)

  const TooFewPoints: string := "Too few points."
  const BadWidth: string := "Grid width must be positive."

  // ---------------------------------------------------------------------
  // total_handler

  /** total_handler: the hull of the points and the population inside it. */
  function TotalSpec(points: seq<Point2D>, data: array2<int>): Response
    reads data
    requires Accessor.Shaped(data)
  {
    if |points| < 3 then Failure(TooFewPoints)
    else
      var hull := Hull.ConvexHullOf(points);
      var ans := Scanline.WholeConvex(hull, data);
      if ans.Err? then Failure(ans.msg) else Total(hull, ans.value)
  }

  method TotalHandler(points: seq<Point2D>, data: array2<int>) returns (resp: Response)
    requires Accessor.Shaped(data)
    ensures resp == TotalSpec(points, data)
  {
    if |points| < 3 {
      return Failure(TooFewPoints);
    }
    var p := new Point2D[|points|](i requires 0 <= i < |points| => points[i]);
    assert p[..] == points;
    var convex := Hull.CalcConvex(p);
    var ans := Scanline.CalcWholeConvex(convex, data);
    if ans.Err? {
      return Failure(ans.msg);
    }
    resp := Total(convex, ans.value);
  }

  /** For a polygon inside the raster, total_handler answers with a closed
      ring of input points and the population summed over the rows the
      ring's edges cross; with no negative data the population is at
      least 0. */
  lemma TotalInRaster(points: seq<Point2D>, data: array2<int>, tiles: seq<DataManip.Tile>)
    requires Accessor.Processed(data, tiles) && |points| >= 3
    requires forall i :: 0 <= i < |points| ==> Scanline.InRaster(points[i])
    ensures var hull := Hull.ConvexHullOf(points); var s := Scanline.Boundary(hull);
      TotalSpec(points, data) == Total(hull, Scanline.CoveredSum(tiles, Scanline.KeyOrder(s), s))
      && |hull| >= 3 && hull[0] == hull[|hull| - 1]
      && (forall k :: 0 <= k < |hull| ==> hull[k] in points)
    ensures DataManip.NoNegativeData(tiles) ==> TotalSpec(points, data).population >= 0
  {
    var hull := Hull.ConvexHullOf(points);
    Hull.HullRing(points);
    forall i | 0 <= i < |hull| ensures Scanline.InRaster(hull[i]) {
      var j :| 0 <= j < |points| && points[j] == hull[i];
    }
    Scanline.WholeConvexInRaster(hull, data, tiles);
  }

  // ---------------------------------------------------------------------
  // grid_handler

  function Xs(points: seq<Point2D>): seq<int> {
    seq(|points|, i requires 0 <= i < |points| => points[i].x)
  }

  function Ys(points: seq<Point2D>): seq<int> {
    seq(|points|, i requires 0 <= i < |points| => points[i].y)
  }

  lemma HullSize(points: seq<Point2D>)
    requires |points| >= 3
    ensures |Hull.ConvexHullOf(points)| >= 3
  {
    Hull.HullRing(points);
  }

  /** The bounding box of the points is not empty. */
  lemma BoxBounds(points: seq<Point2D>)
    requires |points| >= 1
    ensures Scanline.SeqMin(Xs(points)) <= Scanline.SeqMax(Xs(points))
    ensures Scanline.SeqMin(Ys(points)) <= Scanline.SeqMax(Ys(points))
  {
    Scanline.SeqMinMax(Xs(points));
    Scanline.SeqMinMax(Ys(points));
  }

  /** The length of range(lo, hi + 1, w), counted one step at a time. */
  function Steps(lo: int, hi: int, w: int): nat
    requires w > 0
    decreases hi - lo + w
  {
    if lo > hi then 0 else 1 + Steps(lo + w, hi, w)
  }

  /** lo + n * w is inside range(lo, hi + 1, w) exactly for n < Steps. */
  lemma {:induction false} StepCount(lo: int, hi: int, w: int, n: nat)
    requires w > 0
    ensures lo + n * w <= hi <==> n < Steps(lo, hi, w)
    decreases n
  {
    if n > 0 {
      StepCount(lo + w, hi, w, n - 1);
      assert lo + n * w == (lo + w) + (n - 1) * w;
      if lo > hi {
        Scanline.MulMono(w, 0, n);
      }
    }
  }

  /** A loop over range(lo, hi + 1, w) that has passed hi has made all its
      steps. */
  lemma StepsDone(lo: int, hi: int, w: int, k: nat, v: int)
    requires w > 0 && v == lo + k * w && v > hi && k <= Steps(lo, hi, w)
    ensures k == Steps(lo, hi, w)
  {
    StepCount(lo, hi, w, k);
  }

  /** The count is the one the source's comprehension sizes imply:
      (hi - lo) div w + 1 for a non-empty range. */
  lemma {:induction false} StepsClosedForm(lo: int, hi: int, w: int)
    requires lo <= hi && w > 0
    ensures Steps(lo, hi, w) == (hi - lo) / w + 1
    decreases hi - lo
  {
    if lo + w <= hi {
      StepsClosedForm(lo + w, hi, w);
      var d := hi - lo - w;
      var q, r := d / w, d % w;
      assert d == w * q + r && 0 <= r < w;
      DivUnique(hi - lo, w, q + 1, r);
    } else {
      DivUnique(hi - lo, w, 0, hi - lo);
    }
  }

  lemma DivUnique(a: int, w: int, q: int, r: int)
    requires w > 0 && a == w * q + r && 0 <= r < w
    ensures a / w == q
  {
    var q', r' := a / w, a % w;
    assert a == w * q' + r' && 0 <= r' < w;
    if q' < q {
      Scanline.MulMono(w, q' + 1, q);
    } else if q < q' {
      Scanline.MulMono(w, q + 1, q');
    }
  }

  /** The four corners of the cell at (x, y), in the order they are checked. */
  function Corners(x: int, y: int, w: int): seq<Point2D> {
    [Point2D(x, y), Point2D(x + w, y), Point2D(x, y + w), Point2D(x + w, y + w)]
  }

  /** The closed ring calc_convex returns for the corners of a cell. */
  function SquareRing(x: int, y: int, w: int): seq<Point2D> {
    [Point2D(x, y), Point2D(x + w, y), Point2D(x + w, y + w), Point2D(x, y + w), Point2D(x, y)]
  }

  /** The corners of a cell in (x, y) order. */
  function SortedCorners(x: int, y: int, w: int): seq<Point2D> {
    [Point2D(x, y), Point2D(x, y + w), Point2D(x + w, y), Point2D(x + w, y + w)]
  }

  lemma SquareSorted(x: int, y: int, w: int)
    requires w > 0
    ensures Hull.SortPoints(Corners(x, y, w)) == SortedCorners(x, y, w)
  {
    CornersSorted(x, y, w);
    CornersPermuted(x, y, w);
    Hull.SortedUnique(Hull.SortPoints(Corners(x, y, w)), SortedCorners(x, y, w));
  }

  lemma CornersSorted(x: int, y: int, w: int)
    requires w > 0
    ensures Hull.Sorted(SortedCorners(x, y, w))
  {
  }

  lemma CornersPermuted(x: int, y: int, w: int)
    ensures multiset(SortedCorners(x, y, w)) == multiset(Corners(x, y, w))
  {
  }

  /** The lower chain keeps the bottom-left, bottom-right and top-right
      corners: the top-left one makes a right turn and is popped. */
  lemma SquareLower(x: int, y: int, w: int)
    requires w > 0
    ensures Hull.LowerChain(SortedCorners(x, y, w)) == [0, 2, 3]
  {
    var p := SortedCorners(x, y, w);
    LowerFirst(p);
    LowerSecond(x, y, w);
    LowerThird(x, y, w);
  }

  lemma LowerFirst(p: seq<Point2D>)
    requires |p| == 4
    ensures Hull.LowerFrom(p, 1, [0]) == Hull.LowerFrom(p, 2, [0, 1])
  {
    assert Hull.PopWhile(p, [0], 1, 1) == [0];
    assert [0] + [1] == [0, 1];
  }

  lemma LowerSecond(x: int, y: int, w: int)
    requires w > 0
    ensures Hull.LowerFrom(SortedCorners(x, y, w), 2, [0, 1]) == Hull.LowerFrom(SortedCorners(x, y, w), 3, [0, 2])
  {
    var p := SortedCorners(x, y, w);
    assert Hull.Turn(p, 0, 1, 2) == -w * w;
    assert Hull.PopWhile(p, [0], 2, 1) == [0];
    assert Hull.PopWhile(p, [0, 1], 2, 1) == [0];
    assert [0] + [2] == [0, 2];
  }

  lemma LowerThird(x: int, y: int, w: int)
    requires w > 0
    ensures Hull.LowerFrom(SortedCorners(x, y, w), 3, [0, 2]) == [0, 2, 3]
  {
    var p := SortedCorners(x, y, w);
    assert Hull.Turn(p, 0, 2, 3) == w * w;
    assert Hull.PopWhile(p, [0, 2], 3, 1) == [0, 2];
    assert [0, 2] + [3] == [0, 2, 3];
    assert Hull.LowerFrom(p, 4, [0, 2, 3]) == [0, 2, 3];
  }

  /** The upper chain adds the top-left corner and closes on the first. */
  lemma SquareUpper(x: int, y: int, w: int)
    requires w > 0
    ensures Hull.UpperFrom(SortedCorners(x, y, w), 2, [0, 2, 3], 3) == [0, 2, 3, 1, 0]
  {
    var p := SortedCorners(x, y, w);
    assert Hull.Turn(p, 2, 3, 1) == w * w;
    assert Hull.Turn(p, 3, 1, 0) == w * w;
    assert Hull.PopWhile(p, [0, 2, 3], 1, 3) + [1] == [0, 2, 3, 1];
    assert Hull.PopWhile(p, [0, 2, 3, 1], 0, 3) + [0] == [0, 2, 3, 1, 0];
    assert Hull.UpperFrom(p, -1, [0, 2, 3, 1, 0], 3) == [0, 2, 3, 1, 0];
    assert Hull.UpperFrom(p, 0, [0, 2, 3, 1], 3) == [0, 2, 3, 1, 0];
    assert Hull.UpperFrom(p, 1, [0, 2, 3], 3) == [0, 2, 3, 1, 0];
  }

  /** calc_convex on the four corners of a cell of positive width gives the
      square, counter-clockwise from its lowest corner and closed. */
  lemma SquareHull(x: int, y: int, w: int)
    requires w > 0
    ensures Hull.ConvexHullOf(Corners(x, y, w)) == SquareRing(x, y, w)
  {
    SquareSorted(x, y, w);
    SquareChain(x, y, w);
  }

  lemma SquareChain(x: int, y: int, w: int)
    requires w > 0
    ensures Hull.Gather(SortedCorners(x, y, w), Hull.ChainIndices(SortedCorners(x, y, w))) == SquareRing(x, y, w)
  {
    var p := SortedCorners(x, y, w);
    SquareLower(x, y, w);
    SquareUpper(x, y, w);
    assert Hull.ChainIndices(p) == [0, 2, 3, 1, 0];
  }

  /** The updates calc_whole_convex makes for the square ring: its four
      sides, in order. */
  function SquareSides(x: int, y: int, w: int): seq<(int, int)>
    requires w > 0
  {
    seq(w + 1, j => (x + j, y)) + seq(w + 1, j => (x + w, y + j))
    + seq(w + 1, j => (x + j, y + w)) + seq(w + 1, j => (x, y + j))
  }

  lemma SquareBoundary(x: int, y: int, w: int)
    requires w > 0
    ensures Scanline.Boundary(SquareRing(x, y, w)) == SquareSides(x, y, w)
  {
    var r := SquareRing(x, y, w);
    RingOfFour(r);
    RowSide(x, x + w, y);
    ColumnSide(x + w, y, y + w);
    RowSide(x + w, x, y + w);
    ColumnSide(x, y + w, y);
  }

  /** A closed ring of four sides is aggregated side by side. */
  lemma RingOfFour(r: seq<Point2D>)
    requires |r| == 5
    ensures Scanline.Boundary(r) == Scanline.EdgeSamples(r[0], r[1]) + Scanline.EdgeSamples(r[1], r[2])
                                    + Scanline.EdgeSamples(r[2], r[3]) + Scanline.EdgeSamples(r[3], r[4])
  {
    Scanline.EdgesUpToNext(r, 0);
    assert Scanline.EdgesUpTo(r, 1) == Scanline.EdgeSamples(r[0], r[1]);
    Scanline.EdgesUpToNext(r, 1);
    Scanline.EdgesUpToNext(r, 2);
    Scanline.EdgesUpToNext(r, 3);
  }

  /** The samples of a side along a row, from either end. */
  lemma RowSide(a: int, b: int, y: int)
    ensures Scanline.EdgeSamples(Point2D(a, y), Point2D(b, y))
         == seq(Scanline.Max(a, b) - Scanline.Min(a, b) + 1, j => (Scanline.Min(a, b) + j, y))
  {
  }

  /** The samples of a side along a column, from either end. */
  lemma ColumnSide(x: int, a: int, b: int)
    requires a != b
    ensures Scanline.EdgeSamples(Point2D(x, a), Point2D(x, b))
         == seq(Scanline.Max(a, b) - Scanline.Min(a, b) + 1, j => (x, Scanline.Min(a, b) + j))
  {
  }

  /** Every side sample of a cell lies in the cell's box. */
  lemma SquareSidesInBox(x: int, y: int, w: int, i: nat)
    requires w > 0 && i < |SquareSides(x, y, w)|
    ensures var q := SquareSides(x, y, w)[i]; x <= q.0 <= x + w && y <= q.1 <= y + w
  {
    var s := SquareSides(x, y, w);
    if i < w + 1 {
      assert s[i] == (x + i, y);
    } else if i < 2 * (w + 1) {
      assert s[i] == (x + w, y + i - (w + 1));
    } else if i < 3 * (w + 1) {
      assert s[i] == (x + i - 2 * (w + 1), y + w);
    } else {
      assert s[i] == (x, y + i - 3 * (w + 1));
    }
  }

  /** Row k of the cell is sampled at both its bottom and its top column. */
  lemma SquareSidesEnds(x: int, y: int, w: int, k: int)
    requires w > 0 && x <= k <= x + w
    ensures var s := SquareSides(x, y, w);
      s[k - x] == (k, y) && s[2 * (w + 1) + k - x] == (k, y + w)
  {
  }

  /** The keys of a cell's interval map are its rows. */
  lemma SquareKeys(x: int, y: int, w: int, k: int)
    requires w > 0
    ensures |Scanline.ValuesFor(SquareSides(x, y, w), k)| > 0 <==> x <= k <= x + w
  {
    var s := SquareSides(x, y, w);
    Scanline.KeyOrderSpec(s);
    if x <= k <= x + w {
      SquareSidesEnds(x, y, w, k);
    } else if |Scanline.ValuesFor(s, k)| > 0 {
      var i :| 0 <= i < |s| && s[i].0 == k;
      SquareSidesInBox(x, y, w, i);
    }
  }

  /** Row k of the cell is summed over the columns y..y + w. */
  lemma SquareRowInterval(x: int, y: int, w: int, k: int)
    requires w > 0 && x <= k <= x + w
    ensures var vs := Scanline.ValuesFor(SquareSides(x, y, w), k);
      |vs| > 0 && Scanline.SeqMin(vs) == y && Scanline.SeqMax(vs) == y + w
  {
    var s := SquareSides(x, y, w);
    var vs := Scanline.ValuesFor(s, k);
    Scanline.ValuesForSpec(s, k);
    SquareSidesEnds(x, y, w, k);
    assert y in vs && y + w in vs;
    forall v | v in vs ensures y <= v <= y + w {
      var i :| 0 <= i < |s| && s[i] == (k, v);
      SquareSidesInBox(x, y, w, i);
    }
    Scanline.SeqMinMax(vs);
  }

  /** A cell of width w sums rows x..x + w, each over the columns
      y..y + w, both ends included: (w + 1) * (w + 1) raster cells. */
  lemma SquareIntervals(x: int, y: int, w: int)
    requires w > 0
    ensures var s := Scanline.Boundary(SquareRing(x, y, w));
      forall k :: |Scanline.ValuesFor(s, k)| > 0 <==> x <= k <= x + w
    ensures var s := Scanline.Boundary(SquareRing(x, y, w));
      forall k :: x <= k <= x + w ==>
        Scanline.SeqMin(Scanline.ValuesFor(s, k)) == y && Scanline.SeqMax(Scanline.ValuesFor(s, k)) == y + w
  {
    SquareBoundary(x, y, w);
    forall k ensures |Scanline.ValuesFor(SquareSides(x, y, w), k)| > 0 <==> x <= k <= x + w {
      SquareKeys(x, y, w, k);
    }
    forall k | x <= k <= x + w
      ensures Scanline.SeqMin(Scanline.ValuesFor(SquareSides(x, y, w), k)) == y
      ensures Scanline.SeqMax(Scanline.ValuesFor(SquareSides(x, y, w), k)) == y + w
    {
      SquareRowInterval(x, y, w, k);
    }
  }

  /** Some of the points c[k..] of the four corners c is inside the hull:
      the corner loop from index k on. */
  predicate AnyFrom(hull: seq<Point2D>, c: seq<Point2D>, k: nat)
    requires |hull| >= 1 && |c| == 4 && k <= 4
    decreases 4 - k
  {
    k < 4 && (Locate.InConvex(c[k], hull) || AnyFrom(hull, c, k + 1))
  }

  lemma {:induction false} AnyFromSpec(hull: seq<Point2D>, c: seq<Point2D>, k: nat)
    requires |hull| >= 1 && |c| == 4 && k <= 4
    ensures AnyFrom(hull, c, k) <==> exists j :: k <= j < 4 && Locate.InConvex(c[j], hull)
    decreases 4 - k
  {
    if k < 4 {
      AnyFromSpec(hull, c, k + 1);
    }
  }

  predicate AnyCornerInside(hull: seq<Point2D>, x: int, y: int, w: int)
    requires |hull| >= 1
  {
    AnyFrom(hull, Corners(x, y, w), 0)
  }

  /** How many of the corners c[k..] the corner loop tests from index k on:
      up to and including the first one inside, or all of them. */
  function TestedFrom(hull: seq<Point2D>, c: seq<Point2D>, k: nat): (n: nat)
    requires |hull| >= 1 && |c| == 4 && k <= 4
    ensures k <= n <= 4 && (k < 4 ==> k < n)
    decreases 4 - k
  {
    if k == 4 then 4
    else if Locate.InConvex(c[k], hull) then k + 1
    else TestedFrom(hull, c, k + 1)
  }

  /** The corner loop tests at least one more corner, and every checked
      corner but the last is outside the hull. */
  lemma {:induction false} TestedFromSkips(hull: seq<Point2D>, c: seq<Point2D>, k: nat)
    requires |hull| >= 1 && |c| == 4 && k < 4
    ensures forall j :: k <= j < TestedFrom(hull, c, k) - 1 ==> !Locate.InConvex(c[j], hull)
    decreases 4 - k
  {
    if k < 3 && !Locate.InConvex(c[k], hull) {
      TestedFromSkips(hull, c, k + 1);
    }
  }

  /** The last corner checked is inside exactly when some corner is: the loop
      stops at the first corner inside. */
  lemma {:induction false} TestedFromStops(hull: seq<Point2D>, c: seq<Point2D>, k: nat)
    requires |hull| >= 1 && |c| == 4 && k < 4
    ensures 1 <= TestedFrom(hull, c, k)
    ensures AnyFrom(hull, c, k) <==> Locate.InConvex(c[TestedFrom(hull, c, k) - 1], hull)
    decreases 4 - k
  {
    if k < 3 && !Locate.InConvex(c[k], hull) {
      TestedFromStops(hull, c, k + 1);
    }
  }

  /** One cell: -1 when no corner is inside, otherwise the population of
      the hull of the cell's four corners. */
  function CellSpec(hull: seq<Point2D>, x: int, y: int, w: int, data: array2<int>): Result<int>
    reads data
    requires |hull| >= 1 && Accessor.Shaped(data)
  {
    if !AnyCornerInside(hull, x, y, w) then Ok(-1)
    else Scanline.WholeConvex(SquareRing(x, y, w), data)
  }

  /** The values of rs in order, or the first error among them: a loop
      that appends each value and lets the first exception escape. */
  function Collect<T>(rs: seq<Result<T>>): Result<seq<T>> {
    if rs == [] then Ok([])
    else
      var prev := Collect(rs[..|rs| - 1]);
      var last := rs[|rs| - 1];
      if prev.Err? then prev
      else if last.Err? then Err(last.msg)
      else Ok(prev.value + [last.value])
  }

  /** Collect succeeds exactly when every element does, and then gives
      their values in order. */
  lemma {:induction false} CollectSpec<T>(rs: seq<Result<T>>)
    ensures Collect(rs).Ok? <==> forall j :: 0 <= j < |rs| ==> rs[j].Ok?
    ensures Collect(rs).Ok? ==>
      (|Collect(rs).value| == |rs| && forall j :: 0 <= j < |rs| ==> rs[j] == Ok(Collect(rs).value[j]))
  {
    if rs != [] {
      var init := rs[..|rs| - 1];
      CollectSpec(init);
      assert forall j :: 0 <= j < |init| ==> init[j] == rs[j];
    }
  }

  lemma CollectOk<T>(rs: seq<Result<T>>, vs: seq<T>)
    requires Collect(rs) == Ok(vs)
    ensures |vs| == |rs| && forall j :: 0 <= j < |rs| ==> rs[j] == Ok(vs[j])
  {
    CollectSpec(rs);
  }

  lemma CollectSnoc<T>(rs: seq<Result<T>>, x: Result<T>)
    ensures var prev := Collect(rs);
      Collect(rs + [x]) == if prev.Err? then prev else if x.Err? then Err(x.msg) else Ok(prev.value + [x.value])
  {
    assert (rs + [x])[..|rs|] == rs;
  }

  /** Once a prefix fails, the whole fails with the same error. */
  lemma {:induction false} CollectErrorPrefix<T>(rs: seq<Result<T>>, m: nat)
    requires m <= |rs| && Collect(rs[..m]).Err?
    ensures Collect(rs) == Collect(rs[..m])
    decreases |rs| - m
  {
    if m < |rs| {
      assert rs[..|rs| - 1][..m] == rs[..m];
      CollectErrorPrefix(rs[..|rs| - 1], m);
    } else {
      assert rs[..m] == rs;
    }
  }

  /** The first n cells of the column at x, from y = minY up in steps of w. */
  function Cells(hull: seq<Point2D>, x: int, minY: int, w: int, n: nat, data: array2<int>): seq<Result<int>>
    reads data
    requires |hull| >= 1 && Accessor.Shaped(data)
  {
    seq(n, j requires 0 <= j < n reads data => CellSpec(hull, x, minY + j * w, w, data))
  }

  lemma CellAt(hull: seq<Point2D>, x: int, minY: int, y: int, w: int, n: nat, j: nat, data: array2<int>)
    requires |hull| >= 1 && Accessor.Shaped(data) && j < n && y == minY + j * w
    ensures Cells(hull, x, minY, w, n, data)[j] == CellSpec(hull, x, y, w, data)
  {
  }

  /** The first n columns of the grid, each of `cols` cells. */
  function Rows(hull: seq<Point2D>, minX: int, minY: int, w: int, cols: nat, n: nat,
                data: array2<int>): seq<Result<seq<int>>>
    reads data
    requires |hull| >= 1 && Accessor.Shaped(data)
  {
    seq(n, i requires 0 <= i < n reads data => Collect(Cells(hull, minX + i * w, minY, w, cols, data)))
  }

  lemma NextStep(lo: int, k: int, w: int, v: int)
    requires v == lo + k * w
    ensures v + w == lo + (k + 1) * w
  {
  }

  lemma TakeSnoc<T>(s: seq<T>, k: nat)
    requires k < |s|
    ensures s[..k + 1] == s[..k] + [s[k]]
  {
  }

  /** Collecting one more element that succeeds extends the result. */
  lemma CollectOkStep<T>(rs: seq<Result<T>>, n: nat, acc: seq<T>, v: T)
    requires n < |rs| && Collect(rs[..n]) == Ok(acc) && rs[n] == Ok(v)
    ensures Collect(rs[..n + 1]) == Ok(acc + [v])
  {
    TakeSnoc(rs, n);
    CollectSnoc(rs[..n], rs[n]);
  }

  /** The first element that fails is the error of the whole collection. */
  lemma CollectErrStep<T>(rs: seq<Result<T>>, n: nat, acc: seq<T>)
    requires n < |rs| && Collect(rs[..n]) == Ok(acc) && rs[n].Err?
    ensures Collect(rs) == Err(rs[n].msg)
  {
    TakeSnoc(rs, n);
    CollectSnoc(rs[..n], rs[n]);
    CollectErrorPrefix(rs, n + 1);
  }

  lemma TakeAll<T>(s: seq<T>)
    ensures s[..|s|] == s
  {
  }

  /** grid_handler: a cell for every (x, y) of range(min_x, max_x + 1, w) x
      range(min_y, max_y + 1, w), over the bounding box of the input points
      (not of their hull). */
  function GridSpec(points: seq<Point2D>, width: int, data: array2<int>): (r: Response)
    reads data
    requires Accessor.Shaped(data)
    ensures r.Total? == false
    ensures |points| < 3 ==> r == Failure(TooFewPoints)
    ensures |points| >= 3 && width < 1 ==> r == Failure(BadWidth)
    ensures r.Grid? ==> |points| >= 3 && width >= 1
  {
    if |points| < 3 then Failure(TooFewPoints)
    else if width < 1 then Failure(BadWidth)
    else
      var hull := Hull.ConvexHullOf(points);
      HullSize(points);
      BoxBounds(points);
      var minX, maxX := Scanline.SeqMin(Xs(points)), Scanline.SeqMax(Xs(points));
      var minY, maxY := Scanline.SeqMin(Ys(points)), Scanline.SeqMax(Ys(points));
      var g := Collect(Rows(hull, minX, minY, width, Steps(minY, maxY, width), Steps(minX, maxX, width), data));
      if g.Err? then Failure(g.msg) else Grid(g.value)
  }

  /** The shape of a grid answer: Steps(min_x, max_x, w) columns, the one
      at index i being the column of cells at x = min_x + i w. */
  lemma GridColumns(points: seq<Point2D>, width: int, data: array2<int>)
    requires Accessor.Shaped(data) && GridSpec(points, width, data).Grid?
    ensures |points| >= 3 && width >= 1
    ensures var g := GridSpec(points, width, data).grid; var hull := Hull.ConvexHullOf(points);
      var minX, maxX := Scanline.SeqMin(Xs(points)), Scanline.SeqMax(Xs(points));
      var minY, maxY := Scanline.SeqMin(Ys(points)), Scanline.SeqMax(Ys(points));
      minX <= maxX && minY <= maxY && |hull| >= 3
      && |g| == Steps(minX, maxX, width)
      && forall i :: 0 <= i < |g| ==>
           Collect(Cells(hull, minX + i * width, minY, width, Steps(minY, maxY, width), data)) == Ok(g[i])
  {
    HullSize(points);
    BoxBounds(points);
    var hull := Hull.ConvexHullOf(points);
    var minX, maxX := Scanline.SeqMin(Xs(points)), Scanline.SeqMax(Xs(points));
    var minY, maxY := Scanline.SeqMin(Ys(points)), Scanline.SeqMax(Ys(points));
    CollectSpec(Rows(hull, minX, minY, width, Steps(minY, maxY, width), Steps(minX, maxX, width), data));
  }

  /** A column that has a value has one cell per step, and the cell at index
      j is the one of the square at y = minY + j w. */
  lemma ColumnCells(hull: seq<Point2D>, x: int, minY: int, w: int, n: nat, data: array2<int>, col: seq<int>)
    requires |hull| >= 1 && Accessor.Shaped(data)
    requires Collect(Cells(hull, x, minY, w, n, data)) == Ok(col)
    ensures |col| == n
    ensures forall j :: 0 <= j < n ==> CellSpec(hull, x, minY + j * w, w, data) == Ok(col[j])
  {
    var cs := Cells(hull, x, minY, w, n, data);
    CollectOk(cs, col);
    forall j | 0 <= j < n
      ensures CellSpec(hull, x, minY + j * w, w, data) == Ok(col[j])
    {
      assert cs[j] == Ok(col[j]);
    }
  }

  /** Over a processed raster with no negative populations, every square
      that lies in the raster has a sum, and -1 marks exactly the squares
      with no corner inside the hull. */
  lemma CellMarksOutside(hull: seq<Point2D>, x: int, y: int, w: int, data: array2<int>,
                         tiles: seq<DataManip.Tile>)
    requires |hull| >= 1 && w > 0 && Accessor.Processed(data, tiles) && DataManip.NoNegativeData(tiles)
    requires Scanline.InRaster(Point2D(x, y)) && Scanline.InRaster(Point2D(x + w, y + w))
    ensures CellSpec(hull, x, y, w, data).Ok?
    ensures CellSpec(hull, x, y, w, data) == Ok(-1) <==> !AnyCornerInside(hull, x, y, w)
  {
    var ring := SquareRing(x, y, w);
    assert forall i :: 0 <= i < |ring| ==> Scanline.InRaster(ring[i]);
    Scanline.WholeConvexInRaster(ring, data, tiles);
  }

  // ---------------------------------------------------------------------
  // The corner cache

  /** Every cached answer is point_in_convex's. */
  predicate CacheSound(cache: map<Point2D, bool>, convex: seq<Point2D>)
    requires |convex| >= 1
  {
    forall p :: p in cache ==> cache[p] == Locate.InConvex(p, convex)
  }

  predicate NoDup(s: seq<Point2D>) {
    forall i, j :: 0 <= i < j < |s| ==> s[i] != s[j]
  }

  /** The ghost log `calls` lists the points point_in_convex was run on:
      exactly the cached points, each once. */
  ghost predicate CacheLog(cache: map<Point2D, bool>, calls: seq<Point2D>) {
    NoDup(calls) && forall p :: p in cache <==> p in calls
  }

  /** The log lists exactly the cached points. */
  lemma LogCovers(cache: map<Point2D, bool>, calls: seq<Point2D>, s: set<Point2D>)
    requires CacheLog(cache, calls) && cache.Keys == s
    ensures forall p :: p in calls <==> p in s
  {
  }

  /** The set of the first k entries of c. */
  function FirstOf(c: seq<Point2D>, k: nat): (r: set<Point2D>)
    requires k <= |c|
  {
    if k == 0 then {} else FirstOf(c, k - 1) + {c[k - 1]}
  }

  /** The union of f(0), ..., f(k - 1). */
  function UnionOf(f: nat -> set<Point2D>, k: nat): set<Point2D> {
    if k == 0 then {} else UnionOf(f, k - 1) + f(k - 1)
  }

  /** A point is in the union exactly when it is in one of the sets. */
  lemma {:induction false} UnionOfSpec(f: nat -> set<Point2D>, k: nat, p: Point2D)
    ensures p in UnionOf(f, k) <==> exists j: nat :: j < k && p in f(j)
    decreases k
  {
    if k > 0 {
      UnionOfSpec(f, k - 1, p);
      if p in f(k - 1) {
        assert k - 1 < k;
      }
    }
  }

  /** A longer union contains a shorter one. */
  lemma {:induction false} UnionOfGrows(f: nat -> set<Point2D>, k: nat, n: nat)
    requires k <= n
    ensures UnionOf(f, k) <= UnionOf(f, n)
    decreases n
  {
    if k < n {
      UnionOfGrows(f, k, n - 1);
    }
  }

  /** The corners the corner loop of the cell at (x, y) tests: those up to
      and including the first one inside the hull. */
  function CellTested(hull: seq<Point2D>, x: int, y: int, w: int): set<Point2D>
    requires |hull| >= 1
  {
    FirstOf(Corners(x, y, w), TestedFrom(hull, Corners(x, y, w), 0))
  }

  /** The tested corners of cell j of the column at x. */
  function ColumnSets(hull: seq<Point2D>, x: int, minY: int, w: int): nat -> set<Point2D>
    requires |hull| >= 1
  {
    j => CellTested(hull, x, minY + j * w, w)
  }

  /** The corners tested by the first k cells of the column at x. */
  function ColumnTested(hull: seq<Point2D>, x: int, minY: int, w: int, k: nat): set<Point2D>
    requires |hull| >= 1
  {
    UnionOf(ColumnSets(hull, x, minY, w), k)
  }

  /** The corners tested by column i of the grid, of `cols` cells. */
  function GridSets(hull: seq<Point2D>, minX: int, minY: int, w: int, cols: nat): nat -> set<Point2D>
    requires |hull| >= 1
  {
    i => ColumnTested(hull, minX + i * w, minY, w, cols)
  }

  /** The corners tested by the first k columns of the grid. */
  function GridTested(hull: seq<Point2D>, minX: int, minY: int, w: int, cols: nat, k: nat): set<Point2D>
    requires |hull| >= 1
  {
    UnionOf(GridSets(hull, minX, minY, w, cols), k)
  }

  /** The tested corners of the cell at column i, row j of the grid. */
  function GridCell(hull: seq<Point2D>, minX: int, minY: int, w: int, i: int, j: int): set<Point2D>
    requires |hull| >= 1
  {
    CellTested(hull, minX + i * w, minY + j * w, w)
  }

  /** A point is tested in the first k cells of column i exactly when it is
      a tested corner of one of them. */
  lemma ColumnTestedSpec(hull: seq<Point2D>, minX: int, minY: int, w: int, i: int, k: nat, p: Point2D)
    requires |hull| >= 1
    ensures p in ColumnTested(hull, minX + i * w, minY, w, k)
        <==> exists j :: 0 <= j < k && p in GridCell(hull, minX, minY, w, i, j)
  {
    var f := ColumnSets(hull, minX + i * w, minY, w);
    UnionOfSpec(f, k, p);
    forall j: nat | j < k
      ensures f(j) == GridCell(hull, minX, minY, w, i, j)
    {
    }
  }

  /** Every point tested in the first k columns is a tested corner of one
      of their cells. */
  lemma GridTestedSound(hull: seq<Point2D>, minX: int, minY: int, w: int, cols: nat, k: nat, p: Point2D)
    requires |hull| >= 1 && p in GridTested(hull, minX, minY, w, cols, k)
    ensures exists i, j :: 0 <= i < k && 0 <= j < cols && p in GridCell(hull, minX, minY, w, i, j)
  {
    var f := GridSets(hull, minX, minY, w, cols);
    UnionOfSpec(f, k, p);
    var i: nat :| i < k && p in f(i);
    ColumnTestedSpec(hull, minX, minY, w, i, cols, p);
  }

  /** Every tested corner of a cell among the first k columns is tested in
      them. */
  lemma GridTestedComplete(hull: seq<Point2D>, minX: int, minY: int, w: int, cols: nat, k: nat, i: nat, j: nat)
    requires |hull| >= 1 && i < k && j < cols
    ensures GridCell(hull, minX, minY, w, i, j) <= GridTested(hull, minX, minY, w, cols, k)
  {
    forall p | p in GridCell(hull, minX, minY, w, i, j)
      ensures p in GridTested(hull, minX, minY, w, cols, k)
    {
      ColumnTestedSpec(hull, minX, minY, w, i, cols, p);
      var f := GridSets(hull, minX, minY, w, cols);
      assert p in f(i);
      UnionOfSpec(f, k, p);
    }
  }

  lemma ColumnTestedStep(hull: seq<Point2D>, x: int, minY: int, y: int, w: int, k: nat)
    requires |hull| >= 1 && y == minY + k * w
    ensures ColumnTested(hull, x, minY, w, k + 1) == ColumnTested(hull, x, minY, w, k) + CellTested(hull, x, y, w)
  {
  }

  lemma GridTestedStep(hull: seq<Point2D>, minX: int, x: int, minY: int, w: int, cols: nat, k: nat)
    requires |hull| >= 1 && x == minX + k * w
    ensures GridTested(hull, minX, minY, w, cols, k + 1)
         == GridTested(hull, minX, minY, w, cols, k) + ColumnTested(hull, x, minY, w, cols)
  {
  }

  /** The cache keys after one more cell of the column at x. */
  lemma ColumnKeysStep(hull: seq<Point2D>, x: int, minY: int, y: int, w: int, k: nat, n: nat,
                       base: set<Point2D>, before: set<Point2D>, after: set<Point2D>)
    requires |hull| >= 1 && y == minY + k * w && k < n
    requires before == base + ColumnTested(hull, x, minY, w, k)
    requires after == before + CellTested(hull, x, y, w)
    ensures after == base + ColumnTested(hull, x, minY, w, k + 1)
    ensures base <= after <= base + ColumnTested(hull, x, minY, w, n)
  {
    ColumnTestedStep(hull, x, minY, y, w, k);
    UnionOfGrows(ColumnSets(hull, x, minY, w), k + 1, n);
  }

  /** The cache keys after one more column: exactly the next prefix of the
      grid when the column is complete, within the whole grid's in any
      case. */
  lemma GridKeysStep(hull: seq<Point2D>, minX: int, x: int, minY: int, w: int, cols: nat, k: nat, n: nat,
                     before: set<Point2D>, after: set<Point2D>, complete: bool)
    requires |hull| >= 1 && x == minX + k * w && k < n
    requires before == GridTested(hull, minX, minY, w, cols, k)
    requires before <= after <= before + ColumnTested(hull, x, minY, w, cols)
    requires complete ==> after == before + ColumnTested(hull, x, minY, w, cols)
    ensures complete ==> after == GridTested(hull, minX, minY, w, cols, k + 1)
    ensures after <= GridTested(hull, minX, minY, w, cols, n)
  {
    GridTestedStep(hull, minX, x, minY, w, cols, k);
    UnionOfGrows(GridSets(hull, minX, minY, w, cols), k + 1, n);
  }

  /** A log extended twice extends the first one. */
  lemma PrefixTrans(a: seq<Point2D>, b: seq<Point2D>, c: seq<Point2D>)
    requires |a| <= |b| && b[..|a|] == a && |b| <= |c| && c[..|b|] == b
    ensures |a| <= |c| && c[..|a|] == a
  {
    assert c[..|a|] == c[..|b|][..|a|];
  }

  /** The corner loop passes a corner outside the hull, or stops at one
      inside. */
  lemma CornerOutside(hull: seq<Point2D>, c: seq<Point2D>, k: nat)
    requires |hull| >= 1 && |c| == 4 && k < 4 && !Locate.InConvex(c[k], hull)
    ensures AnyFrom(hull, c, k) == AnyFrom(hull, c, k + 1)
    ensures TestedFrom(hull, c, k) == TestedFrom(hull, c, k + 1)
  {
  }

  lemma CornerInside(hull: seq<Point2D>, c: seq<Point2D>, k: nat)
    requires |hull| >= 1 && |c| == 4 && k < 4 && Locate.InConvex(c[k], hull)
    ensures AnyFrom(hull, c, k) && TestedFrom(hull, c, k) == k + 1
  {
  }

  lemma UnionStep<T>(c: set<T>, a: set<T>, b: set<T>, f: set<T>, x: T)
    requires c == a + {x} && a == b + f
    ensures c == b + (f + {x})
  {
  }

  lemma FirstOfNext(c: seq<Point2D>, k: nat)
    requires k < |c|
    ensures FirstOf(c, k + 1) == FirstOf(c, k) + {c[k]}
  {
  }

  /** One corner: point_in_convex, unless the corner is cached already. */
  method TestCorner(p: Point2D, convex: seq<Point2D>, cache: map<Point2D, bool>, ghost calls: seq<Point2D>)
    returns (inside: bool, cache': map<Point2D, bool>, ghost calls': seq<Point2D>)
    requires |convex| >= 1 && CacheSound(cache, convex) && CacheLog(cache, calls)
    ensures inside == Locate.InConvex(p, convex)
    ensures CacheSound(cache', convex) && CacheLog(cache', calls')
    ensures cache'.Keys == cache.Keys + {p}
    ensures |calls| <= |calls'| <= |calls| + 1 && calls'[..|calls|] == calls
    ensures p in cache ==> calls' == calls
  {
    cache', calls' := cache, calls;
    if p !in cache {
      var c := Locate.PointInConvex(p, convex);
      cache' := cache[p := c];
      calls' := calls + [p];
    }
    inside := cache'[p];
  }

  /** The corner loop: a corner not yet cached is checked and cached, and the
      loop stops at the first corner inside. */
  method CellInside(square: seq<Point2D>, convex: seq<Point2D>,
                    cache: map<Point2D, bool>, ghost calls: seq<Point2D>)
    returns (valid: bool, cache': map<Point2D, bool>, ghost calls': seq<Point2D>)
    requires |convex| >= 1 && |square| == 4 && CacheSound(cache, convex) && CacheLog(cache, calls)
    ensures valid == AnyFrom(convex, square, 0)
    ensures CacheSound(cache', convex) && CacheLog(cache', calls')
    ensures cache'.Keys == cache.Keys + FirstOf(square, TestedFrom(convex, square, 0))
    ensures |calls| <= |calls'| && calls'[..|calls|] == calls
  {
    valid := false;
    cache' := cache;
    calls' := calls;
    var k := 0;
    while k < 4
      invariant 0 <= k <= 4 && !valid
      invariant AnyFrom(convex, square, 0) == AnyFrom(convex, square, k)
      invariant TestedFrom(convex, square, 0) == TestedFrom(convex, square, k)
      invariant CacheSound(cache', convex) && CacheLog(cache', calls')
      invariant cache'.Keys == cache.Keys + FirstOf(square, k)
      invariant |calls| <= |calls'| && calls'[..|calls|] == calls
    {
      var inside;
      ghost var keys := cache'.Keys;
      ghost var log := calls';
      inside, cache', calls' := TestCorner(square[k], convex, cache', calls');
      PrefixTrans(calls, log, calls');
      FirstOfNext(square, k);
      UnionStep(cache'.Keys, keys, cache.Keys, FirstOf(square, k), square[k]);
      if inside {
        CornerInside(convex, square, k);
        valid := true;
        break;
      }
      CornerOutside(convex, square, k);
      k := k + 1;
    }
  }

  // ---------------------------------------------------------------------
  // The handler

  /** The population of one cell square: calc_convex on the four corners,
      then calc_whole_convex. */
  method SquarePopulation(x: int, y: int, w: int, data: array2<int>) returns (ans: Result<int>)
    requires Accessor.Shaped(data) && w > 0
    ensures ans == Scanline.WholeConvex(SquareRing(x, y, w), data)
  {
    SquareHull(x, y, w);
    var conv := HullOf(Corners(x, y, w));
    ans := Scanline.CalcWholeConvex(conv, data);
  }

  /** One cell: the corner test, then -1 or the square's population. */
  method Cell(x: int, y: int, w: int, convex: seq<Point2D>, data: array2<int>,
              cache: map<Point2D, bool>, ghost calls: seq<Point2D>)
    returns (ans: Result<int>, cache': map<Point2D, bool>, ghost calls': seq<Point2D>)
    requires |convex| >= 1 && Accessor.Shaped(data) && w > 0
    requires CacheSound(cache, convex) && CacheLog(cache, calls)
    ensures ans == CellSpec(convex, x, y, w, data)
    ensures CacheSound(cache', convex) && CacheLog(cache', calls')
    ensures cache'.Keys == cache.Keys + CellTested(convex, x, y, w)
    ensures |calls| <= |calls'| && calls'[..|calls|] == calls
  {
    var valid;
    valid, cache', calls' := CellInside(Corners(x, y, w), convex, cache, calls);
    if !valid {
      ans := Ok(-1);
    } else {
      ans := SquarePopulation(x, y, w, data);
    }
  }

  /** Cell k of the column at x, with what it adds to the cache and the log
      since the column began (the keys `base`, the log `start`). */
  method ColumnCell(x: int, y: int, minY: int, w: int, ghost k: nat, ghost n: nat, convex: seq<Point2D>,
                    data: array2<int>, ghost base: set<Point2D>, ghost start: seq<Point2D>,
                    cache: map<Point2D, bool>, ghost calls: seq<Point2D>)
    returns (ans: Result<int>, cache': map<Point2D, bool>, ghost calls': seq<Point2D>)
    requires |convex| >= 1 && Accessor.Shaped(data) && w > 0 && y == minY + k * w && k < n
    requires CacheSound(cache, convex) && CacheLog(cache, calls)
    requires cache.Keys == base + ColumnTested(convex, x, minY, w, k)
    requires |start| <= |calls| && calls[..|start|] == start
    ensures ans == CellSpec(convex, x, y, w, data)
    ensures CacheSound(cache', convex) && CacheLog(cache', calls')
    ensures cache'.Keys == base + ColumnTested(convex, x, minY, w, k + 1)
    ensures base <= cache'.Keys <= base + ColumnTested(convex, x, minY, w, n)
    ensures |start| <= |calls'| && calls'[..|start|] == start
  {
    ans, cache', calls' := Cell(x, y, w, convex, data, cache, calls);
    PrefixTrans(start, calls, calls');
    ColumnKeysStep(convex, x, minY, y, w, k, n, base, cache.Keys, cache'.Keys);
  }

  /** The inner loop of grid_handler: the cells of the row at x. A failing
      cell sum ends the row with its error. */
  method GridRow(x: int, minY: int, maxY: int, w: int, convex: seq<Point2D>, data: array2<int>,
                 cache: map<Point2D, bool>, ghost calls: seq<Point2D>)
    returns (row: Result<seq<int>>, cache': map<Point2D, bool>, ghost calls': seq<Point2D>)
    requires |convex| >= 1 && Accessor.Shaped(data) && minY <= maxY && w > 0
    requires CacheSound(cache, convex) && CacheLog(cache, calls)
    ensures row == Collect(Cells(convex, x, minY, w, Steps(minY, maxY, w), data))
    ensures CacheSound(cache', convex) && CacheLog(cache', calls')
    ensures cache.Keys <= cache'.Keys <= cache.Keys + ColumnTested(convex, x, minY, w, Steps(minY, maxY, w))
    ensures row.Ok? ==> cache'.Keys == cache.Keys + ColumnTested(convex, x, minY, w, Steps(minY, maxY, w))
    ensures |calls| <= |calls'| && calls'[..|calls|] == calls
  {
    ghost var all := Cells(convex, x, minY, w, Steps(minY, maxY, w), data);
    var cells: seq<int> := [];
    cache' := cache;
    calls' := calls;
    var y := minY;
    ghost var n, k := Steps(minY, maxY, w), 0;
    while y < maxY + 1
      invariant k == |cells| && y == minY + k * w && k <= n
      invariant Collect(all[..k]) == Ok(cells)
      invariant CacheSound(cache', convex) && CacheLog(cache', calls')
      invariant cache'.Keys == cache.Keys + ColumnTested(convex, x, minY, w, k)
      invariant |calls| <= |calls'| && calls'[..|calls|] == calls
    {
      StepCount(minY, maxY, w, k);
      CellAt(convex, x, minY, y, w, n, k, data);
      var ans;
      ans, cache', calls' := ColumnCell(x, y, minY, w, k, n, convex, data, cache.Keys, calls, cache', calls');
      if ans.Err? {
        CollectErrStep(all, k, cells);
        return Err(ans.msg), cache', calls';
      }
      CollectOkStep(all, k, cells, ans.value);
      NextStep(minY, k, w, y);
      cells, k := cells + [ans.value], k + 1;
      y := y + w;
    }
    StepsDone(minY, maxY, w, k, y);
    TakeAll(all);
    row := Ok(cells);
  }

  /** calc_convex run on a copy of the request's points. */
  method HullOf(points: seq<Point2D>) returns (convex: seq<Point2D>)
    requires |points| >= 3
    ensures convex == Hull.ConvexHullOf(points) && |convex| >= 3
  {
    var p := new Point2D[|points|](i requires 0 <= i < |points| => points[i]);
    assert p[..] == points;
    convex := Hull.CalcConvex(p);
    HullSize(points);
  }

  /** The outer loop of grid_handler: the columns from x = minX in steps of
      w. A failing row ends the grid with its error. */
  method GridRows(minX: int, maxX: int, minY: int, maxY: int, w: int, convex: seq<Point2D>, data: array2<int>)
    returns (grid: Result<seq<seq<int>>>, ghost calls': seq<Point2D>)
    requires |convex| >= 1 && Accessor.Shaped(data) && minX <= maxX && minY <= maxY && w > 0
    ensures grid == Collect(Rows(convex, minX, minY, w, Steps(minY, maxY, w), Steps(minX, maxX, w), data))
    ensures NoDup(calls')
    ensures forall p :: p in calls' ==> p in GridTested(convex, minX, minY, w, Steps(minY, maxY, w), Steps(minX, maxX, w))
    ensures grid.Ok? ==>
      forall p :: p in calls' <==> p in GridTested(convex, minX, minY, w, Steps(minY, maxY, w), Steps(minX, maxX, w))
  {
    ghost var cols, n := Steps(minY, maxY, w), Steps(minX, maxX, w);
    var cache: map<Point2D, bool> := map[];
    calls' := [];
    var ansMat: seq<seq<int>> := [];
    var x := minX;
    ghost var k := 0;
    while x < maxX + 1
      invariant k == |ansMat| && x == minX + k * w && k <= n
      invariant Collect(Rows(convex, minX, minY, w, cols, k, data)) == Ok(ansMat)
      invariant CacheSound(cache, convex) && CacheLog(cache, calls')
      invariant cache.Keys == GridTested(convex, minX, minY, w, cols, k)
    {
      StepCount(minX, maxX, w, k);
      NextStep(minX, k, w, x);
      var row;
      ghost var keys := cache.Keys;
      row, cache, calls' := GridRow(x, minY, maxY, w, convex, data, cache, calls');
      GridKeysStep(convex, minX, x, minY, w, cols, k, n, keys, cache.Keys, row.Ok?);
      if row.Err? {
        RowsErrStep(convex, minX, x, minY, w, cols, k, n, data, ansMat);
        return Err(row.msg), calls';
      }
      RowsOkStep(convex, minX, x, minY, w, cols, k, data, ansMat, row.value);
      ansMat, k := ansMat + [row.value], k + 1;
      x := x + w;
    }
    RowsDone(convex, minX, maxX, minY, w, cols, data, ansMat);
    LogCovers(cache, calls', GridTested(convex, minX, minY, w, cols, n));
    grid := Ok(ansMat);
  }

  /** Once the x loop has passed maxX, every column has been collected. */
  lemma RowsDone(hull: seq<Point2D>, minX: int, maxX: int, minY: int, w: int, cols: nat, data: array2<int>,
                 acc: seq<seq<int>>)
    requires |hull| >= 1 && Accessor.Shaped(data) && w > 0
    requires minX + |acc| * w >= maxX + 1 && |acc| <= Steps(minX, maxX, w)
    requires Collect(Rows(hull, minX, minY, w, cols, |acc|, data)) == Ok(acc)
    ensures Collect(Rows(hull, minX, minY, w, cols, Steps(minX, maxX, w), data)) == Ok(acc)
    ensures |acc| == Steps(minX, maxX, w)
  {
    StepCount(minX, maxX, w, |acc|);
  }

  lemma RowsStep(hull: seq<Point2D>, minX: int, minY: int, w: int, cols: nat, k: nat, data: array2<int>)
    requires |hull| >= 1 && Accessor.Shaped(data)
    ensures Rows(hull, minX, minY, w, cols, k + 1, data)
         == Rows(hull, minX, minY, w, cols, k, data) + [Collect(Cells(hull, minX + k * w, minY, w, cols, data))]
  {
  }

  /** A successful next column extends the collected grid. */
  lemma RowsOkStep(hull: seq<Point2D>, minX: int, x: int, minY: int, w: int, cols: nat, k: nat, data: array2<int>,
                   acc: seq<seq<int>>, v: seq<int>)
    requires |hull| >= 1 && Accessor.Shaped(data) && x == minX + k * w
    requires Collect(Rows(hull, minX, minY, w, cols, k, data)) == Ok(acc)
    requires Collect(Cells(hull, x, minY, w, cols, data)) == Ok(v)
    ensures Collect(Rows(hull, minX, minY, w, cols, k + 1, data)) == Ok(acc + [v])
  {
    RowsStep(hull, minX, minY, w, cols, k, data);
    CollectSnoc(Rows(hull, minX, minY, w, cols, k, data), Collect(Cells(hull, minX + k * w, minY, w, cols, data)));
  }

  /** A failing column k < n makes the whole grid of n columns fail with
      its error. */
  lemma RowsErrStep(hull: seq<Point2D>, minX: int, x: int, minY: int, w: int, cols: nat, k: nat, n: nat,
                    data: array2<int>, acc: seq<seq<int>>)
    requires |hull| >= 1 && Accessor.Shaped(data) && k < n && x == minX + k * w
    requires Collect(Rows(hull, minX, minY, w, cols, k, data)) == Ok(acc)
    requires Collect(Cells(hull, x, minY, w, cols, data)).Err?
    ensures Collect(Rows(hull, minX, minY, w, cols, n, data)) == Err(Collect(Cells(hull, x, minY, w, cols, data)).msg)
  {
    var all := Rows(hull, minX, minY, w, cols, n, data);
    RowsStep(hull, minX, minY, w, cols, k, data);
    CollectSnoc(Rows(hull, minX, minY, w, cols, k, data), Collect(Cells(hull, minX + k * w, minY, w, cols, data)));
    assert all[..k + 1] == Rows(hull, minX, minY, w, cols, k + 1, data);
    CollectErrorPrefix(all, k + 1);
  }

  /** The corners grid_handler's corner loops test over the whole grid of a
      request. */
  function GridCorners(points: seq<Point2D>, width: int): set<Point2D>
    requires |points| >= 3 && width >= 1
  {
    var hull := Hull.ConvexHullOf(points);
    HullSize(points);
    var minX, maxX := Scanline.SeqMin(Xs(points)), Scanline.SeqMax(Xs(points));
    var minY, maxY := Scanline.SeqMin(Ys(points)), Scanline.SeqMax(Ys(points));
    GridTested(hull, minX, minY, width, Steps(minY, maxY, width), Steps(minX, maxX, width))
  }

  /** grid_handler. The ghost `calls` lists every point point_in_convex was
      run on, in order: no point is checked twice within a request, only
      corners the corner loops test are checked, and a grid answer has
      checked every one of them. */
  method GridHandler(points: seq<Point2D>, width: int, data: array2<int>)
    returns (resp: Response, ghost calls: seq<Point2D>)
    requires Accessor.Shaped(data)
    ensures resp == GridSpec(points, width, data)
    ensures NoDup(calls)
    ensures |points| < 3 || width < 1 ==> calls == []
    ensures |points| >= 3 && width >= 1 ==> forall p :: p in calls ==> p in GridCorners(points, width)
    ensures resp.Grid? ==> forall p :: p in calls <==> p in GridCorners(points, width)
  {
    calls := [];
    if |points| < 3 {
      return Failure(TooFewPoints), calls;
    }
    if width < 1 {
      return Failure(BadWidth), calls;
    }
    var minX, maxX := Scanline.SeqMin(Xs(points)), Scanline.SeqMax(Xs(points));
    var minY, maxY := Scanline.SeqMin(Ys(points)), Scanline.SeqMax(Ys(points));
    BoxBounds(points);
    var convex := HullOf(points);
    var grid;
    grid, calls := GridRows(minX, maxX, minY, maxY, width, convex, data);
    if grid.Err? {
      return Failure(grid.msg), calls;
    }
    resp := Grid(grid.value);
  }
}
