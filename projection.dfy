/** The linear projection from geographic coordinates onto the integer raster
    grid, and the two point types it works with. */
module Projection {
  import opened Wrappers

  /** Edge of one source tile; the raster is 2 x 4 tiles. */
  const Constant: int := 10800
  const Vertical: int := Constant * 2
  const Horizontal: int := Constant * 4

  /** The exact value of the double `math.pi` (the double nearest to pi;
      its shortest decimal form is 3.141592653589793). */
  const Pi: real := 3.141592653589793115997963468544185161590576171875

  /** A raster point: `x` is the row (north to south), `y` the column
      (west to east). */
  datatype Point2D = Point2D(x: int, y: int)

  predicate InGrid(p: Point2D) {
    0 <= p.x < Vertical && 0 <= p.y < Horizontal
  }

  function Hash(p: Point2D): int {
    p.x * Horizontal + p.y
  }

  /** Two in-range points have the same hash exactly when they are equal,
      and the hash of an in-range point enumerates the raster row by row. */
  lemma HashInjective(p: Point2D, q: Point2D)
    requires InGrid(p) && InGrid(q)
    ensures Hash(p) == Hash(q) <==> p == q
    ensures 0 <= Hash(p) < Vertical * Horizontal
  {
  }

  function Sub(a: Point2D, b: Point2D): Point2D {
    Point2D(a.x - b.x, a.y - b.y)
  }

  /** Subtraction is componentwise: it is zero exactly for equal points and
      is undone by adding the subtrahend back. */
  lemma SubComponentwise(a: Point2D, b: Point2D)
    ensures Sub(a, b) == Point2D(0, 0) <==> a == b
    ensures Sub(a, b).x + b.x == a.x && Sub(a, b).y + b.y == a.y
  {
  }

  /** Python's int() on a float: truncation toward zero. */
  function Trunc(r: real): int {
    if r >= 0.0 then r.Floor else -((-r).Floor)
  }

  /** Point2D.from_portion: x in [-2, 2] is the longitude portion, y in
      [-1, 1] the latitude portion. The two are swapped, rescaled onto the
      raster, and the closed upper bound is pulled back onto the last index. */
  function FromPortion(x: real, y: real): (r: Result<Point2D>)
    ensures r.Ok? <==> -2.0 <= x <= 2.0 && -1.0 <= y <= 1.0
    ensures (x < -2.0 || x > 2.0) ==> r == Err("x must be in [-2, 2]")
    ensures -2.0 <= x <= 2.0 && (y < -1.0 || y > 1.0) ==> r == Err("y must be in [-1, 1]")
    ensures r.Ok? ==> InGrid(r.value)
  {
    if x < -2.0 || x > 2.0 then Err("x must be in [-2, 2]")
    else if y < -1.0 || y > 1.0 then Err("y must be in [-1, 1]")
    else
      var (lat, lon) := (y, x);
      var row := Trunc((-lat + 1.0) * Constant as real);
      var col := Trunc((lon + 2.0) * Constant as real);
      Ok(Point2D(if row == Vertical then row - 1 else row,
                 if col == Horizontal then col - 1 else col))
  }

  /** The three cases of the source's unit test. */
  lemma FromPortionExamples()
    ensures FromPortion(0.0, 0.0) == Ok(Point2D(Vertical / 2, Horizontal / 2))
    ensures FromPortion(1.0, 1.0) == Ok(Point2D(0, Horizontal * 3 / 4))
    ensures FromPortion(-1.0, -1.0) == Ok(Point2D(Vertical - 1, Horizontal / 4))
  {
  }

  lemma FloorMonotone(a: real, b: real)
    requires a <= b
    ensures a.Floor <= b.Floor
  {
  }

  /** After the swap, the row depends on the latitude portion alone and does
      not increase with it; the column depends on the longitude portion alone
      and does not decrease with it. */
  lemma FromPortionMonotone(x1: real, y1: real, x2: real, y2: real)
    requires FromPortion(x1, y1).Ok? && FromPortion(x2, y2).Ok?
    ensures y1 == y2 ==> FromPortion(x1, y1).value.x == FromPortion(x2, y2).value.x
    ensures x1 == x2 ==> FromPortion(x1, y1).value.y == FromPortion(x2, y2).value.y
    ensures y1 <= y2 ==> FromPortion(x1, y1).value.x >= FromPortion(x2, y2).value.x
    ensures x1 <= x2 ==> FromPortion(x1, y1).value.y <= FromPortion(x2, y2).value.y
  {
    if y1 <= y2 {
      FloorMonotone((-y2 + 1.0) * Constant as real, (-y1 + 1.0) * Constant as real);
    }
    if x1 <= x2 {
      FloorMonotone((x1 + 2.0) * Constant as real, (x2 + 2.0) * Constant as real);
    }
  }

  /** A geographic point in radians. */
  datatype Point3D = Point3D(longitude: real, latitude: real)

  /** Point3D.from_rad: validates the ranges and keeps the inputs unchanged. */
  function FromRad(longitude: real, latitude: real): (r: Result<Point3D>)
    ensures r.Ok? <==> -Pi <= longitude <= Pi && -Pi / 2.0 <= latitude <= Pi / 2.0
    ensures r.Ok? ==> r.value.longitude == longitude && r.value.latitude == latitude
    ensures (longitude < -Pi || longitude > Pi) ==> r == Err("longitude must be in [-pi, pi]")
    ensures -Pi <= longitude <= Pi && (latitude < -Pi / 2.0 || latitude > Pi / 2.0) ==>
      r == Err("latitude must be in [-pi / 2, pi / 2]")
  {
    if longitude < -Pi || longitude > Pi then Err("longitude must be in [-pi, pi]")
    else if latitude < -Pi / 2.0 || latitude > Pi / 2.0 then Err("latitude must be in [-pi / 2, pi / 2]")
    else Ok(Point3D(longitude, latitude))
  }

  /** The cases of the source's unit test for from_rad. */
  lemma FromRadExamples()
    ensures FromRad(0.0, 0.0) == Ok(Point3D(0.0, 0.0))
    ensures FromRad(Pi, Pi / 2.0) == Ok(Point3D(Pi, Pi / 2.0))
    ensures FromRad(-Pi, -Pi / 2.0) == Ok(Point3D(-Pi, -Pi / 2.0))
  {
  }

  /** The linear projection used on the live path. */
  function Project(point: Point3D): Result<Point2D> {
    FromPortion(point.longitude / Pi * 2.0, point.latitude / Pi * 2.0)
  }

  /** project never fails on a point that from_rad accepted, and lands on the
      raster. */
  lemma ProjectAccepted(longitude: real, latitude: real)
    requires FromRad(longitude, latitude).Ok?
    ensures Project(FromRad(longitude, latitude).value).Ok?
    ensures InGrid(Project(FromRad(longitude, latitude).value).value)
  {
    var p := FromRad(longitude, latitude).value;
    assert -2.0 <= p.longitude / Pi * 2.0 <= 2.0;
    assert -1.0 <= p.latitude / Pi * 2.0 <= 1.0;
  }
}
