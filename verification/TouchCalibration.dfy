/** Three-point calibration of the touch screen, in 32-bit integers. */
module TouchCalibration {

  import opened Simd
  import opened TruncatedDivision

  datatype Point = Point(x: int, y: int)

  const SAMPLE_MAX := 1023
  const WIDTH := 240
  const HEIGHT := 320

  predicate OnDigitizer(p: Point) { 0 <= p.x <= SAMPLE_MAX && 0 <= p.y <= SAMPLE_MAX }

  predicate OnScreen(p: Point) { 0 <= p.x < 240 && 0 <= p.y < 320 }

  /** Twice the signed area of the triangle. */
  function Area(p: Point, q: Point, r: Point): int { (p.x - r.x) * (q.y - r.y) - (q.x - r.x) * (p.y - r.y) }

  /** One row of the calibration matrix, for the screen coordinates d0, d1 and d2 of the three points. */
  datatype Row = Row(slopeX: int, slopeY: int, offset: int) {
    function At(p: Point): int { slopeX * p.x + slopeY * p.y + offset }
  }

  function MakeRow(s0: Point, s1: Point, s2: Point, d0: int, d1: int, d2: int): Row {
    Row((d0 - d2) * (s1.y - s2.y) - (d1 - d2) * (s0.y - s2.y),
        (s0.x - s2.x) * (d1 - d2) - (d0 - d2) * (s1.x - s2.x),
        s0.y * (s2.x * d1 - s1.x * d2) + s1.y * (s0.x * d2 - s2.x * d0) + s2.y * (s1.x * d0 - s0.x * d1))
  }

  datatype Calibration = Calibration(k: int, rowX: Row, rowY: Row)

  function Calibrate(s: seq<Point>, d: seq<Point>): Calibration
    requires |s| == |d| == 3
  {
    Calibration(Area(s[0], s[1], s[2]),
                MakeRow(s[0], s[1], s[2], d[0].x, d[1].x, d[2].x),
                MakeRow(s[0], s[1], s[2], d[0].y, d[1].y, d[2].y))
  }

  function Clip(x: int, low: int, high: int): int { if x < low then low else if x > high then high else x }

  /** The result is always on the screen, wherever the digitizer point is. */
  function Translate(c: Calibration, p: Point): (q: Point)
    requires c.k != 0
    ensures OnScreen(q)
  {
    Point(Clip(TruncDiv(c.rowX.At(p), c.k), 0, WIDTH - 1), Clip(TruncDiv(c.rowY.At(p), c.k), 0, HEIGHT - 1))
  }

  // What a row computes

  /** A row is the sum of the three screen coordinates, each weighted with the area of the
  triangle that the point forms with the two other calibration points. */
  lemma RowIsWeightedByAreas(s0: Point, s1: Point, s2: Point, d0: int, d1: int, d2: int, p: Point)
    ensures MakeRow(s0, s1, s2, d0, d1, d2).At(p) == d0 * Area(p, s1, s2) + d1 * Area(s0, p, s2) + d2 * Area(s0, s1, p)
  {
  }

  /** The three areas share out the whole triangle, and place the point. */
  lemma AreasPlaceThePoint(s0: Point, s1: Point, s2: Point, p: Point, u: int, v: int, w: int)
    ensures (u * p.x + v * p.y + w) * Area(s0, s1, s2) ==
      (u * s0.x + v * s0.y + w) * Area(p, s1, s2) + (u * s1.x + v * s1.y + w) * Area(s0, p, s2) + (u * s2.x + v * s2.y + w) * Area(s0, s1, p)
  {
  }

  // Exactness

  predicate Collinear(s: seq<Point>)
    requires |s| == 3
  {
    Area(s[0], s[1], s[2]) == 0
  }

  /** Each calibration point goes exactly to its screen point. */
  lemma CalibrationPointsAreExact(s: seq<Point>, d: seq<Point>, i: nat)
    requires |s| == |d| == 3 && i < 3
    requires !Collinear(s) && OnScreen(d[i])
    ensures Translate(Calibrate(s, d), s[i]) == d[i]
  {
    var c := Calibrate(s, d);
    RowIsExact(s, d[0].x, d[1].x, d[2].x, i);
    RowIsExact(s, d[0].y, d[1].y, d[2].y, i);
    hide MakeRow, Area;
    ExactQuotient(d[i].x, c.k);
    ExactQuotient(d[i].y, c.k);
  }

  lemma RowIsExact(s: seq<Point>, d0: int, d1: int, d2: int, i: nat)
    requires |s| == 3 && i < 3
    ensures MakeRow(s[0], s[1], s[2], d0, d1, d2).At(s[i]) == Area(s[0], s[1], s[2]) * [d0, d1, d2][i]
  {
    var p, q, r := s[0], s[1], s[2];
    if i == 0 {
      RowAtCorner(p, q, r, d0, d1, d2, p, d0);
    } else if i == 1 {
      RowAtCorner(p, q, r, d0, d1, d2, q, d1);
    } else {
      RowAtCorner(p, q, r, d0, d1, d2, r, d2);
    }
  }

  lemma RowAtCorner(p: Point, q: Point, r: Point, d0: int, d1: int, d2: int, corner: Point, d: int)
    requires (corner == p && d == d0) || (corner == q && d == d1) || (corner == r && d == d2)
    ensures MakeRow(p, q, r, d0, d1, d2).At(corner) == Area(p, q, r) * d
  {
    RowIsWeightedByAreas(p, q, r, d0, d1, d2, corner);
    DegenerateTriangles(corner, q, r);
    DegenerateTriangles(p, corner, r);
    hide MakeRow, Area, Row.At;
  }

  lemma DegenerateTriangles(p: Point, q: Point, r: Point)
    ensures Area(p, p, r) == 0 && Area(p, q, p) == 0 && Area(p, q, q) == 0
  {
  }

  /** An affine map with integer coefficients and a common denominator. */
  predicate Interpolates(u: int, v: int, w: int, m: int, s: seq<Point>, ds: seq<int>)
    requires |s| == |ds| == 3
  {
    forall i :: 0 <= i < 3 ==> u * s[i].x + v * s[i].y + w == m * ds[i]
  }

  /** Every affine map that sends the three points to the three coordinates agrees with the row
  at every point of the plane: before truncation and clipping `translate` is that map. */
  lemma RowIsTheAffineMap(s: seq<Point>, ds: seq<int>, u: int, v: int, w: int, m: int, p: Point)
    requires |s| == |ds| == 3
    requires m != 0 && Interpolates(u, v, w, m, s, ds)
    ensures (u * p.x + v * p.y + w) * Area(s[0], s[1], s[2]) == m * MakeRow(s[0], s[1], s[2], ds[0], ds[1], ds[2]).At(p)
  {
    AreasPlaceThePoint(s[0], s[1], s[2], p, u, v, w);
    RowIsWeightedByAreas(s[0], s[1], s[2], ds[0], ds[1], ds[2], p);
    hide MakeRow, Area, Row.At;
    assert u * s[0].x + v * s[0].y + w == m * ds[0];
    assert u * s[1].x + v * s[1].y + w == m * ds[1];
    assert u * s[2].x + v * s[2].y + w == m * ds[2];
    CommonFactor(m, ds[0], ds[1], ds[2], Area(p, s[1], s[2]), Area(s[0], p, s[2]), Area(s[0], s[1], p));
  }

  lemma CommonFactor(m: int, d0: int, d1: int, d2: int, a0: int, a1: int, a2: int)
    ensures m * d0 * a0 + m * d1 * a1 + m * d2 * a2 == m * (d0 * a0 + d1 * a1 + d2 * a2)
  {
  }

  // Width

  predicate AllFit(xs: seq<int>) { forall i :: 0 <= i < |xs| ==> FitsInt32(xs[i]) }

  /** A difference of two products, with every value the source computes on the way. */
  function DifferenceOfProducts(a: int, b: int, c: int, d: int): seq<int> { [a * b, c * d, a * b - c * d] }

  /** Every value that the constructor computes for one row fits, in the order of the source. */
  predicate RowFits(s0: Point, s1: Point, s2: Point, d0: int, d1: int, d2: int) {
    && AllFit([d0 - d2, s1.y - s2.y, d1 - d2, s0.y - s2.y, s0.x - s2.x, s1.x - s2.x])
    && AllFit(DifferenceOfProducts(d0 - d2, s1.y - s2.y, d1 - d2, s0.y - s2.y))
    && AllFit(DifferenceOfProducts(s0.x - s2.x, d1 - d2, d0 - d2, s1.x - s2.x))
    && AllFit(DifferenceOfProducts(s2.x, d1, s1.x, d2))
    && AllFit(DifferenceOfProducts(s0.x, d2, s2.x, d0))
    && AllFit(DifferenceOfProducts(s1.x, d0, s0.x, d1))
    && AllFit(SumOfThree(s0.y * (s2.x * d1 - s1.x * d2), s1.y * (s0.x * d2 - s2.x * d0), s2.y * (s1.x * d0 - s0.x * d1)))
  }

  function SumOfThree(a: int, b: int, c: int): seq<int> { [a, b, a + b, c, a + b + c] }

  /** Every value that `translate` computes for one row before the division. */
  function AtValues(row: Row, p: Point): seq<int> {
    [row.slopeX * p.x, row.slopeY * p.y, row.slopeX * p.x + row.slopeY * p.y, row.At(p)]
  }

  lemma DifferenceWithin(a: int, b: int, c: int, d: int, m: int, n: int, bound: int)
    requires -m <= a <= m && -n <= b <= n && -m <= c <= m && -n <= d <= n
    requires bound == 2 * (m * n) && bound < 0x8000_0000
    ensures -bound <= a * b - c * d <= bound
    ensures AllFit(DifferenceOfProducts(a, b, c, d))
  {
    ProductWithin(a, b, m, n);
    ProductWithin(c, d, m, n);
  }

  /** No value of the constructor leaves 32 bits. */
  lemma ConstructorFits(s0: Point, s1: Point, s2: Point, d0: int, d1: int, d2: int)
    requires OnDigitizer(s0) && OnDigitizer(s1) && OnDigitizer(s2)
    requires 0 <= d0 < HEIGHT && 0 <= d1 < HEIGHT && 0 <= d2 < HEIGHT
    ensures RowFits(s0, s1, s2, d0, d1, d2)
    ensures AllFit(DifferenceOfProducts(s0.x - s2.x, s1.y - s2.y, s1.x - s2.x, s0.y - s2.y))
  {
    DifferenceWithin(s0.x - s2.x, s1.y - s2.y, s1.x - s2.x, s0.y - s2.y, SAMPLE_MAX, SAMPLE_MAX, 2093058);
    DifferenceWithin(d0 - d2, s1.y - s2.y, d1 - d2, s0.y - s2.y, 319, SAMPLE_MAX, 652674);
    DifferenceWithin(s0.x - s2.x, d1 - d2, d0 - d2, s1.x - s2.x, SAMPLE_MAX, SAMPLE_MAX, 2093058);
    DifferenceWithin(s2.x, d1, s1.x, d2, SAMPLE_MAX, 319, 652674);
    DifferenceWithin(s0.x, d2, s2.x, d0, SAMPLE_MAX, 319, 652674);
    DifferenceWithin(s1.x, d0, s0.x, d1, SAMPLE_MAX, 319, 652674);
    hide DifferenceOfProducts;
    var t0, t1, t2 := s2.x * d1 - s1.x * d2, s0.x * d2 - s2.x * d0, s1.x * d0 - s0.x * d1;
    SumFits(s0.y, t0, s1.y, t1, s2.y, t2);
  }

  lemma SumFits(y0: int, t0: int, y1: int, t1: int, y2: int, t2: int)
    requires 0 <= y0 <= SAMPLE_MAX && 0 <= y1 <= SAMPLE_MAX && 0 <= y2 <= SAMPLE_MAX
    requires -652674 <= t0 <= 652674 && -652674 <= t1 <= 652674 && -652674 <= t2 <= 652674
    ensures AllFit(SumOfThree(y0 * t0, y1 * t1, y2 * t2))
  {
    ProductWithin(y0, t0, SAMPLE_MAX, 652674);
    ProductWithin(y1, t1, SAMPLE_MAX, 652674);
    ProductWithin(y2, t2, SAMPLE_MAX, 652674);
  }

  /** No value of `translate` leaves 32 bits, although bounding slopes and offset one by one
  would not show it. */
  lemma TranslateFits(s0: Point, s1: Point, s2: Point, d0: int, d1: int, d2: int, p: Point)
    requires OnDigitizer(s0) && OnDigitizer(s1) && OnDigitizer(s2) && OnDigitizer(p)
    requires 0 <= d0 < HEIGHT && 0 <= d1 < HEIGHT && 0 <= d2 < HEIGHT
    ensures AllFit(AtValues(MakeRow(s0, s1, s2, d0, d1, d2), p))
  {
    var row := MakeRow(s0, s1, s2, d0, d1, d2);
    SlopesWithin(s0, s1, s2, d0, d1, d2);
    RowIsWeightedByAreas(s0, s1, s2, d0, d1, d2, p);
    AreaWithin(p, s1, s2);
    AreaWithin(s0, p, s2);
    AreaWithin(s0, s1, p);
    hide MakeRow, Area;
    ProductWithin(row.slopeX, p.x, 652674, SAMPLE_MAX);
    ProductWithin(row.slopeY, p.y, 652674, SAMPLE_MAX);
    ProductWithin(d0, Area(p, s1, s2), 319, 2093058);
    ProductWithin(d1, Area(s0, p, s2), 319, 2093058);
    ProductWithin(d2, Area(s0, s1, p), 319, 2093058);
  }

  lemma AreaWithin(p: Point, q: Point, r: Point)
    requires OnDigitizer(p) && OnDigitizer(q) && OnDigitizer(r)
    ensures -2093058 <= Area(p, q, r) <= 2093058
  {
    DifferenceWithin(p.x - r.x, q.y - r.y, q.x - r.x, p.y - r.y, SAMPLE_MAX, SAMPLE_MAX, 2093058);
  }

  lemma SlopesWithin(s0: Point, s1: Point, s2: Point, d0: int, d1: int, d2: int)
    requires OnDigitizer(s0) && OnDigitizer(s1) && OnDigitizer(s2)
    requires 0 <= d0 < HEIGHT && 0 <= d1 < HEIGHT && 0 <= d2 < HEIGHT
    ensures var row := MakeRow(s0, s1, s2, d0, d1, d2); -652674 <= row.slopeX <= 652674 && -652674 <= row.slopeY <= 652674
  {
    DifferenceWithin(d0 - d2, s1.y - s2.y, d1 - d2, s0.y - s2.y, 319, SAMPLE_MAX, 652674);
    DifferenceOther(s0.x - s2.x, d1 - d2, d0 - d2, s1.x - s2.x);
  }

  lemma DifferenceOther(a: int, b: int, c: int, d: int)
    requires -SAMPLE_MAX <= a <= SAMPLE_MAX && -319 <= b <= 319 && -319 <= c <= 319 && -SAMPLE_MAX <= d <= SAMPLE_MAX
    ensures -652674 <= a * b - c * d <= 652674
  {
    ProductWithin(a, b, SAMPLE_MAX, 319);
    ProductWithin(c, d, 319, SAMPLE_MAX);
  }
}
