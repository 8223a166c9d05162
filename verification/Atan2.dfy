/** The 16-bit fixed-point arctangent.

A turn is 65536 units.  In Q15 arithmetic a 16-bit integer `n` stands for n / 2^15; the
arctangent of a ratio r between -1 and 1 is approximated by (K2 - K1 |r|) r, in units.
 */
module Atan2 {

  import opened Simd
  import opened TruncatedDivision

  const K1: Int16 := 2847
  const K2: Int16 := 11039

  // Q15 arithmetic

  /** The product is a tie when it lies halfway between two representable values. */
  predicate Tie(product: int) { product % 0x8000 == 0x4000 }

  /** Shifts a product right by 15 bits: the nearest value, and of two equally near ones the lower. */
  function RoundShift(product: int): (r: int)
    ensures -0x4000 < product - r * 0x8000 <= 0x4000
    ensures Tie(product) <==> product - r * 0x8000 == 0x4000
  {
    (product + if Tie(product) then 0 else 0x4000) / 0x8000
  }

  function Q15Mul(j: Int16, k: Int16): (r: Int16)
    requires j > -0x8000 || k > -0x8000
    ensures r as int == RoundShift(j * k)
  {
    ProductInRange(j, k);
    CutToWidth(j * k);
    Wrap16(RoundShift(j * k))
  }

  lemma CutToWidth(product: int)
    requires -0x4000_0000 <= product <= 0x3FFF_8000
    ensures FitsInt16(RoundShift(product)) && Wrap16(RoundShift(product)) == RoundShift(product)
  {
  }

  lemma ProductInRange(j: Int16, k: Int16)
    requires j > -0x8000 || k > -0x8000
    ensures -0x4000_0000 <= j * k <= 0x3FFF_8000
  {
    if j > -0x8000 {
      ProductWithin(j, k, 0x7FFF, 0x8000);
    } else {
      ProductWithin(j, k, 0x8000, 0x7FFF);
    }
  }

  /** The quotient as the source computes it, cut to 16 bits. */
  function Q15Div(numer: Int16, denom: Int16): (r: Int16)
    requires denom != 0
  {
    Wrap16(TruncDiv(numer * 0x8000, denom))
  }

  /** A numerator no larger than the denominator, and not equal to it, gives a quotient
  that needs no cutting, within one unit of the exact one and of the same sign. */
  lemma QuotientFits(numer: Int16, denom: Int16)
    requires denom != 0 && numer != denom
    requires Magnitude(numer) <= Magnitude(denom)
    ensures Q15Div(numer, denom) == TruncDiv(numer * 0x8000, denom)
    ensures Q15Div(numer, denom) == -0x8000 <==> numer as int == -(denom as int)
    ensures Magnitude(Q15Div(numer, denom) * denom - numer * 0x8000) < Magnitude(denom)
    ensures numer == 0 || (numer > 0) == (denom > 0) ==> Q15Div(numer, denom) >= 0
    ensures numer == 0 || (numer > 0) != (denom > 0) ==> Q15Div(numer, denom) <= 0
  {
    hide Wrap16, TruncDiv;
    ErrorBelowDivisor(numer * 0x8000, denom);
    AtMostOne(Magnitude(numer), Magnitude(denom));
    FitsUnwrapped(TruncDiv(numer * 0x8000, denom));
  }

  lemma AtMostOne(m: nat, d: nat)
    requires 0 < d && m <= d
    ensures m * 0x8000 / d <= 0x8000
    ensures m * 0x8000 / d == 0x8000 <==> m == d
  {
    var n := m * 0x8000;
    var q := n / d;
    assert n == d * q + n % d;
    if q > 0x8000 {
      ProductOrder(d, 0x8001, q);
    } else if m == d {
      Decimation.UniqueQuotient(n, d, 0x8000, 0);
    }
  }

  function Nabs(j: Int16): (r: Int16)
    ensures r as int == -(Magnitude(j) as int)
  {
    if j < 0 then j else -(j as int)
  }

  // The arctangent

  function Correction(ratio: Int16): (c: Int16)
    ensures -K1 as int <= c <= 0
  {
    Q15Mul(K1, Nabs(ratio))
  }

  function Unrotated(ratio: Int16): Int16 { Q15Mul(K2 + Correction(ratio), ratio) }

  /** The angle in units of a turn / 65536, before it is cut to 16 bits. */
  function Rotated(y: Int16, x: Int16): int {
    if x == y then
      if y > 0 then 8192 else if y < 0 then 40960 else 0
    else if Nabs(x) < Nabs(y) then
      if x > 0 then Unrotated(Q15Div(y, x)) else 32768 + Unrotated(Q15Div(y, x))
    else
      if y > 0 then 16384 - Unrotated(Q15Div(x, y)) else 49152 - Unrotated(Q15Div(x, y))
  }

  function Atan2(y: Int16, x: Int16): Int16 { Wrap16(Rotated(y, x)) }

  /** The ratio is between -1 and 1, and never 1. */
  function Ratio(y: Int16, x: Int16): Int16
    requires x != y
  {
    if Nabs(x) < Nabs(y) then Q15Div(y, x) else Q15Div(x, y)
  }

  // Accuracy

  /** Before rotation the angle is within one unit of the exact quadratic of the ratio. */
  lemma WithinOneUnitOfTheQuadratic(ratio: Int16)
    ensures Magnitude(Unrotated(ratio) * 0x4000_0000 - (11039 * 0x8000 - 2847 * Magnitude(ratio)) * ratio) <= 0x4000_0000
  {
    hide RoundShift, Tie;
    var c := Correction(ratio);
    var m := Magnitude(ratio);
    var slope := K2 as int + c;
    assert slope * 0x8000 - (11039 * 0x8000 - 2847 * m) <= 0x4000;
    assert slope * 0x8000 - (11039 * 0x8000 - 2847 * m) >= -0x4000;
    SlopeError(slope, m, ratio, Unrotated(ratio));
  }

  lemma SlopeError(slope: int, m: nat, ratio: int, u: int)
    requires m == Magnitude(ratio) <= 0x8000
    requires -0x4000 <= slope * 0x8000 - (11039 * 0x8000 - 2847 * m) <= 0x4000
    requires -0x4000 <= slope * ratio - u * 0x8000 <= 0x4000
    ensures Magnitude(u * 0x4000_0000 - (K2 * 0x8000 - K1 * m) * ratio) <= 0x4000_0000
  {
    var exact := 11039 * 0x8000 - 2847 * m;
    var e := slope * 0x8000 - exact;
    ProductWithin(e, ratio, 0x4000, 0x8000);
    assert exact * ratio == slope * ratio * 0x8000 - e * ratio by {
      assert (slope * 0x8000 - e) * ratio == slope * 0x8000 * ratio - e * ratio;
    }
  }

  /** The unrotated angle has the sign of the ratio and never leaves an eighth of a turn. */
  lemma UnrotatedWithinEighth(ratio: Int16)
    ensures ratio >= 0 ==> 0 <= Unrotated(ratio) <= 8192
    ensures ratio <= 0 ==> -8192 <= Unrotated(ratio) <= 0
    ensures ratio == -0x8000 ==> Unrotated(ratio) == -8192
  {
    hide RoundShift, Tie;
    var m := Magnitude(ratio);
    var slope := K2 as int + Correction(ratio);
    LargestAtOne(slope, m);
    assert slope * ratio == if ratio >= 0 then slope * m else -(slope * m);
  }

  /** The corrected slope times the ratio is largest at ratio one. */
  lemma LargestAtOne(slope: int, m: nat)
    requires m <= 0x8000
    requires 8192 <= slope <= 11039
    requires (slope - 11039) * 0x8000 <= 0x4000 - 2847 * m
    ensures 0 <= slope * m <= 8192 * 0x8000 + 0x3FFF
    ensures m == 0x8000 ==> slope * m == 8192 * 0x8000
  {
    if m < 0x8000 {
      var t := 0x8000 - m;
      var b := 11039 * 0x8000 + 0x4000;
      ProductOrder(m, slope * 0x8000, b - 2847 * m);
      assert (b - 2847 * m) * m == b * 0x8000 - b * t - 2847 * (0x4000_0000 - 0x1_0000 * t + t * t);
      assert t * t >= 0;
    }
  }

  // Accuracy against the exact ratio

  function Abs(t: real): real { if t < 0.0 then -t else t }

  /** The approximation without any rounding, in units. */
  function Quadratic(t: real): real { (11039.0 - 2847.0 * Abs(t)) * t }

  /** Truncating the ratio and rounding twice together cost less than one and a half units. */
  lemma NearTheExactQuadratic(numer: Int16, denom: Int16)
    requires denom != 0 && numer != denom
    requires Magnitude(numer) <= Magnitude(denom)
    ensures Abs(Unrotated(Q15Div(numer, denom)) as real - Quadratic(numer as real / denom as real)) < 1.5
  {
    hide Unrotated, Quadratic;
    var r := Q15Div(numer, denom);
    QuotientFits(numer, denom);
    RatioError(r, numer, denom);
    hide Q15Div;
    QuadraticOfRatio(r);
    QuadraticError(r as real / 32768.0, numer as real / denom as real);
  }

  lemma QuadraticOfRatio(r: Int16)
    ensures Abs(Unrotated(r) as real - Quadratic(r as real / 32768.0)) <= 1.0
  {
    WithinOneUnitOfTheQuadratic(r);
    hide Unrotated;
    var exact := (11039 * 0x8000 - 2847 * Magnitude(r)) * r;
    var s := r as real / 32768.0;
    assert Magnitude(r) as real == 32768.0 * Abs(s);
    assert Quadratic(s) * 1073741824.0 == exact as real by {
      assert (11039 * 0x8000 - 2847 * Magnitude(r)) as real == (11039.0 - 2847.0 * Abs(s)) * 32768.0;
    }
  }

  lemma RatioError(r: Int16, numer: Int16, denom: Int16)
    requires denom != 0 && Magnitude(numer) <= Magnitude(denom)
    requires Magnitude(r * denom - numer * 0x8000) < Magnitude(denom)
    requires numer == 0 || (numer > 0) == (denom > 0) ==> r >= 0
    requires numer == 0 || (numer > 0) != (denom > 0) ==> r <= 0
    ensures Abs(r as real / 32768.0 - numer as real / denom as real) * 32768.0 < 1.0
    ensures Abs(numer as real / denom as real) <= 1.0
    ensures (r as real / 32768.0 >= 0.0 && numer as real / denom as real >= 0.0) ||
            (r as real / 32768.0 <= 0.0 && numer as real / denom as real <= 0.0)
  {
    ProductAsReal(r, denom);
    var product := r * denom;
    RealRatioError(r as real, numer as real, denom as real, (product - numer * 0x8000) as real);
  }

  lemma ProductAsReal(a: int, b: int)
    ensures (a * b) as real == a as real * b as real
  {
  }

  lemma RealRatioError(r: real, n: real, d: real, error: real)
    requires d != 0.0 && Abs(n) <= Abs(d)
    requires error == r * d - n * 32768.0
    requires Abs(error) < Abs(d)
    requires n == 0.0 || (n > 0.0) == (d > 0.0) ==> r >= 0.0
    requires n == 0.0 || (n > 0.0) != (d > 0.0) ==> r <= 0.0
    ensures Abs(r / 32768.0 - n / d) * 32768.0 < 1.0
    ensures Abs(n / d) <= 1.0
    ensures (r / 32768.0 >= 0.0 && n / d >= 0.0) || (r / 32768.0 <= 0.0 && n / d <= 0.0)
  {
    var t := n / d;
    assert t * d == n;
    Regroup(r, t, d, n);
    DividedBelow(r - t * 32768.0, d, error);
    DividedSign(t, d, n);
  }

  lemma Regroup(r: real, t: real, d: real, n: real)
    requires t * d == n
    ensures (r - t * 32768.0) * d == r * d - n * 32768.0
  {
    assert (r - t * 32768.0) * d == r * d - t * 32768.0 * d;
  }

  lemma DividedBelow(q: real, d: real, e: real)
    requires d != 0.0 && q * d == e && Abs(e) < Abs(d)
    ensures -1.0 < q < 1.0
  {
    if d > 0.0 {
      Scaled(q, d, e);
    } else {
      FlipSign(d, q);
      Scaled(q, -d, -e);
    }
  }

  lemma DividedSign(q: real, d: real, n: real)
    requires d != 0.0 && q * d == n && Abs(n) <= Abs(d)
    ensures n == 0.0 || (n > 0.0) == (d > 0.0) ==> q >= 0.0
    ensures n == 0.0 || (n > 0.0) != (d > 0.0) ==> q <= 0.0
    ensures -1.0 <= q <= 1.0
  {
    if d > 0.0 {
      Scaled(q, d, n);
    } else {
      FlipSign(d, q);
      Scaled(q, -d, -n);
    }
  }

  lemma FlipSign(q: real, d: real)
    ensures (-q) * d == -(q * d)
  {
  }

  lemma Scaled(q: real, d: real, e: real)
    requires d > 0.0 && q * d == e
    ensures (q >= 1.0 ==> e >= d) && (q > 1.0 ==> e > d)
    ensures (q <= -1.0 ==> e <= -d) && (q < -1.0 ==> e < -d)
    ensures (q > 0.0 ==> e > 0.0) && (q < 0.0 ==> e < 0.0)
  {
    FlipSign(q, d);
    ScaleUp(q, d, e);
    ScaleUp(-q, d, -e);
  }

  lemma ScaleUp(q: real, d: real, e: real)
    requires d > 0.0 && q * d == e
    ensures (q >= 1.0 ==> e >= d) && (q > 1.0 ==> e > d) && (q > 0.0 ==> e > 0.0)
  {
    assert (q - 1.0) * d == e - d;
    if q > 1.0 {
      Positive(q - 1.0, d);
    }
    if q > 0.0 {
      Positive(q, d);
    }
  }

  lemma Positive(a: real, b: real)
    requires a > 0.0 && b > 0.0
    ensures a * b > 0.0
  {
  }

  lemma QuadraticError(s: real, t: real)
    requires (s >= 0.0 && t >= 0.0) || (s <= 0.0 && t <= 0.0)
    requires -1.0 <= t <= 1.0 && -1.0 <= s <= 1.0
    requires Abs(s - t) * 32768.0 < 1.0
    ensures Abs(Quadratic(s) - Quadratic(t)) < 0.5
  {
    var slope := 11039.0 - 2847.0 * (Abs(s) + Abs(t));
    var e := s - t;
    assert Quadratic(s) - Quadratic(t) == slope * e;
    assert 0.0 < slope <= 11039.0;
    SlopeTimes(slope, Abs(e));
    assert Abs(slope * e) == slope * Abs(e);
  }

  lemma SlopeTimes(slope: real, e: real)
    requires 0.0 <= slope <= 11039.0 && e >= 0.0
    ensures 0.0 <= slope * e <= 11039.0 * e
  {
    assert (11039.0 - slope) * e >= 0.0;
  }

  // The whole circle

  /** The angle as an unsigned 16-bit fraction of a turn. */
  function Turn(y: Int16, x: Int16): (turn: nat) { Atan2(y, x) % 0x1_0000 }

  predicate SameTurn(a: int, b: int) { (a - b) % 0x1_0000 == 0 }

  /** `turn` lies in the closed eighth number `octant`, counted from 0 at the positive x axis. */
  predicate InOctant(turn: nat, octant: nat) {
    octant * 8192 <= turn <= (octant + 1) * 8192 || (octant == 7 && turn == 0)
  }

  lemma RatioFacts(y: Int16, x: Int16)
    requires x != y
    ensures Magnitude(y) < Magnitude(x) ==> x != 0 && Ratio(y, x) == Q15Div(y, x)
    ensures Magnitude(x) <= Magnitude(y) ==> y != 0 && Ratio(y, x) == Q15Div(x, y)
    ensures (y >= 0 && x >= 0) || (y <= 0 && x <= 0) ==> Ratio(y, x) >= 0
    ensures (y >= 0 && x <= 0) || (y <= 0 && x >= 0) ==> Ratio(y, x) <= 0
    ensures Ratio(y, x) == -0x8000 <==> y as int == -(x as int)
  {
    hide Q15Div;
    if Nabs(x) < Nabs(y) {
      QuotientFits(y, x);
    } else {
      QuotientFits(x, y);
    }
  }

  /** No division by zero and no quotient outside 16 bits, for any pair of inputs. */
  lemma QuotientsAreInRange(y: Int16, x: Int16)
    requires x != y
    ensures Nabs(x) < Nabs(y) ==> x != 0 && FitsInt16(TruncDiv(y * 0x8000, x))
    ensures Nabs(x) >= Nabs(y) ==> y != 0 && FitsInt16(TruncDiv(x * 0x8000, y))
  {
    hide TruncDiv;
    if Nabs(x) < Nabs(y) {
      QuotientFits(y, x);
    } else {
      QuotientFits(x, y);
    }
  }

  lemma CutKeepsTurn(a: int, b: int, c: int)
    ensures SameTurn(Wrap16(a), Wrap16(b) + c) == SameTurn(a, b + c)
    ensures SameTurn(Wrap16(a), c - Wrap16(b)) == SameTurn(a, c - b)
  {
    var p, q := (a + 0x8000) / 0x1_0000, (b + 0x8000) / 0x1_0000;
    assert Wrap16(a) == a - 0x1_0000 * p && Wrap16(b) == b - 0x1_0000 * q;
    hide Wrap16;
    WholeTurns(a - b - c, p - q);
    WholeTurns(a - c + b, p + q);
  }

  lemma WholeTurns(x: int, k: int)
    ensures (x - 0x1_0000 * k) % 0x1_0000 == x % 0x1_0000
  {
  }

  /** Which values before the cut are possible, by quadrant and larger coordinate. */
  lemma RotatedByRatio(y: Int16, x: Int16) returns (u: int)
    requires x != y
    ensures u == Unrotated(Ratio(y, x)) && -8192 <= u <= 8192
    ensures (y >= 0 && x >= 0) || (y <= 0 && x <= 0) ==> u >= 0
    ensures (y >= 0 && x <= 0) || (y <= 0 && x >= 0) ==> u <= 0
    ensures y as int == -(x as int) ==> u == -8192
    ensures Rotated(y, x) ==
      if Magnitude(y) < Magnitude(x) then if x > 0 then u else 32768 + u
      else if y > 0 then 16384 - u else 49152 - u
  {
    hide Q15Div, Unrotated;
    RatioFacts(y, x);
    UnrotatedWithinEighth(Ratio(y, x));
    u := Unrotated(Ratio(y, x));
  }

  /** The angle lies in the eighth of a turn that holds the vector. */
  lemma AngleInItsOctant(y: Int16, x: Int16)
    ensures 0 <= y <= x ==> InOctant(Turn(y, x), 0)
    ensures 0 <= x <= y && y > 0 ==> InOctant(Turn(y, x), 1)
    ensures x <= 0 <= -(x as int) <= y && y > 0 ==> InOctant(Turn(y, x), 2)
    ensures 0 <= y <= -(x as int) && x < 0 ==> InOctant(Turn(y, x), 3)
    ensures x <= y <= 0 && x < 0 ==> InOctant(Turn(y, x), 4)
    ensures y <= x <= 0 && y < 0 ==> InOctant(Turn(y, x), 5)
    ensures 0 <= x <= -(y as int) && y < 0 ==> InOctant(Turn(y, x), 6)
    ensures 0 <= -(y as int) <= x && x > 0 ==> InOctant(Turn(y, x), 7)
  {
    TurnOf(y, x);
    hide Q15Div, Unrotated, Turn;
    if x != y {
      var u := RotatedByRatio(y, x);
      hide Rotated;
    }
  }

  lemma TurnOf(y: Int16, x: Int16)
    ensures 0 <= Rotated(y, x) < 0x1_0000 ==> Turn(y, x) == Rotated(y, x)
    ensures -0x1_0000 <= Rotated(y, x) < 0 ==> Turn(y, x) == Rotated(y, x) + 0x1_0000
  {
    hide Rotated;
    var p := (Rotated(y, x) + 0x8000) / 0x1_0000;
    assert Atan2(y, x) as int == Rotated(y, x) - 0x1_0000 * p;
  }

  lemma SameTurnByDifference(a: int, b: int)
    requires -0x2_0000 < a - b < 0x2_0000
    ensures SameTurn(a, b) <==> a - b == 0 || a - b == 0x1_0000 || a - b == -0x1_0000
  {
  }

  /** Turning the vector by half a turn turns the angle by exactly half a turn, and at the
  origin, which has no direction, it does not. */
  lemma HalfTurnExactlyOffOrigin(y: Int16, x: Int16)
    requires y > -0x8000 && x > -0x8000
    ensures SameTurn(Atan2(-(y as int), -(x as int)), Atan2(y, x) + 0x8000) <==> !(x == 0 && y == 0)
  {
    var y', x': Int16 := -(y as int), -(x as int);
    CutKeepsTurn(Rotated(y', x'), Rotated(y, x), 0x8000);
    RotatedOpposite(y, x);
    hide Rotated, Wrap16;
    SameTurnByDifference(Rotated(y', x'), Rotated(y, x) + 0x8000);
  }

  lemma RotatedOpposite(y: Int16, x: Int16)
    requires y > -0x8000 && x > -0x8000
    ensures var d := Rotated(-(y as int), -(x as int)) - Rotated(y, x);
            if x == 0 && y == 0 then d == 0 else d == 0x8000 || d == -0x8000
  {
    if x != y {
      SameRatioOpposite(y, x);
      hide Unrotated, Ratio;
      var u := RotatedByRatio(y, x);
      var u' := RotatedByRatio(-(y as int), -(x as int));
      hide Rotated;
    }
  }

  lemma SameRatioOpposite(y: Int16, x: Int16)
    requires y > -0x8000 && x > -0x8000
    requires x != y
    ensures Ratio(-(y as int), -(x as int)) == Ratio(y, x)
  {
    hide TruncDiv, Wrap16;
    if Nabs(x) < Nabs(y) {
      SignRules(y * 0x8000, x);
    } else {
      SignRules(x * 0x8000, y);
    }
  }

  /** Mirroring the vector in the diagonal mirrors the angle in an eighth of a turn. */
  lemma DiagonalMirrorExactlyOffOrigin(y: Int16, x: Int16)
    ensures SameTurn(Atan2(x, y), 16384 - Atan2(y, x)) <==> !(x == 0 && y == 0)
  {
    CutKeepsTurn(Rotated(x, y), Rotated(y, x), 16384);
    RotatedSwapped(y, x);
    hide Rotated, Wrap16;
    SameTurnByDifference(Rotated(x, y), 16384 - Rotated(y, x));
  }

  lemma RotatedSwapped(y: Int16, x: Int16)
    ensures var s := Rotated(x, y) + Rotated(y, x);
            if x == 0 && y == 0 then s == 0 else s == 16384 || s == 16384 + 0x1_0000
  {
    if x != y {
      assert Magnitude(x) != Magnitude(y) ==> Ratio(x, y) == Ratio(y, x);
      hide Unrotated, Ratio;
      var u := RotatedByRatio(y, x);
      var u' := RotatedByRatio(x, y);
      hide Rotated;
    }
  }

  /** The last product lies halfway between two angles, which `Q15Mul` does not round evenly. */
  predicate LastProductTies(y: Int16, x: Int16) {
    Magnitude(x) != Magnitude(y) && Tie((K2 + Correction(Ratio(y, x))) * Ratio(y, x))
  }

  /** Mirroring the vector in the x axis changes the sign of the angle, unless the last product
  is a tie; then the angle is off by exactly one unit. */
  lemma AxisMirrorExactlyWithoutTie(y: Int16, x: Int16)
    requires y > -0x8000
    ensures SameTurn(Atan2(-(y as int), x), 0 - Atan2(y, x)) <==> !LastProductTies(y, x)
    ensures LastProductTies(y, x) ==>
              SameTurn(Atan2(-(y as int), x), (if Magnitude(y) < Magnitude(x) then -1 else 1) - Atan2(y, x))
  {
    var y': Int16 := -(y as int);
    var off := if Magnitude(y) < Magnitude(x) then -1 else 1;
    CutKeepsTurn(Rotated(y', x), Rotated(y, x), 0);
    CutKeepsTurn(Rotated(y', x), Rotated(y, x), off);
    RotatedMirrored(y, x);
    hide Rotated, Wrap16, LastProductTies;
    SameTurnByDifference(Rotated(y', x), 0 - Rotated(y, x));
    SameTurnByDifference(Rotated(y', x), off - Rotated(y, x));
  }

  lemma RotatedMirrored(y: Int16, x: Int16)
    requires y > -0x8000
    ensures var s := Rotated(-(y as int), x) + Rotated(y, x);
            var off := if !LastProductTies(y, x) then 0 else if Magnitude(y) < Magnitude(x) then -1 else 1;
            s == off || s == off + 0x1_0000
  {
    if Magnitude(x) != Magnitude(y) {
      OppositeRatio(y, x);
      OppositeUnrotated(Ratio(y, x));
      hide Ratio, Unrotated, Tie, Correction;
      var u := RotatedByRatio(y, x);
      var u' := RotatedByRatio(-(y as int), x);
      hide Rotated;
    } else if y != 0 {
      hide Unrotated, Ratio;
      var u := RotatedByRatio(if x == y then -(y as int) else y, x);
    }
  }

  lemma OppositeRatio(y: Int16, x: Int16)
    requires y > -0x8000
    requires Magnitude(x) != Magnitude(y)
    ensures Ratio(y, x) > -0x8000
    ensures Ratio(-(y as int), x) == -(Ratio(y, x) as int)
  {
    RatioFacts(y, x);
    hide TruncDiv, Wrap16;
    if Nabs(x) < Nabs(y) {
      SignRules(y * 0x8000, x);
      QuotientFits(y, x);
      QuotientFits(-(y as int), x);
    } else {
      SignRules(x * 0x8000, y);
      QuotientFits(x, y);
      QuotientFits(x, -(y as int));
    }
  }

  lemma OppositeUnrotated(r: Int16)
    requires r > -0x8000
    ensures Unrotated(-(r as int)) == -(Unrotated(r) as int) - if Tie((K2 + Correction(r)) * r) then 1 else 0
  {
    var r': Int16 := -(r as int);
    assert Nabs(r') == Nabs(r);
    var slope := K2 as int + Correction(r);
    assert slope * r' == -(slope * r);
    OppositeShift(slope * r);
  }

  lemma OppositeShift(p: int)
    ensures RoundShift(-p) == -RoundShift(p) - if Tie(p) then 1 else 0
  {
  }
}
