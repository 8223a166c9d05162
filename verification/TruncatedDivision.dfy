/** Facts about C++ integer division, whose quotient is cut toward zero. */
module TruncatedDivision {

  import opened Simd
  import Decimation

  function Magnitude(x: int): nat { if x < 0 then -x else x }

  /** The quotient is the quotient of the magnitudes, with the sign of the exact one. */
  lemma QuotientOfMagnitudes(a: int, b: int)
    requires b != 0
    ensures TruncDiv(a, b) == if (a >= 0) == (b > 0) then Magnitude(a) / Magnitude(b) else -(Magnitude(a) / Magnitude(b))
  {
    if b < 0 {
      var m, n := Magnitude(a), Magnitude(b);
      assert m == b * (m / b) + m % b;
      assert n * -(m / b) == b * (m / b);
      Decimation.UniqueQuotient(m, n, -(m / b), m % b);
    }
  }

  /** Changing the sign of both operands changes nothing; changing one changes the quotient's sign. */
  lemma SignRules(a: int, b: int)
    requires b != 0
    ensures TruncDiv(-a, -b) == TruncDiv(a, b)
    ensures TruncDiv(-a, b) == -TruncDiv(a, b) && TruncDiv(a, -b) == -TruncDiv(a, b)
  {
    QuotientOfMagnitudes(a, b);
    QuotientOfMagnitudes(-a, -b);
    QuotientOfMagnitudes(-a, b);
    QuotientOfMagnitudes(a, -b);
    assert a == 0 ==> 0 / Magnitude(b) == 0;
  }

  /** Multiplying back leaves an error smaller than the divisor, and the signs agree. */
  lemma ErrorBelowDivisor(a: int, b: int)
    requires b != 0
    ensures Magnitude(TruncDiv(a, b) * b - a) < Magnitude(b)
    ensures Magnitude(TruncDiv(a, b)) == Magnitude(a) / Magnitude(b)
    ensures a == 0 || (a > 0) == (b > 0) ==> TruncDiv(a, b) >= 0
    ensures a == 0 || (a > 0) != (b > 0) ==> TruncDiv(a, b) <= 0
  {
    QuotientOfMagnitudes(a, b);
    hide TruncDiv;
    var m, n := Magnitude(a), Magnitude(b);
    QuotientTimesDivisor(m, n);
    SignedProduct(TruncDiv(a, b), b, m / n, n);
  }

  lemma QuotientTimesDivisor(m: nat, n: nat)
    requires n > 0
    ensures m / n >= 0 && m - n < n * (m / n) <= m
  {
    assert m == n * (m / n) + m % n;
  }

  lemma SignedProduct(r: int, b: int, q: nat, n: nat)
    requires (r == q || r == -(q as int)) && (b == n || b == -(n as int))
    ensures r * b == if (r == q) == (b == n) then n * q else -((n * q) as int)
  {
  }

  /** A multiple of the divisor is divided without loss. */
  lemma ExactQuotient(v: int, k: int)
    requires k != 0
    ensures TruncDiv(k * v, k) == v
  {
    var m, n := Magnitude(v), Magnitude(k);
    QuotientOfMagnitudes(k * v, k);
    Decimation.UniqueQuotient(n * m, n, m, 0);
    if v >= 0 && k > 0 {
      assert k * v == n * m >= 0;
    } else if v >= 0 {
      assert -(k * v) == n * m >= 0;
    } else if k > 0 {
      assert -(k * v) == n * m > 0;
    } else {
      assert k * v == n * m > 0;
    }
  }
}
