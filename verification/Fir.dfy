/** Plain finite impulse response filters over unbounded integers: the reference against
which the packed fixed-point filters are proved. */
module Fir {
  import opened Simd

  /** taps[0]*xs[0] + ... + taps[n-1]*xs[n-1] */
  function Dot(taps: seq<int>, xs: seq<int>, n: nat): int
    requires n <= |taps| && n <= |xs|
  {
    if n == 0 then 0 else Dot(taps, xs, n - 1) + taps[n - 1] * xs[n - 1]
  }

  lemma DotStep(taps: seq<int>, xs: seq<int>, n: nat)
    requires n < |taps| && n < |xs|
    ensures Dot(taps, xs, n + 1) == Dot(taps, xs, n) + xs[n] * taps[n]
  {
  }

  function Re(xs: seq<Complex>): (r: seq<int>)
    ensures |r| == |xs|
  {
    seq(|xs|, i requires 0 <= i < |xs| => xs[i].re)
  }

  function Im(xs: seq<Complex>): (r: seq<int>)
    ensures |r| == |xs|
  {
    seq(|xs|, i requires 0 <= i < |xs| => xs[i].im)
  }

  /** A real-tap filter applied to complex samples. */
  function ComplexDot(taps: seq<int>, xs: seq<Complex>, n: nat): Complex
    requires n <= |taps| && n <= |xs|
  {
    Complex(Dot(taps, Re(xs), n), Dot(taps, Im(xs), n))
  }

  /** What a packed filter does with its two 32-bit sums. */
  function Finish(sum: Complex, scale: Int32): Complex {
    ScaleRoundAndPack(Complex(Wrap32(sum.re), Wrap32(sum.im)), scale)
  }

  function PlainWindow(taps: seq<int>, scale: Int32): seq<Complex> -> Complex {
    xs => if |xs| == |taps| then Finish(ComplexDot(taps, xs, |taps|), scale) else ZERO
  }

  /** The largest and the smallest sum that 16-bit samples can produce. */
  function Highest(taps: seq<int>, n: nat): int
    requires n <= |taps|
  {
    if n == 0 then 0 else Highest(taps, n - 1) + (if taps[n - 1] >= 0 then 0x7FFF else -0x8000) * taps[n - 1]
  }

  function Lowest(taps: seq<int>, n: nat): int
    requires n <= |taps|
  {
    if n == 0 then 0 else Lowest(taps, n - 1) + (if taps[n - 1] >= 0 then -0x8000 else 0x7FFF) * taps[n - 1]
  }

  lemma {:induction false} DotWithinExtremes(taps: seq<int>, xs: seq<Int16>, n: nat)
    requires n <= |taps| && n <= |xs|
    ensures Lowest(taps, n) <= Dot(taps, xs, n) <= Highest(taps, n)
  {
    if n > 0 {
      DotWithinExtremes(taps, xs, n - 1);
      TermWithinExtremes(taps[n - 1], xs[n - 1]);
    }
  }

  lemma TermWithinExtremes(t: int, x: Int16)
    ensures (if t >= 0 then -0x8000 else 0x7FFF) * t <= t * x <= (if t >= 0 then 0x7FFF else -0x8000) * t
  {
    if t >= 0 {
      assert t * (0x7FFF - x) >= 0 && t * (x + 0x8000) >= 0;
    } else {
      assert (-t) * (x + 0x8000) >= 0 && (-t) * (0x7FFF - x) >= 0;
    }
  }

  /** The window of 16-bit samples that attains one of the extremes. */
  function Worst(taps: seq<int>, high: bool): (xs: seq<Int16>)
    ensures |xs| == |taps|
  {
    seq(|taps|, i requires 0 <= i < |taps| => if (taps[i] >= 0) == high then 0x7FFF else -0x8000)
  }

  lemma {:induction false} WorstIsAttained(taps: seq<int>, n: nat)
    requires n <= |taps|
    ensures Dot(taps, Worst(taps, true), n) == Highest(taps, n)
    ensures Dot(taps, Worst(taps, false), n) == Lowest(taps, n)
  {
    if n > 0 {
      WorstIsAttained(taps, n - 1);
    }
  }

  /** No 16-bit input can make the 32-bit accumulator overflow. */
  predicate NeverOverflows(taps: seq<int>) {
    -0x8000_0000 <= Lowest(taps, |taps|) && Highest(taps, |taps|) <= 0x7FFF_FFFF
  }

  /** A 32-bit accumulator is exact for every 16-bit input if and only if the two extreme
      windows fit. */
  lemma ExactExactlyWhenExtremesFit(taps: seq<int>)
    ensures NeverOverflows(taps) <==>
            forall xs: seq<Int16> :: |xs| == |taps| ==> Wrap32(Dot(taps, xs, |taps|)) == Dot(taps, xs, |taps|)
  {
    var n := |taps|;
    if NeverOverflows(taps) {
      forall xs: seq<Int16> | |xs| == n ensures Wrap32(Dot(taps, xs, n)) == Dot(taps, xs, n) {
        DotWithinExtremes(taps, xs, n);
      }
    } else {
      WorstIsAttained(taps, n);
      var bad := Worst(taps, Highest(taps, n) > 0x7FFF_FFFF);
      assert Wrap32(Dot(taps, bad, n)) != Dot(taps, bad, n);
    }
  }
}
