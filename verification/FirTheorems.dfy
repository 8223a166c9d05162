/** What the outputs of the 64-tap real filter and of the complex filter are, as numbers. */
module FirTheorems {
  import opened Simd
  import opened Fir
  import opened RealFir64
  import opened ComplexFir
  import CicTheorems
  import FsQuarterFir

  /** The 64-tap filter: the sum as a 32-bit register holds it, divided by 65536, toward zero. */
  lemma Fir64Output(taps: seq<int>, xs: seq<int>, s: Int32)
    requires |taps| == |xs| && (Dot(taps, xs, |taps|) - s) % 0x1_0000_0000 == 0
    ensures CicTheorems.IsTruncated(s, 0x1_0000, Fir64Window(taps)(xs))
  {
    assert s == Wrap32(Dot(taps, xs, |taps|));
    CicTheorems.TruncatedQuotient(s, 0x1_0000);
    hide TruncDiv, CicTheorems.IsTruncated;
  }

  function Backwards<T>(xs: seq<T>): (r: seq<T>)
    ensures |r| == |xs|
  {
    seq(|xs|, i requires 0 <= i < |xs| => xs[|xs| - 1 - i])
  }

  /** Convolution in four real dot products with the taps backwards. */
  lemma {:induction false} ConvolutionInParts(taps: seq<Complex>, xs: seq<Complex>, n: nat)
    requires n <= |taps| && n <= |xs|
    ensures var ts := Backwards(taps);
            && Convolution(taps, xs, n).re == Dot(Re(ts), Re(xs), n) - Dot(Im(ts), Im(xs), n)
            && Convolution(taps, xs, n).im == Dot(Re(ts), Im(xs), n) + Dot(Im(ts), Re(xs), n)
  {
    if n > 0 {
      ConvolutionInParts(taps, xs, n - 1);
      OneTerm(taps, xs, n);
      hide Convolution, Dot, Backwards, Re, Im;
    }
  }

  lemma OneTerm(taps: seq<Complex>, xs: seq<Complex>, n: nat)
    requires 1 <= n <= |taps| && n <= |xs|
    ensures var ts := Backwards(taps); var before := Convolution(taps, xs, n - 1);
            var x, t := xs[n - 1], ts[n - 1];
            && Convolution(taps, xs, n).re == before.re + (x.re * t.re - x.im * t.im)
            && Convolution(taps, xs, n).im == before.im + (x.re * t.im + x.im * t.re)
            && Dot(Re(ts), Re(xs), n) == Dot(Re(ts), Re(xs), n - 1) + x.re * t.re
            && Dot(Im(ts), Im(xs), n) == Dot(Im(ts), Im(xs), n - 1) + x.im * t.im
            && Dot(Re(ts), Im(xs), n) == Dot(Re(ts), Im(xs), n - 1) + x.im * t.re
            && Dot(Im(ts), Re(xs), n) == Dot(Im(ts), Re(xs), n - 1) + x.re * t.im
  {
    var ts := Backwards(taps);
    DotStep(Re(ts), Re(xs), n - 1);
    DotStep(Im(ts), Im(xs), n - 1);
    DotStep(Re(ts), Im(xs), n - 1);
    DotStep(Im(ts), Re(xs), n - 1);
    hide Dot;
  }

  predicate IsClamped(r: int, y: int) {
    if r < -0x8000 then y == -0x8000 else if r > 0x7FFF then y == 0x7FFF else y == r
  }

  /** `q` is sum / 65536, rounded down. */
  predicate IsHighPart(sum: int, q: int) { 0 <= sum - 0x1_0000 * q < 0x1_0000 }

  predicate SameRegister(q: int, r: Int32) { (q - r) % 0x1_0000_0000 == 0 }

  /** `y` is floor(sum / 65536) as a 32-bit register holds it, clamped to 16 bits. */
  ghost predicate IsNormalized(sum: int, y: int) {
    forall q: int, r: Int32 :: IsHighPart(sum, q) && SameRegister(q, r) ==> IsClamped(r, y)
  }

  lemma Normalized(sum: int)
    ensures IsNormalized(sum, Normalize(sum))
  {
    forall q: int, r: Int32 | IsHighPart(sum, q) && SameRegister(q, r)
      ensures IsClamped(r, Normalize(sum))
    {
      assert q == sum / 0x1_0000;
      assert r == Wrap32(q);
      hide Wrap32;
    }
  }

  /** The complex filter: both components of the convolution over the complete groups of eight taps. */
  lemma ComplexOutput(taps: seq<Complex>, xs: seq<Complex>)
    requires |taps| == |xs|
    ensures var y, ts, n := ConvolutionWindow(taps)(xs), Backwards(taps), |taps| - |taps| % 8;
            && IsNormalized(Dot(Re(ts), Re(xs), n) - Dot(Im(ts), Im(xs), n), y.re)
            && IsNormalized(Dot(Re(ts), Im(xs), n) + Dot(Im(ts), Re(xs), n), y.im)
  {
    var n := |taps| - |taps| % 8;
    assert n == Summed(|taps|);
    hide Convolution, Dot, Backwards, Re, Im, Normalize, IsNormalized, Summed;
    ConvolutionInParts(taps, xs, n);
    Normalized(Convolution(taps, xs, n).re);
    Normalized(Convolution(taps, xs, n).im);
  }
}
