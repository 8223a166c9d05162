/** What the two packed filters put out, as numbers: the tap sum times the scale, divided by 2^32,
rounded to the nearest integer and saturated to 16 bits, for each component on its own. */
module OutputRounding {
  import opened Simd
  import opened Fir
  import opened Decimation

  /** `y` is p / 2^32, rounded to the nearest integer (a tie goes up), or the nearer end of the
  16-bit range. */
  predicate IsQuotient(p: int, y: int) {
    if p < -0x8000 * 0x1_0000_0000 - 0x8000_0000 then y == -0x8000
    else if p >= 0x7FFF * 0x1_0000_0000 + 0x8000_0000 then y == 0x7FFF
    else -0x8000_0000 <= p - y * 0x1_0000_0000 < 0x8000_0000
  }

  /** `y` comes from the sum as a 32-bit register holds it: any int32 that differs from it by whole
  wrap-arounds, so the sum itself whenever that fits. */
  ghost predicate ComesFrom(sum: int, scale: Int32, y: int) {
    forall s: Int32 :: (sum - s) % 0x1_0000_0000 == 0 ==> IsQuotient(s * scale, y)
  }

  lemma OnlyOneQuotient(p: int, y: int, z: int)
    requires IsQuotient(p, y) && IsQuotient(p, z)
    ensures y == z
  {
  }

  lemma RoundedAndSaturated(value: Int32, scale: Int32)
    ensures IsQuotient(value * scale, Saturate16(Smmulr(value, scale)))
  {
    QuotientOf(value * scale);
  }

  lemma QuotientOf(p: int)
    ensures IsQuotient(p, Saturate16((p + 0x8000_0000) / 0x1_0000_0000))
  {
  }

  lemma OnlyRegister(sum: int, s: Int32)
    requires (sum - s) % 0x1_0000_0000 == 0
    ensures s == Wrap32(sum)
  {
  }

  lemma ComponentComesFrom(sum: int, scale: Int32)
    ensures ComesFrom(sum, scale, Saturate16(Smmulr(Wrap32(sum), scale)))
  {
    forall s: Int32 | (sum - s) % 0x1_0000_0000 == 0
      ensures IsQuotient(s * scale, Saturate16(Smmulr(Wrap32(sum), scale)))
    {
      OnlyRegister(sum, s);
      RoundedAndSaturated(s, scale);
      hide IsQuotient, Saturate16, Smmulr;
    }
  }

  lemma FinishedComponents(sum: Complex, scale: Int32)
    ensures ComesFrom(sum.re, scale, Finish(sum, scale).re) && ComesFrom(sum.im, scale, Finish(sum, scale).im)
  {
    hide ComesFrom, Saturate16, Smmulr, Wrap32;
    ComponentComesFrom(sum.re, scale);
    ComponentComesFrom(sum.im, scale);
  }

  /** `y` is the output for the window of `xs` that begins at `start`: the real part from the real
  parts of the samples, the imaginary part from the imaginary ones. */
  ghost predicate IsOutputAt(y: Complex, taps: seq<int>, scale: Int32, xs: seq<Complex>, start: nat) {
    start + |taps| <= |xs| &&
    var b := xs[start..start + |taps|];
    ComesFrom(Dot(taps, Re(b), |taps|), scale, y.re) && ComesFrom(Dot(taps, Im(b), |taps|), scale, y.im)
  }

  /** One output for every `d` samples that follow the first |taps| - d. */
  ghost predicate AreOutputs(ys: seq<Complex>, taps: seq<int>, scale: Int32, d: nat, xs: seq<Complex>)
    requires 1 <= d <= |taps| && |xs| >= |taps| - d
  {
    && |ys| == (|xs| - (|taps| - d)) / d
    && forall k :: 0 <= k < |ys| ==> IsOutputAt(ys[k], taps, scale, xs, Start(d, k))
  }

  function Start(d: nat, k: nat): nat { d * k }

  lemma PlainOutput(taps: seq<int>, scale: Int32, xs: seq<Complex>)
    requires |xs| == |taps|
    ensures var y := PlainWindow(taps, scale)(xs);
            ComesFrom(Dot(taps, Re(xs), |taps|), scale, y.re) && ComesFrom(Dot(taps, Im(xs), |taps|), scale, y.im)
  {
    hide ComesFrom, Finish, Dot, Re, Im;
    FinishedComponents(ComplexDot(taps, xs, |taps|), scale);
  }

  /** What the decimators of the plain filter put out, number by number. */
  lemma PlainOutputs(taps: seq<int>, scale: Int32, d: nat, xs: seq<Complex>)
    requires 1 <= d <= |taps| && |xs| >= |taps| - d
    ensures AreOutputs(Decimate<Complex, Complex>(PlainWindow(taps, scale), |taps|, d, xs), taps, scale, d, xs)
  {
    hide Decimate, PlainWindow, ComesFrom, Dot;
    var w := PlainWindow(taps, scale);
    var ys := Decimate<Complex, Complex>(w, |taps|, d, xs);
    OutputCount<Complex, Complex>(w, |taps|, d, xs);
    forall k | 0 <= k < |ys| ensures IsOutputAt(ys[k], taps, scale, xs, Start(d, k)) {
      GroupFits(|xs| - (|taps| - d), d, k);
      OutputAt<Complex, Complex>(w, |taps|, d, xs, k);
      PlainOutput(taps, scale, xs[d * k..d * k + |taps|]);
    }
  }
}
