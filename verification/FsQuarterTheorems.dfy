/** The packed filter is "translate by a quarter of the sampling rate, filter, decimate". */
module FsQuarterTheorems {
  import opened Simd
  import opened Fir
  import opened Decimation
  import opened FsQuarterFir

  /** No tap that has to be negated is -32768, whose negation is not an int16_t. */
  predicate NegationsExact(taps: seq<Int16>, shift: Shift) {
    forall n :: 0 <= n < |taps| ==> NegatesTap(n, shift) ==> taps[n] != -0x8000
  }

  function QuarterTurn(y: Complex, shift: Shift): Complex {
    if shift.Down? then Complex(y.im, -y.re) else Complex(-y.im, y.re)
  }

  lemma RotateOneMore(x: Complex, n: nat, shift: Shift)
    ensures Rotate(x, n + 1, shift) == QuarterTurn(Rotate(x, n, shift), shift)
  {
    var y := Rotate(x, n, shift);
    assert Times(y, Rotor(shift)) == QuarterTurn(y, shift);
  }

  /** Four quarter turns are a full turn. */
  lemma RotateByFour(x: Complex, n: nat, shift: Shift)
    ensures Rotate(x, n + 4, shift) == Rotate(x, n, shift)
  {
    hide Rotate, Times;
    RotateOneMore(x, n, shift);
    RotateOneMore(x, n + 1, shift);
    RotateOneMore(x, n + 2, shift);
    RotateOneMore(x, n + 3, shift);
  }

  lemma {:induction false} RotatePeriod(x: Complex, n: nat, q: nat, shift: Shift)
    ensures Rotate(x, n + 4 * q, shift) == Rotate(x, n, shift)
  {
    if q > 0 {
      RotatePeriod(x, n, q - 1, shift);
      RotateByFour(x, n + 4 * (q - 1), shift);
    }
  }

  function Opposite(x: Complex): Complex { Complex(-x.re, -x.im) }

  function Turned(x: Complex, n: nat, shift: Shift): Complex {
    match n % 4
    case 0 => x
    case 1 => QuarterTurn(x, shift)
    case 2 => Opposite(x)
    case _ => QuarterTurn(Opposite(x), shift)
  }

  lemma RotateClosedForm(x: Complex, n: nat, shift: Shift)
    ensures Rotate(x, n, shift) == Turned(x, n, shift)
  {
    RotatePeriod(x, n % 4, n / 4, shift);
    FirstFourRotations(x, shift);
    assert n % 4 == 0 || n % 4 == 1 || n % 4 == 2 || n % 4 == 3;
    hide Rotate, QuarterTurn;
  }

  lemma FirstFourRotations(x: Complex, shift: Shift)
    ensures Rotate(x, 0, shift) == x && Rotate(x, 1, shift) == QuarterTurn(x, shift)
    ensures Rotate(x, 2, shift) == Opposite(x)
    ensures Rotate(x, 3, shift) == QuarterTurn(Opposite(x), shift)
  {
    assert Rotate(x, 0, shift) == x;
    hide Rotate, Times;
    RotateOneMore(x, 0, shift);
    RotateOneMore(x, 1, shift);
    RotateOneMore(x, 2, shift);
  }

  /** Sample n of the tone at plus a quarter of the sampling rate. */
  function QuarterTone(n: nat): Complex {
    match n % 4
    case 0 => Complex(1, 0)
    case 1 => Complex(0, 1)
    case 2 => Complex(-1, 0)
    case _ => Complex(0, -1)
  }

  /** Shifting down brings that tone to frequency zero; shifting up brings its mirror image there. */
  lemma QuarterToneGoesToZero(n: nat)
    ensures Rotate(QuarterTone(n), n, Down) == Complex(1, 0)
    ensures Rotate(Complex(QuarterTone(n).re, -QuarterTone(n).im), n, Up) == Complex(1, 0)
  {
    hide Rotate;
    RotateClosedForm(QuarterTone(n), n, Down);
    RotateClosedForm(Complex(QuarterTone(n).re, -QuarterTone(n).im), n, Up);
    assert n % 4 == 0 || n % 4 == 1 || n % 4 == 2 || n % 4 == 3;
  }

  lemma SameRotation(x: Complex, m: nat, n: nat, shift: Shift)
    requires m % 4 == n % 4
    ensures Rotate(x, m, shift) == Rotate(x, n, shift)
  {
    RotateClosedForm(x, m, shift);
    RotateClosedForm(x, n, shift);
  }

  lemma SilenceStaysSilent(n: nat, shift: Shift)
    ensures Rotate(ZERO, n, shift) == ZERO
  {
    hide Rotate;
    RotateClosedForm(ZERO, n, shift);
  }

  lemma SilentTerms(s: int, n: nat)
    ensures Mac(s, ZERO, n) == ZERO && ZERO.Scaled(s) == ZERO
  {
  }

  /** The negation pattern and the swapped lanes amount to multiplying the rotated sample. */
  lemma MacIsRotatedTap(t: Int16, x: Complex, n: nat, shift: Shift)
    requires NegatesTap(n, shift) ==> t != -0x8000
    ensures Mac(StoredTap(t, n, shift), x, n) == Rotate(x, n, shift).Scaled(t)
  {
    hide *;
    RotateClosedForm(x, n, shift);
    StoredSign(t, n, shift);
    TurnedTap(t, x, n, shift);
  }

  lemma StoredSign(t: Int16, n: nat, shift: Shift)
    requires NegatesTap(n, shift) ==> t != -0x8000
    ensures StoredTap(t, n, shift) == if NegatesTap(n, shift) then Negated(t) else t
  {
    hide NegatesTap;
  }

  lemma TurnedTap(t: int, x: Complex, n: nat, shift: Shift)
    ensures Mac(if NegatesTap(n, shift) then Negated(t) else t, x, n) == Turned(x, n, shift).Scaled(t)
  {
    hide *;
    var stored := if NegatesTap(n, shift) then Negated(t) else t;
    MacByPhase(stored, x, n);
    NegatesByPhase(n, shift);
    TurnedByPhase(x, n, shift);
    StraightTap(t, x);
    DownTap(t, x);
    UpTap(t, x);
    assert n % 4 == 1 || n % 4 == 3 || (n % 2 == 0 && (n % 4 == 0 || n % 4 == 2));
  }

  lemma NegatesByPhase(n: nat, shift: Shift)
    ensures n % 4 == 0 ==> !NegatesTap(n, shift)
    ensures n % 4 == 2 ==> NegatesTap(n, shift)
    ensures n % 4 == 1 || n % 4 == 3 ==> NegatesTap(n, shift) == (shift == Up)
  {
  }

  lemma TurnedByPhase(x: Complex, n: nat, shift: Shift)
    ensures n % 4 == 0 ==> Turned(x, n, shift) == x
    ensures n % 4 == 1 ==> Turned(x, n, shift) == QuarterTurn(x, shift)
    ensures n % 4 == 2 ==> Turned(x, n, shift) == Opposite(x)
    ensures n % 4 == 3 ==> Turned(x, n, shift) == QuarterTurn(Opposite(x), shift)
  {
    hide QuarterTurn;
  }

  lemma StraightTap(t: int, x: Complex)
    ensures Straight(t, x) == x.Scaled(t) && Straight(Negated(t), x) == Opposite(x).Scaled(t)
  {
    NegatedProduct(t, x.re);
    NegatedProduct(t, x.im);
  }

  lemma DownTap(t: int, x: Complex)
    ensures TurnedDown(t, x) == QuarterTurn(x, Down).Scaled(t) && TurnedDown(Negated(t), x) == QuarterTurn(x, Up).Scaled(t)
  {
    NegatedProduct(t, x.re);
    NegatedProduct(t, x.im);
  }

  lemma UpTap(t: int, x: Complex)
    ensures var y := Opposite(x);
            TurnedUp(t, x) == QuarterTurn(y, Down).Scaled(t) && TurnedUp(Negated(t), x) == QuarterTurn(y, Up).Scaled(t)
  {
    NegatedProduct(t, x.re);
    NegatedProduct(t, x.im);
  }

  lemma NegatedProduct(t: int, x: int)
    ensures x * Negated(t) == -(t * x) == t * (-x)
    ensures x * t == t * x
  {
  }

  /** One term of a complex dot product with real taps. */
  lemma ComplexDotStep(taps: seq<int>, xs: seq<Complex>, n: nat)
    requires n < |taps| && n < |xs|
    ensures ComplexDot(taps, xs, n + 1) == ComplexDot(taps, xs, n).Plus(xs[n].Scaled(taps[n]))
  {
  }

  lemma {:induction false} SumIsTranslatedSum(taps: seq<Int16>, xs: seq<Complex>, n: nat, shift: Shift)
    requires n <= |taps| && n <= |xs|
    requires NegationsExact(taps, shift)
    ensures MacSum(StoredTaps(taps, shift), xs, n) == ComplexDot(taps, Translate(xs, shift), n)
  {
    hide Mac, StoredTap, Rotate;
    if n > 0 {
      SumIsTranslatedSum(taps, xs, n - 1, shift);
      MacIsRotatedTap(taps[n - 1], xs[n - 1], n - 1, shift);
      ComplexDotStep(taps, Translate(xs, shift), n - 1);
    }
  }

  /** A single one at position `n` among silence. */
  function Impulse(len: nat, n: nat): (xs: seq<Complex>)
    ensures |xs| == len
  {
    seq(len, i => if i == n then Complex(1, 0) else ZERO)
  }

  lemma {:induction false} PackedImpulseResponse(stored: seq<int>, at: nat, n: nat)
    requires n <= |stored|
    ensures MacSum(stored, Impulse(|stored|, at), n) == if at < n then Mac(stored[at], Complex(1, 0), at) else ZERO
  {
    hide *;
    var xs := Impulse(|stored|, at);
    if n == 0 {
      MacSumOfNothing(stored, xs);
    } else {
      PackedImpulseResponse(stored, at, n - 1);
      SilentTerms(stored[n - 1], n - 1);
      MacSumOneMore(stored, xs, n - 1);
      ImpulseAt(|stored|, at, n - 1);
      PlusZero(MacSum(stored, xs, n - 1));
      PlusZero(Mac(stored[n - 1], xs[n - 1], n - 1));
    }
  }

  lemma ImpulseAt(len: nat, at: nat, i: nat)
    requires i < len
    ensures Impulse(len, at)[i] == if i == at then Complex(1, 0) else ZERO
  {
  }

  lemma PlusZero(c: Complex)
    ensures c.Plus(ZERO) == c && ZERO.Plus(c) == c
  {
  }

  lemma {:induction false} SingleTerm(taps: seq<int>, xs: seq<int>, at: nat, n: nat)
    requires n <= |taps| == |xs|
    requires forall i :: 0 <= i < |xs| && i != at ==> xs[i] == 0
    ensures Dot(taps, xs, n) == if at < n then taps[at] * xs[at] else 0
  {
    if n > 0 {
      SingleTerm(taps, xs, at, n - 1);
    }
  }

  lemma TranslatedImpulseResponse(taps: seq<int>, at: nat, shift: Shift)
    requires at < |taps|
    ensures ComplexDot(taps, Translate(Impulse(|taps|, at), shift), |taps|)
         == Rotate(Complex(1, 0), at, shift).Scaled(taps[at])
  {
    hide Rotate, Dot;
    var ys := Translate(Impulse(|taps|, at), shift);
    forall i | 0 <= i < |ys| && i != at ensures ys[i] == ZERO {
      SilenceStaysSilent(i, shift);
    }
    SingleTerm(taps, Re(ys), at, |taps|);
    SingleTerm(taps, Im(ys), at, |taps|);
  }

  /** A tap whose negation is truncated answers an impulse with the wrong sign. */
  lemma LostNegation(at: nat, shift: Shift)
    requires NegatesTap(at, shift)
    ensures Mac(StoredTap(-0x8000, at, shift), Complex(1, 0), at)
         != Rotate(Complex(1, 0), at, shift).Scaled(-0x8000)
  {
    RotateClosedForm(Complex(1, 0), at, shift);
  }

  /** The packed sums are the translated sums for every window if and only if every negation
      of a tap is exact: a tap of -32768 at a negated position keeps its sign. */
  lemma TranslatesExactlyWhenNegationsExact(taps: seq<Int16>, shift: Shift)
    ensures NegationsExact(taps, shift) <==>
            forall xs: seq<Complex8> :: |xs| == |taps| ==>
              MacSum(StoredTaps(taps, shift), xs, |taps|) == ComplexDot(taps, Translate(xs, shift), |taps|)
  {
    hide Mac, Rotate, StoredTap, MacSum, ComplexDot, NegatesTap;
    var len, stored := |taps|, StoredTaps(taps, shift);
    if NegationsExact(taps, shift) {
      forall xs: seq<Complex8> | |xs| == len
        ensures MacSum(stored, xs, len) == ComplexDot(taps, Translate(xs, shift), len)
      {
        SumIsTranslatedSum(taps, xs, len, shift);
      }
    } else {
      var at :| 0 <= at < len && NegatesTap(at, shift) && taps[at] == -0x8000;
      var xs: seq<Complex8> := Impulse(len, at);
      PackedImpulseResponse(stored, at, len);
      TranslatedImpulseResponse(taps, at, shift);
      LostNegation(at, shift);
      assert MacSum(stored, xs, len) != ComplexDot(taps, Translate(xs, shift), len);
    }
  }

  /** Every output of the packed decimator, over any number of calls, is an output of the
      plain FIR decimator on the translated stream. */
  lemma PackedIsTranslateFilterDecimate(taps: seq<Int16>, scale: Int32, shift: Shift, d: nat, src: seq<Complex>)
    requires |taps| == TAPS && (d == 4 || d == 8)
    requires NegationsExact(taps, shift)
    ensures Decimate<Complex, Complex>(PackedWindow(StoredTaps(taps, shift), scale), TAPS, d, Silence(TAPS - d, ZERO) + src)
         == Decimate<Complex, Complex>(PlainWindow(taps, scale), TAPS, d, Silence(TAPS - d, ZERO) + Translate(src, shift))
  {
    hide StoredTaps, Rotate, Finish, MacSum, ComplexDot, NegationsExact;
    var xs, zs := Silence(TAPS - d, ZERO) + src, Silence(TAPS - d, ZERO) + Translate(src, shift);
    var w, v := PackedWindow(StoredTaps(taps, shift), scale), PlainWindow(taps, scale);
    forall k: nat | d * k + TAPS <= |xs| ensures w(xs[d * k..d * k + TAPS]) == v(zs[d * k..d * k + TAPS]) {
      var a, b := xs[d * k..d * k + TAPS], zs[d * k..d * k + TAPS];
      forall n | 0 <= n < TAPS ensures b[n] == Rotate(a[n], n, shift) {
        TranslatedAt(src, d, d * k + n, n, shift);
      }
      assert b == Translate(a, shift);
      SumIsTranslatedSum(taps, a, TAPS, shift);
    }
    SameWindows<Complex, Complex, Complex>(w, v, TAPS, d, xs, zs);
  }

  /** Windows start at multiples of four, so position within the window gives the rotation. */
  lemma TranslatedAt(src: seq<Complex>, d: nat, m: nat, n: nat, shift: Shift)
    requires d == 4 || d == 8
    requires n <= m < TAPS - d + |src| && (m - n) % 4 == 0
    ensures (Silence(TAPS - d, ZERO) + Translate(src, shift))[m]
         == Rotate((Silence(TAPS - d, ZERO) + src)[m], n, shift)
  {
    hide Rotate;
    if m < TAPS - d {
      SilenceStaysSilent(n, shift);
    } else {
      SameRotation(src[m - (TAPS - d)], m - (TAPS - d), n, shift);
    }
  }
}
