/** The three non-recursive third-order CIC stages, taps (1, 3, 3, 1), decimation by two. */
module Cic3 {
  import opened Simd
  import opened Decimation
  import FsQuarterFir
  import FsQuarterTheorems

  // Reference definitions

  function CicSum(a: Complex, b: Complex, c: Complex, e: Complex): Complex {
    Complex(a.re + 3 * b.re + 3 * c.re + e.re, a.im + 3 * b.im + 3 * c.im + e.im)
  }

  /** Gain 256: the stages that widen int8 samples to int16. */
  function WideningWindow(): seq<Complex> -> Complex {
    xs => if |xs| == 4 then CicSum(xs[0], xs[1], xs[2], xs[3]).Scaled(32) else ZERO
  }

  lemma WideningAt(xs: seq<Complex>)
    requires |xs| == 4
    ensures WideningWindow()(xs) == CicSum(xs[0], xs[1], xs[2], xs[3]).Scaled(32)
  {
  }

  /** The stream translated by minus a quarter of its sampling rate; `xs` starts with the two
      samples of history, so the first new sample keeps its phase. */
  function TranslateDown(xs: seq<Complex>): (ys: seq<Complex>)
    ensures |ys| == |xs|
  {
    seq(|xs|, m requires 0 <= m < |xs| => FsQuarterFir.Rotate(xs[m], m + 2, FsQuarterFir.Down))
  }

  /** Each pass of the loops consumes four samples and adds two outputs. */
  lemma TwoMoreOutputs(w: seq<Complex> -> Complex, xs: seq<Complex>, g: nat, q: seq<Complex>)
    requires |xs| == 2 + 4 * g && |q| == 4
    ensures Decimate(w, 4, 2, xs + q) == Decimate(w, 4, 2, xs) + [w(xs[4 * g..] + q[..2]), w(q)]
  {
    hide Decimate, Carry;
    var mid := xs + q[..2];
    DecimateLast(w, 4, 2, xs, 2 * g, q[..2]);
    DecimateLast(w, 4, 2, mid, 2 * g + 1, q[2..]);
    assert xs + q == mid + q[2..];
    assert mid[4 * g + 2..] + q[2..] == q;
  }

  // The loops: outputs and carried samples after `g` passes over a block

  function OutputsAfter(w: seq<Complex> -> Complex, h: seq<Complex>, block: seq<Complex>, g: nat): seq<Complex>
    requires |h| == 2 && 4 * g <= |block|
  {
    Decimate(w, 4, 2, h + block[..4 * g])
  }

  function CarriedAfter(h: seq<Complex>, block: seq<Complex>, g: nat): (c: seq<Complex>)
    requires |h| == 2 && 4 * g <= |block|
    ensures |c| == 2
  {
    (h + block[..4 * g])[4 * g..]
  }

  lemma NoPassYet(w: seq<Complex> -> Complex, h: seq<Complex>, block: seq<Complex>)
    requires |h| == 2
    ensures OutputsAfter(w, h, block, 0) == [] && CarriedAfter(h, block, 0) == h
  {
    assert h + block[..0] == h;
  }

  lemma AllPasses(w: seq<Complex> -> Complex, h: seq<Complex>, block: seq<Complex>)
    requires |h| == 2 && |block| % 4 == 0
    ensures OutputsAfter(w, h, block, |block| / 4) == Decimate(w, 4, 2, h + block)
    ensures CarriedAfter(h, block, |block| / 4) == (h + block)[|block|..]
  {
    hide Decimate;
    assert block[..4 * (|block| / 4)] == block;
  }

  lemma OnePass(w: seq<Complex> -> Complex, h: seq<Complex>, block: seq<Complex>, g: nat)
    requires |h| == 2 && 4 * g + 4 <= |block|
    ensures OutputsAfter(w, h, block, g + 1) == OutputsAfter(w, h, block, g)
              + [w(CarriedAfter(h, block, g) + [block[4 * g], block[4 * g + 1]]),
                 w([block[4 * g], block[4 * g + 1], block[4 * g + 2], block[4 * g + 3]])]
    ensures CarriedAfter(h, block, g + 1) == [block[4 * g + 2], block[4 * g + 3]]
  {
    hide Decimate;
    TwoMoreOutputs(w, h + block[..4 * g], g, block[4 * g..4 * g + 4]);
    BlockPieces(h, block, g);
  }

  lemma BlockPieces(h: seq<Complex>, block: seq<Complex>, g: nat)
    requires |h| == 2 && 4 * g + 4 <= |block|
    ensures var q := [block[4 * g], block[4 * g + 1], block[4 * g + 2], block[4 * g + 3]];
            block[4 * g..4 * g + 4] == q && q[..2] == [block[4 * g], block[4 * g + 1]]
    ensures (h + block[..4 * g]) + block[4 * g..4 * g + 4] == h + block[..4 * (g + 1)]
    ensures (h + block[..4 * (g + 1)])[4 * (g + 1)..] == [block[4 * g + 2], block[4 * g + 3]]
  {
  }

  /** Each pass stores two outputs. */
  method StorePair(dst: array<Complex16>, g: nat, d0: Complex16, d1: Complex16)
    requires 2 * g + 2 <= dst.Length
    modifies dst
    ensures dst[..2 * (g + 1)] == old(dst[..2 * g]) + [d0, d1]
    ensures forall m :: 2 * g + 2 <= m < dst.Length ==> dst[m] == old(dst[m])
  {
    dst[2 * g], dst[2 * g + 1] := d0, d1;
  }

  const K31 := Lanes(32, 96)

  // Complex8DecimateBy2CIC3

  class Widening {
    var i1i0: Lanes
    var q1q0: Lanes

    ghost predicate Valid()
      reads this
    {
      FsQuarterFir.IsByte(i1i0) && FsQuarterFir.IsByte(q1q0)
    }

    ghost function History(): (h: seq<Complex8>)
      requires Valid()
      reads this
      ensures |h| == 2
    {
      [Complex(i1i0.lo, q1q0.lo), Complex(i1i0.hi, q1q0.hi)]
    }

    constructor ()
      ensures Valid() && History() == [ZERO, ZERO]
    {
      i1i0, q1q0 := Lanes(0, 0), Lanes(0, 0);
    }

    method Execute(src: seq<Complex8>, dst: array<Complex16>)
      requires Valid() && |src| % 4 == 0 && |src| / 2 <= dst.Length
      modifies this, dst
      ensures Valid()
      ensures dst[..|src| / 2] == Decimate<Complex, Complex>(WideningWindow(), 4, 2, old(History()) + src)
      ensures History() == (old(History()) + src)[|src|..]
      ensures dst[|src| / 2..] == old(dst[|src| / 2..])
    {
      hide *;
      ghost var h: seq<Complex>, w := History(), WideningWindow();
      NoPassYet(w, h, src);
      for g := 0 to |src| / 4
        invariant Valid()
        invariant History() == CarriedAfter(h, src, g)
        invariant dst[..2 * g] == OutputsAfter(w, h, src, g)
        invariant forall m :: |src| / 2 <= m < dst.Length ==> dst[m] == old(dst[m])
      {
        OnePass(w, h, src, g);
        var d0, d1 := Pass(src[4 * g], src[4 * g + 1], src[4 * g + 2], src[4 * g + 3]);
        StorePair(dst, g, d0, d1);
      }
      AllPasses(w, h, src);
    }

    /** One pass of the loop: two outputs from the carried samples and four new ones. */
    method Pass(x2: Complex8, x3: Complex8, x4: Complex8, x5: Complex8) returns (d0: Complex16, d1: Complex16)
      requires Valid()
      modifies this
      ensures Valid() && History() == [x4, x5]
      ensures d0 == WideningWindow()(old(History()) + [x2, x3])
      ensures d1 == WideningWindow()([x2, x3, x4, x5])
    {
      hide WideningWindow, CicSum;
      WideningAt(History() + [x2, x3]);
      WideningAt([x2, x3, x4, x5]);
      d0, d1, i1i0, q1q0 := WideningTaps(i1i0, q1q0, LoadPair(x2, x3), LoadPair(x4, x5));
    }
  }

  /** The body of the loop: two outputs and the carried words, all lane arithmetic. */
  method WideningTaps(i1i0: Lanes, q1q0: Lanes, q3i3q2i2: Bytes4, q5i5q4i4: Bytes4)
    returns (d0: Complex16, d1: Complex16, i5i4: Lanes, q5q4: Lanes)
    requires FsQuarterFir.IsByte(i1i0) && FsQuarterFir.IsByte(q1q0)
    ensures i5i4 == Lanes(q5i5q4i4.b0, q5i5q4i4.b2) && q5q4 == Lanes(q5i5q4i4.b1, q5i5q4i4.b3)
    ensures var x0, x1 := Complex(i1i0.lo, q1q0.lo), Complex(i1i0.hi, q1q0.hi);
            var x2, x3 := Complex(q3i3q2i2.b0, q3i3q2i2.b1), Complex(q3i3q2i2.b2, q3i3q2i2.b3);
            var x4, x5 := Complex(q5i5q4i4.b0, q5i5q4i4.b1), Complex(q5i5q4i4.b2, q5i5q4i4.b3);
            d0 == CicSum(x0, x1, x2, x3).Scaled(32) && d1 == CicSum(x2, x3, x4, x5).Scaled(32)
  {
    hide Smuad, Smladx, Wrap16;
    var i3i2, q3q2 := Sxtb16(q3i3q2i2, 0), Sxtb16(q3i3q2i2, 1);
    i5i4, q5q4 := Sxtb16(q5i5q4i4, 0), Sxtb16(q5i5q4i4, 1);
    var di0 := Smladx(K31, i3i2, Smuad(K31, i1i0));
    var dq0 := Smladx(K31, q3q2, Smuad(K31, q1q0));
    var di1 := Smladx(K31, i5i4, Smuad(K31, i3i2));
    var dq1 := Smladx(K31, q5q4, Smuad(K31, q3q2));
    FourTaps(i1i0, i3i2);
    FourTaps(q1q0, q3q2);
    FourTaps(i3i2, i5i4);
    FourTaps(q3q2, q5q4);
    d0, d1 := Complex(Wrap16(di0), Wrap16(dq0)), Complex(Wrap16(di1), Wrap16(dq1));
  }

  /** 32 * (x0 + 3*x1 + 3*x2 + x3), which fits in 16 bits. */
  lemma FourTaps(x1x0: Lanes, x3x2: Lanes)
    requires FsQuarterFir.IsByte(x1x0) && FsQuarterFir.IsByte(x3x2)
    ensures Wrap16(Smladx(K31, x3x2, Smuad(K31, x1x0)))
         == 32 * (x1x0.lo + 3 * x1x0.hi + 3 * x3x2.lo + x3x2.hi)
  {
    hide Wrap16, Wrap32;
    var first := 32 * x1x0.lo + 96 * x1x0.hi;
    FitsUnwrapped(first);
    FitsUnwrapped(first + 32 * x3x2.hi + 96 * x3x2.lo);
  }

  // TranslateByFSOver4AndDecimateBy2CIC3

  class Translating {
    var q1i0: Lanes
    var q0i1: Lanes

    ghost predicate Valid()
      reads this
    {
      FsQuarterFir.IsByte(q1i0) && FsQuarterFir.IsByte(q0i1)
    }

    ghost function History(): (h: seq<Complex8>)
      requires Valid()
      reads this
      ensures |h| == 2
    {
      [Complex(q1i0.lo, q0i1.hi), Complex(q0i1.lo, q1i0.hi)]
    }

    constructor ()
      ensures Valid() && History() == [ZERO, ZERO]
    {
      q1i0, q0i1 := Lanes(0, 0), Lanes(0, 0);
    }

    method Execute(src: seq<Complex8>, dst: array<Complex16>)
      requires Valid() && |src| % 4 == 0 && |src| / 2 <= dst.Length
      modifies this, dst
      ensures Valid()
      ensures dst[..|src| / 2] == Decimate<Complex, Complex>(WideningWindow(), 4, 2, TranslateDown(old(History()) + src))
      ensures History() == (old(History()) + src)[|src|..]
      ensures dst[|src| / 2..] == old(dst[|src| / 2..])
    {
      hide *;
      ghost var h: seq<Complex>, w := History(), WideningWindow();
      NothingTranslated(w, h, src);
      for g := 0 to |src| / 4
        invariant Valid()
        invariant History() == CarriedAfter(h, src, g)
        invariant dst[..2 * g] == TranslatedAfter(w, h, src, g)
        invariant forall m :: |src| / 2 <= m < dst.Length ==> dst[m] == old(dst[m])
      {
        OneTranslatedPass(w, h, src, g);
        var d0, d1 := Pass(src[4 * g], src[4 * g + 1], src[4 * g + 2], src[4 * g + 3]);
        StorePair(dst, g, d0, d1);
      }
      AllTranslated(w, h, src);
    }

    /** One pass of the loop: two outputs from the carried samples and four new ones. */
    method Pass(x2: Complex8, x3: Complex8, x4: Complex8, x5: Complex8) returns (d0: Complex16, d1: Complex16)
      requires Valid()
      modifies this
      ensures Valid() && History() == [x4, x5]
      ensures d0 == WideningWindow()(TurnedHistory(old(History())) + TurnedGroup([x2, x3, x4, x5])[..2])
      ensures d1 == WideningWindow()(TurnedGroup([x2, x3, x4, x5]))
    {
      hide WideningWindow, CicSum, Turn;
      WideningAt(TurnedHistory(History()) + TurnedGroup([x2, x3, x4, x5])[..2]);
      WideningAt(TurnedGroup([x2, x3, x4, x5]));
      d0, d1, q1i0, q0i1 := TranslatingTaps(q1i0, q0i1, LoadPair(x2, x3), LoadPair(x4, x5));
    }
  }

  /** The body of the loop: two outputs and the carried words, all lane arithmetic. */
  method TranslatingTaps(q1i0: Lanes, q0i1: Lanes, q3i3q2i2: Bytes4, q5i5q4i4: Bytes4)
    returns (d0: Complex16, d1: Complex16, q5i4: Lanes, q4i5: Lanes)
    requires FsQuarterFir.IsByte(q1i0) && FsQuarterFir.IsByte(q0i1)
    ensures FsQuarterFir.IsByte(q5i4) && FsQuarterFir.IsByte(q4i5)
    ensures q5i4 == Lanes(q5i5q4i4.b0, q5i5q4i4.b3) && q4i5 == Lanes(q5i5q4i4.b2, q5i5q4i4.b1)
    ensures var x0, x1 := Complex(q1i0.lo, q0i1.hi), Complex(q0i1.lo, q1i0.hi);
            var x2, x3 := Complex(q3i3q2i2.b0, q3i3q2i2.b1), Complex(q3i3q2i2.b2, q3i3q2i2.b3);
            var x4, x5 := Complex(q5i5q4i4.b0, q5i5q4i4.b1), Complex(q5i5q4i4.b2, q5i5q4i4.b3);
            && d0 == CicSum(Turn(x0, 2), Turn(x1, 3), Turn(x2, 0), Turn(x3, 1)).Scaled(32)
            && d1 == CicSum(Turn(x2, 0), Turn(x3, 1), Turn(x4, 2), Turn(x5, 3)).Scaled(32)
  {
    hide Smuad, Smuadx, Smusd, Smusdx, Wrap16, Qsub16, Qadd16, Sxtb16, Pkhtb16, Pkhbt16, Turn, CicSum, Complex.Scaled;
    Shuffles(q3i3q2i2);
    Shuffles(q5i5q4i4);
    var i2i3, q3q2 := Sxtb16(q3i3q2i2, 2), Sxtb16(q3i3q2i2, 1);
    var i2q3, i3q2 := Pkhtb16(i2i3, q3q2), Pkhbt16(q3q2, i2i3);
    var di0 := Smuad(K31, Qsub16(i2q3, q1i0));
    var dq0 := Smusdx(Qadd16(i3q2, q0i1), K31);
    var i5i4, q4q5 := Sxtb16(q5i5q4i4, 0), Sxtb16(q5i5q4i4, 3);
    q4i5, q5i4 := Pkhtb16(q4q5, i5i4), Pkhbt16(i5i4, q4q5);
    var di1 := Smuadx(Qsub16(i2q3, q5i4), K31);
    var dq1 := Smusd(K31, Qadd16(q4i5, i3q2));
    TapsOfDifference(i2q3, q1i0);
    TapsOfSum(i3q2, q0i1);
    TapsOfDifference(i2q3, q5i4);
    TapsOfSum(q4i5, i3q2);
    FirstTurned(q1i0, q0i1, q3i3q2i2);
    SecondTurned(q3i3q2i2, q5i5q4i4);
    d0, d1 := Complex(Wrap16(di0), Wrap16(dq0)), Complex(Wrap16(di1), Wrap16(dq1));
  }

  /** The four rotations, and the gain. */
  lemma Turns(x: Complex)
    ensures Turn(x, 0) == x && Turn(x, 1) == Complex(x.im, -x.re)
    ensures Turn(x, 2) == Complex(-x.re, -x.im) && Turn(x, 3) == Complex(-x.im, x.re)
    ensures x.Scaled(32) == Complex(32 * x.re, 32 * x.im)
  {
  }

  /** The four weighted samples of an output, rotated and summed lane by lane. */
  lemma FirstTurned(q1i0: Lanes, q0i1: Lanes, v: Bytes4)
    ensures var i2q3, i3q2 := Lanes(v.b3, v.b0), Lanes(v.b1, v.b2);
            CicSum(Turn(Complex(q1i0.lo, q0i1.hi), 2), Turn(Complex(q0i1.lo, q1i0.hi), 3),
                   Turn(Complex(v.b0, v.b1), 0), Turn(Complex(v.b2, v.b3), 1)).Scaled(32)
            == Complex(32 * (i2q3.lo - q1i0.lo) + 96 * (i2q3.hi - q1i0.hi),
                       96 * (i3q2.lo + q0i1.lo) - 32 * (i3q2.hi + q0i1.hi))
  {
    hide Turn, Complex.Scaled;
    var x0, x1, x2, x3 := Complex(q1i0.lo, q0i1.hi), Complex(q0i1.lo, q1i0.hi), Complex(v.b0, v.b1), Complex(v.b2, v.b3);
    Turns(x0);
    Turns(x1);
    Turns(x2);
    Turns(x3);
    Turns(CicSum(Turn(x0, 2), Turn(x1, 3), Turn(x2, 0), Turn(x3, 1)));
  }

  lemma SecondTurned(v: Bytes4, u: Bytes4)
    ensures var i2q3, i3q2, q5i4, q4i5 := Lanes(v.b3, v.b0), Lanes(v.b1, v.b2), Lanes(u.b0, u.b3), Lanes(u.b2, u.b1);
            CicSum(Turn(Complex(v.b0, v.b1), 0), Turn(Complex(v.b2, v.b3), 1),
                   Turn(Complex(u.b0, u.b1), 2), Turn(Complex(u.b2, u.b3), 3)).Scaled(32)
            == Complex(96 * (i2q3.lo - q5i4.lo) + 32 * (i2q3.hi - q5i4.hi),
                       32 * (q4i5.lo + i3q2.lo) - 96 * (q4i5.hi + i3q2.hi))
  {
    hide Turn, Complex.Scaled;
    var x2, x3, x4, x5 := Complex(v.b0, v.b1), Complex(v.b2, v.b3), Complex(u.b0, u.b1), Complex(u.b2, u.b3);
    Turns(x2);
    Turns(x3);
    Turns(x4);
    Turns(x5);
    Turns(CicSum(Turn(x2, 0), Turn(x3, 1), Turn(x4, 2), Turn(x5, 3)));
  }

  lemma Shuffles(v: Bytes4)
    ensures Pkhtb16(Sxtb16(v, 2), Sxtb16(v, 1)) == Lanes(v.b3, v.b0)
    ensures Pkhbt16(Sxtb16(v, 1), Sxtb16(v, 2)) == Lanes(v.b1, v.b2)
    ensures Pkhtb16(Sxtb16(v, 3), Sxtb16(v, 0)) == Lanes(v.b2, v.b1)
    ensures Pkhbt16(Sxtb16(v, 0), Sxtb16(v, 3)) == Lanes(v.b0, v.b3)
  {
  }

  /** Bytes cannot saturate a halfword, and the weighted differences still fit in 16 bits. */
  lemma TapsOfDifference(a: Lanes, b: Lanes)
    requires FsQuarterFir.IsByte(a) && FsQuarterFir.IsByte(b)
    ensures Wrap16(Smuad(K31, Qsub16(a, b))) == 32 * (a.lo - b.lo) + 96 * (a.hi - b.hi)
    ensures Wrap16(Smuadx(Qsub16(a, b), K31)) == 96 * (a.lo - b.lo) + 32 * (a.hi - b.hi)
  {
    hide Wrap16, Wrap32;
    FitsUnwrapped(32 * (a.lo - b.lo) + 96 * (a.hi - b.hi));
    FitsUnwrapped(96 * (a.lo - b.lo) + 32 * (a.hi - b.hi));
  }

  lemma TapsOfSum(a: Lanes, b: Lanes)
    requires FsQuarterFir.IsByte(a) && FsQuarterFir.IsByte(b)
    ensures Wrap16(Smusdx(Qadd16(a, b), K31)) == 96 * (a.lo + b.lo) - 32 * (a.hi + b.hi)
    ensures Wrap16(Smusd(K31, Qadd16(a, b))) == 32 * (a.lo + b.lo) - 96 * (a.hi + b.hi)
  {
    hide Wrap16, Wrap32;
    FitsUnwrapped(96 * (a.lo + b.lo) - 32 * (a.hi + b.hi));
    FitsUnwrapped(32 * (a.lo + b.lo) - 96 * (a.hi + b.hi));
  }

  /** Multiplication by (-j)^n. */
  function Turn(x: Complex, n: nat): Complex { FsQuarterTheorems.Turned(x, n, FsQuarterFir.Down) }

  lemma TranslateDownAt(xs: seq<Complex>, m: nat)
    requires m < |xs|
    ensures TranslateDown(xs)[m] == Turn(xs[m], (m + 2) % 4)
  {
    FsQuarterTheorems.RotateClosedForm(xs[m], m + 2, FsQuarterFir.Down);
  }

  function TranslatedAfter(w: seq<Complex> -> Complex, h: seq<Complex>, block: seq<Complex>, g: nat): seq<Complex>
    requires |h| == 2 && 4 * g <= |block|
  {
    Decimate(w, 4, 2, TranslateDown(h + block[..4 * g]))
  }

  lemma NothingTranslated(w: seq<Complex> -> Complex, h: seq<Complex>, block: seq<Complex>)
    requires |h| == 2
    ensures TranslatedAfter(w, h, block, 0) == [] && CarriedAfter(h, block, 0) == h
  {
    assert h + block[..0] == h;
  }

  lemma AllTranslated(w: seq<Complex> -> Complex, h: seq<Complex>, block: seq<Complex>)
    requires |h| == 2 && |block| % 4 == 0
    ensures TranslatedAfter(w, h, block, |block| / 4) == Decimate(w, 4, 2, TranslateDown(h + block))
    ensures CarriedAfter(h, block, |block| / 4) == (h + block)[|block|..]
  {
    hide Decimate, TranslateDown;
    assert block[..4 * (|block| / 4)] == block;
  }

  lemma OneTranslatedPass(w: seq<Complex> -> Complex, h: seq<Complex>, block: seq<Complex>, g: nat)
    requires |h| == 2 && 4 * g + 4 <= |block|
    ensures var q := [block[4 * g], block[4 * g + 1], block[4 * g + 2], block[4 * g + 3]];
            TranslatedAfter(w, h, block, g + 1) == TranslatedAfter(w, h, block, g)
              + [w(TurnedHistory(CarriedAfter(h, block, g)) + TurnedGroup(q)[..2]), w(TurnedGroup(q))]
    ensures CarriedAfter(h, block, g + 1) == [block[4 * g + 2], block[4 * g + 3]]
  {
    hide Decimate, TranslateDown, TurnedHistory, TurnedGroup;
    TwoMoreTranslated(w, h + block[..4 * g], g, block[4 * g..4 * g + 4]);
    BlockPieces(h, block, g);
  }

  /** Two samples at phases 2 and 3, and four samples at phases 0 to 3. */
  function TurnedHistory(h: seq<Complex>): (r: seq<Complex>)
    requires |h| == 2
  {
    [Turn(h[0], 2), Turn(h[1], 3)]
  }

  function TurnedGroup(q: seq<Complex>): (r: seq<Complex>)
    requires |q| == 4
  {
    [Turn(q[0], 0), Turn(q[1], 1), Turn(q[2], 2), Turn(q[3], 3)]
  }

  lemma TwoMoreTranslated(w: seq<Complex> -> Complex, xs: seq<Complex>, g: nat, q: seq<Complex>)
    requires |xs| == 2 + 4 * g && |q| == 4
    ensures Decimate(w, 4, 2, TranslateDown(xs + q)) == Decimate(w, 4, 2, TranslateDown(xs))
              + [w(TurnedHistory(xs[4 * g..]) + TurnedGroup(q)[..2]), w(TurnedGroup(q))]
  {
    hide TranslateDown, Turn, Decimate;
    var ys, r := TranslateDown(xs), TurnedGroup(q);
    forall m | 0 <= m < |xs| + 4 ensures TranslateDown(xs + q)[m] == (ys + r)[m] {
      TranslateDownAt(xs + q, m);
      if m < |xs| { TranslateDownAt(xs, m); }
    }
    assert TranslateDown(xs + q) == ys + r;
    TwoMoreOutputs(w, ys, g, r);
    TranslateDownAt(xs, 4 * g);
    TranslateDownAt(xs, 4 * g + 1);
    assert ys[4 * g..] == TurnedHistory(xs[4 * g..]);
  }

  /** From reset, the stage translates the stream and decimates it. */
  lemma TranslatesFromReset(src: seq<Complex>)
    ensures TranslateDown([ZERO, ZERO] + src) == [ZERO, ZERO] + FsQuarterFir.Translate(src, FsQuarterFir.Down)
  {
    hide Turn;
    var xs := [ZERO, ZERO] + src;
    forall m | 0 <= m < |xs|
      ensures TranslateDown(xs)[m] == ([ZERO, ZERO] + FsQuarterFir.Translate(src, FsQuarterFir.Down))[m]
    {
      if m < 2 {
        FsQuarterTheorems.SilenceStaysSilent(m + 2, FsQuarterFir.Down);
      } else {
        FsQuarterTheorems.SameRotation(src[m - 2], m + 2, m - 2, FsQuarterFir.Down);
      }
    }
  }

  /** The phase of the second block continues that of the first. */
  lemma TranslatedPieces(h: seq<Complex>, a: seq<Complex>, g: nat, b: seq<Complex>)
    requires |h| == 2 && |a| == 4 * g
    ensures var first, second := TranslateDown(h + a), TranslateDown((h + a)[|a|..] + b);
            TranslateDown(h + (a + b)) == first + second[2..] && first[|a|..] == second[..2]
  {
    hide TranslateDown, Turn;
    var xs, ys := h + (a + b), (h + a)[|a|..] + b;
    forall m | 0 <= m < |xs| ensures TranslateDown(xs)[m] == (TranslateDown(h + a) + TranslateDown(ys)[2..])[m] {
      TranslateDownAt(xs, m);
      if m < 2 + |a| { TranslateDownAt(h + a, m); } else { TranslateDownAt(ys, m - |a|); }
    }
    forall m | 0 <= m < 2 ensures TranslateDown(h + a)[|a| + m] == TranslateDown(ys)[m] {
      TranslateDownAt(h + a, |a| + m);
      TranslateDownAt(ys, m);
    }
  }

  /** Block-split invariance of the translating stage, whose carried samples are untranslated. */
  lemma TranslatingSplit(w: seq<Complex> -> Complex, h: seq<Complex>, a: seq<Complex>, g: nat, b: seq<Complex>)
    requires |h| == 2 && |a| == 4 * g
    ensures Decimate(w, 4, 2, TranslateDown(h + (a + b)))
         == Decimate(w, 4, 2, TranslateDown(h + a)) + Decimate(w, 4, 2, TranslateDown((h + a)[|a|..] + b))
  {
    hide TranslateDown, Decimate, Carry;
    TranslatedPieces(h, a, g, b);
    var first, second := TranslateDown(h + a), TranslateDown((h + a)[|a|..] + b);
    var h', a', b' := first[..2], first[2..], second[2..];
    assert h' + a' == first && h' + (a' + b') == first + b' && second[..2] + b' == second;
    UniqueQuotient(4 * g, 2, 2 * g, 0);
    CarryIsNewest(4, 2, first);
    SplitInvariance(w, 4, 2, h', a', b');
  }
}
