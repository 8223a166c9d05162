/** FIRC8xR16x24FS4Decim4 and FIRC8xR16x24FS4Decim8: a 24-tap FIR over complex<int8_t>
samples that also shifts the stream by a quarter of the sampling rate, using negated taps,
swapped lanes and alternating dual multiply-accumulate instructions. */
module FsQuarterFir {
  import opened Simd
  import opened Fir
  import opened Decimation
  import opened PairBuffer
  import opened OutputRounding

  const TAPS: nat := 24

  datatype Shift = Down | Up

  // What the filter is for: complex multiplication by (-j)^n or (+j)^n, then a plain FIR.

  function Times(a: Complex, b: Complex): Complex {
    Complex(a.re * b.re - a.im * b.im, a.re * b.im + a.im * b.re)
  }

  function Rotor(shift: Shift): Complex {
    Complex(0, if shift.Down? then -1 else 1)
  }

  function Rotate(x: Complex, n: nat, shift: Shift): Complex {
    if n == 0 then x else Times(Rotate(x, n - 1, shift), Rotor(shift))
  }

  /** The stream translated by a quarter of its sampling rate. */
  function Translate(xs: seq<Complex>, shift: Shift): (ys: seq<Complex>)
    ensures |ys| == |xs|
  {
    seq(|xs|, m requires 0 <= m < |xs| => Rotate(xs[m], m, shift))
  }

  // What the filter computes from the taps it stores.

  predicate NegatesTap(n: nat, shift: Shift) {
    if shift.Up? then n % 4 != 0 else n % 4 == 2
  }

  function Negated(t: int): int { -t }

  /** The tap as stored; the negation of an int16_t is truncated to an int16_t again. */
  function StoredTap(t: Int16, n: nat, shift: Shift): Int16 {
    if NegatesTap(n, shift) then Wrap16(Negated(t)) else t
  }

  function StoredTaps(taps: seq<Int16>, shift: Shift): (s: seq<Int16>)
    ensures |s| == |taps|
  {
    seq(|taps|, n requires 0 <= n < |taps| => StoredTap(taps[n], n, shift))
  }

  /** The contribution of sample `x` at window position `n` with stored tap `t`. */
  function Mac(t: int, x: Complex, n: nat): Complex {
    match n % 4
    case 1 => TurnedDown(t, x)
    case 3 => TurnedUp(t, x)
    case _ => Straight(t, x)
  }

  function Straight(t: int, x: Complex): Complex { Complex(x.re * t, x.im * t) }

  function TurnedDown(t: int, x: Complex): Complex { Complex(x.im * t, -(x.re * t)) }

  function TurnedUp(t: int, x: Complex): Complex { Complex(-(x.im * t), x.re * t) }

  function MacSum(stored: seq<int>, xs: seq<Complex>, n: nat): Complex
    requires n <= |stored| && n <= |xs|
  {
    if n == 0 then ZERO else MacSum(stored, xs, n - 1).Plus(Mac(stored[n - 1], xs[n - 1], n - 1))
  }

  function PackedWindow(stored: seq<int>, scale: Int32): seq<Complex> -> Complex {
    xs => if |xs| == |stored| then Finish(MacSum(stored, xs, |stored|), scale) else ZERO
  }

  /** `y` is the rounded, scaled sum of the stored taps for the window that begins at `start`. */
  ghost predicate IsPackedOutputAt(y: Complex, stored: seq<int>, scale: Int32, xs: seq<Complex>, start: nat) {
    start + |stored| <= |xs| &&
    var sum := MacSum(stored, xs[start..start + |stored|], |stored|);
    ComesFrom(sum.re, scale, y.re) && ComesFrom(sum.im, scale, y.im)
  }

  ghost predicate ArePackedOutputs(ys: seq<Complex>, stored: seq<int>, scale: Int32, d: nat, xs: seq<Complex>)
    requires 1 <= d <= |stored| && |xs| >= |stored| - d
  {
    && |ys| == (|xs| - (|stored| - d)) / d
    && forall k :: 0 <= k < |ys| ==> IsPackedOutputAt(ys[k], stored, scale, xs, Start(d, k))
  }

  lemma PackedOutputs(stored: seq<int>, scale: Int32, d: nat, xs: seq<Complex>)
    requires 1 <= d <= |stored| && |xs| >= |stored| - d
    ensures ArePackedOutputs(Decimate<Complex, Complex>(PackedWindow(stored, scale), |stored|, d, xs), stored, scale, d, xs)
  {
    hide Decimate, ComesFrom, MacSum, Finish;
    var w := PackedWindow(stored, scale);
    var ys := Decimate<Complex, Complex>(w, |stored|, d, xs);
    OutputCount<Complex, Complex>(w, |stored|, d, xs);
    forall k | 0 <= k < |ys| ensures IsPackedOutputAt(ys[k], stored, scale, xs, Start(d, k)) {
      GroupFits(|xs| - (|stored| - d), d, k);
      OutputAt<Complex, Complex>(w, |stored|, d, xs, k);
      FinishedComponents(MacSum(stored, xs[d * k..d * k + |stored|], |stored|), scale);
    }
  }

  // The packed arithmetic

  function MacPair(q1i0: Lanes, i1q0: Lanes, t1t0: Lanes, negatedT2: bool, acc: Complex32): Complex32 {
    Complex(if negatedT2 then Smlsd(q1i0, t1t0, acc.re) else Smlad(q1i0, t1t0, acc.re),
            if negatedT2 then Smlad(i1q0, t1t0, acc.im) else Smlsd(i1q0, t1t0, acc.im))
  }

  /** Each sample adds at most 128 * 32768 to either component. */
  lemma {:induction false} MacSumBound(stored: seq<Int16>, xs: seq<Complex8>, n: nat)
    requires n <= |stored| && n <= |xs|
    ensures -0x40_0000 * n <= MacSum(stored, xs, n).re <= 0x40_0000 * n
    ensures -0x40_0000 * n <= MacSum(stored, xs, n).im <= 0x40_0000 * n
  {
    if n > 0 {
      MacSumBound(stored, xs, n - 1);
      ProductWithin(xs[n - 1].re, stored[n - 1], 0x80, 0x8000);
      ProductWithin(xs[n - 1].im, stored[n - 1], 0x80, 0x8000);
    }
  }

  /** The lane arithmetic of one dual multiply-accumulate, for a pair at phases 0 and 1. */
  lemma PlainTerms(t0: Int16, t1: Int16, x0: Complex8, x1: Complex8, acc: Complex32)
    ensures MacPair(FirstWord(Swapped, x0, x1), SecondWord(Swapped, x0, x1), Lanes(t0, t1), false, acc)
         == Wrapped(acc.Plus(Straight(t0, x0)).Plus(TurnedDown(t1, x1)))
  {
    hide Wrap32;
  }

  /** The same for a pair at phases 2 and 3. */
  lemma NegatedTerms(t0: Int16, t1: Int16, x0: Complex8, x1: Complex8, acc: Complex32)
    ensures MacPair(FirstWord(Swapped, x0, x1), SecondWord(Swapped, x0, x1), Lanes(t0, t1), true, acc)
         == Wrapped(acc.Plus(Straight(t0, x0)).Plus(TurnedUp(t1, x1)))
  {
    hide Wrap32;
  }

  lemma MacByPhase(t: int, x: Complex, n: nat)
    ensures n % 2 == 0 ==> Mac(t, x, n) == Straight(t, x)
    ensures n % 4 == 1 ==> Mac(t, x, n) == TurnedDown(t, x)
    ensures n % 4 == 3 ==> Mac(t, x, n) == TurnedUp(t, x)
  {
    hide Straight, TurnedDown, TurnedUp;
  }

  lemma PairPhases(n: nat)
    requires n % 2 == 0
    ensures if n % 4 == 2 then (n + 1) % 4 == 3 else (n + 1) % 4 == 1
  {
  }

  lemma PairTerms(t0: Int16, t1: Int16, x0: Complex8, x1: Complex8, n: nat, acc: Complex32)
    requires n % 2 == 0
    ensures MacPair(FirstWord(Swapped, x0, x1), SecondWord(Swapped, x0, x1), Lanes(t0, t1), n % 4 == 2, acc)
         == Wrapped(acc.Plus(Mac(t0, x0, n)).Plus(Mac(t1, x1, n + 1)))
  {
    hide *;
    PairPhases(n);
    MacByPhase(t0, x0, n);
    MacByPhase(t1, x1, n + 1);
    if n % 4 == 2 {
      NegatedTerms(t0, t1, x0, x1, acc);
    } else {
      PlainTerms(t0, t1, x0, x1, acc);
    }
  }

  /** One dual multiply-accumulate pair adds exactly two terms of the sum, without wrapping. */
  lemma PairStep(stored: seq<Int16>, xs: seq<Complex8>, p: nat, negatedT2: bool)
    requires |stored| == |xs| == TAPS && 2 * p + 2 <= TAPS
    requires negatedT2 == (p % 2 == 1)
    ensures FitsInt32(MacSum(stored, xs, 2 * p).re) && FitsInt32(MacSum(stored, xs, 2 * p).im)
    ensures MacPair(FirstWord(Swapped, xs[2 * p], xs[2 * p + 1]), SecondWord(Swapped, xs[2 * p], xs[2 * p + 1]),
                    Lanes(stored[2 * p], stored[2 * p + 1]), negatedT2, MacSum(stored, xs, 2 * p))
         == MacSum(stored, xs, 2 * p + 2)
  {
    hide Mac, MacPair, Wrapped, FirstWord, SecondWord;
    var n, acc := 2 * p, MacSum(stored, xs, 2 * p);
    MacSumFits(stored, xs, n);
    MacSumFits(stored, xs, n + 2);
    PairTerms(stored[n], stored[n + 1], xs[n], xs[n + 1], n, acc);
    MacSumTwoMore(stored, xs, n);
    NoWrap(MacSum(stored, xs, n + 2));
  }

  lemma MacSumFits(stored: seq<Int16>, xs: seq<Complex8>, n: nat)
    requires n <= TAPS && n <= |stored| && n <= |xs|
    ensures FitsInt32(MacSum(stored, xs, n).re) && FitsInt32(MacSum(stored, xs, n).im)
  {
    MacSumBound(stored, xs, n);
  }

  lemma NoWrap(sum: Complex)
    requires FitsInt32(sum.re) && FitsInt32(sum.im)
    ensures Wrapped(sum) == sum
  {
  }

  lemma MacSumOfNothing(stored: seq<int>, xs: seq<Complex>)
    ensures MacSum(stored, xs, 0) == ZERO
  {
  }

  lemma MacSumOneMore(stored: seq<int>, xs: seq<Complex>, n: nat)
    requires n < |stored| && n < |xs|
    ensures MacSum(stored, xs, n + 1) == MacSum(stored, xs, n).Plus(Mac(stored[n], xs[n], n))
  {
    hide Mac;
  }

  lemma MacSumTwoMore(stored: seq<int>, xs: seq<Complex>, n: nat)
    requires n + 2 <= |stored| && n + 2 <= |xs|
    ensures MacSum(stored, xs, n + 2)
         == MacSum(stored, xs, n).Plus(Mac(stored[n], xs[n], n)).Plus(Mac(stored[n + 1], xs[n + 1], n + 1))
  {
  }

  predicate IsByte(w: Lanes) { -0x80 <= w.lo < 0x80 && -0x80 <= w.hi < 0x80 }

  predicate AreBytes(zs: seq<Lanes>) { forall m :: 0 <= m < |zs| ==> IsByte(zs[m]) }

  /** The samples of a delay buffer that holds int8 samples. */
  function ByteSamples(zs: seq<Lanes>): (xs: seq<Complex8>)
    requires |zs| % 2 == 0 && AreBytes(zs)
    ensures xs == Unpacked(Swapped, zs)
  {
    var xs := Unpacked(Swapped, zs);
    assert forall m :: 0 <= m < |xs| ==> -0x80 <= xs[m].re < 0x80 && -0x80 <= xs[m].im < 0x80;
    xs
  }

  class FsQuarterDecimator {
    const d: nat
    const z: array<Lanes>
    const taps: array<Int16>
    var outputScale: Int32

    ghost predicate Valid()
      reads this, z, taps
    {
      && (d == 4 || d == 8)
      && z.Length == TAPS - d && taps.Length == TAPS
      && AreBytes(z[..])
    }

    /** The newest 24 - d samples seen. */
    ghost function History(): (h: seq<Complex8>)
      requires Valid()
      reads this, z, taps
      ensures |h| == TAPS - d
    {
      ByteSamples(z[..])
    }

    constructor (decimationFactor: nat)
      requires decimationFactor == 4 || decimationFactor == 8
      ensures Valid() && fresh(z) && fresh(taps) && d == decimationFactor
      ensures History() == Silence(TAPS - d, ZERO)
    {
      d := decimationFactor;
      z := new Lanes[TAPS - decimationFactor](_ => Lanes(0, 0));
      taps := new Int16[TAPS](_ => 0);
      outputScale := 0;
    }

    method Configure(newTaps: seq<Int16>, scale: Int32, shift: Shift)
      requires Valid() && |newTaps| == TAPS
      modifies this, z, taps
      ensures Valid()
      ensures taps[..] == StoredTaps(newTaps, shift) && outputScale == scale
      ensures History() == Silence(TAPS - d, ZERO)
    {
      for i := 0 to TAPS
        invariant forall n :: 0 <= n < i ==> taps[n] == StoredTap(newTaps[n], n, shift)
      {
        taps[i] := if NegatesTap(i, shift) then Wrap16(Negated(newTaps[i])) else newTaps[i];
      }
      outputScale := scale;
      forall m | 0 <= m < z.Length {
        z[m] := Lanes(0, 0);
      }
    }

    /** Oldest samples: accumulated and discarded. */
    method AccumulateOldest(ghost xs: seq<Complex8>) returns (acc: Complex32)
      requires Valid() && |xs| == TAPS && History() <= xs
      ensures acc == MacSum(taps[..], xs, d)
    {
      hide MacPair, MacSum;
      acc := ZERO;
      MacSumOfNothing(taps[..], xs);
      for index := 0 to d / 2
        invariant acc == MacSum(taps[..], xs, 2 * index)
      {
        PairStep(taps[..], xs, index, index % 2 == 1);
        PackedAt(Swapped, z[..], xs, index);
        acc := MacPair(z[2 * index], z[2 * index + 1], Lanes(taps[2 * index], taps[2 * index + 1]), index % 2 == 1, acc);
      }
    }

    /** Middle samples: accumulated and moved earlier in the delay buffer. */
    method AccumulateMiddle(ghost xs: seq<Complex8>, acc0: Complex32) returns (acc: Complex32)
      requires Valid() && |xs| == TAPS && History() <= xs
      requires acc0 == MacSum(taps[..], xs, d)
      modifies z
      ensures Valid()
      ensures acc == MacSum(taps[..], xs, TAPS - d)
      ensures z[..TAPS - 2 * d] == old(z[d..])
    {
      hide MacPair, MacSum, Unpacked, FirstWord, SecondWord, AreBytes, Moved;
      acc := acc0;
      ghost var z0 := z[..];
      MovedNone(z0, d);
      for index := 0 to (TAPS - 2 * d) / 2
        invariant acc == MacSum(taps[..], xs, d + 2 * index)
        invariant z[..] == Moved(z0, d, 2 * index)
      {
        var p := d / 2 + index;
        SamePairParity(d, index);
        PairStep(taps[..], xs, p, index % 2 == 1);
        PackedAt(Swapped, z0, xs, p);
        MovedPair(z0, d, 2 * index);
        var q1i0, i1q0 := z[2 * p], z[2 * p + 1];
        z[2 * index] := q1i0;
        z[2 * index + 1] := i1q0;
        acc := MacPair(q1i0, i1q0, Lanes(taps[2 * p], taps[2 * p + 1]), index % 2 == 1, acc);
      }
      MovedAll(z0, d);
      BytesOfParts(z0, z[..]);
    }

    /** Newest samples: unpacked from the input, accumulated and stored in the delay buffer. */
    method AccumulateNewest(chunk: seq<Complex8>, ghost xs: seq<Complex8>, acc0: Complex32) returns (acc: Complex32)
      requires Valid() && |chunk| == d && |xs| == TAPS && xs[TAPS - d..] == chunk
      requires acc0 == MacSum(taps[..], xs, TAPS - d)
      modifies z
      ensures Valid()
      ensures acc == MacSum(taps[..], xs, TAPS)
      ensures z[..TAPS - 2 * d] == old(z[..TAPS - 2 * d])
      ensures AreBytes(z[TAPS - 2 * d..]) && Unpacked(Swapped, z[TAPS - 2 * d..]) == chunk
    {
      hide MacPair, MacSum, FirstWord, SecondWord, IsByte, Unpacked;
      acc := acc0;
      ghost var base := TAPS - 2 * d;
      for index := 0 to d / 2
        invariant Valid()
        invariant acc == MacSum(taps[..], xs, TAPS - d + 2 * index)
        invariant forall m :: 0 <= m < base ==> z[m] == old(z[m])
        invariant forall p :: 0 <= p < index ==> HoldsPair(Swapped, z[..], base + 2 * p, chunk[2 * p], chunk[2 * p + 1])
      {
        PairStep(taps[..], xs, (TAPS - d) / 2 + index, index % 2 == 1);
        var x0, x1 := chunk[2 * index], chunk[2 * index + 1];
        assert x0 == xs[TAPS - d + 2 * index] && x1 == xs[TAPS - d + 2 * index + 1];
        var q1i0, i1q0 := UnpackPair(x0, x1);
        z[TAPS - 2 * d + 2 * index] := q1i0;
        z[TAPS - 2 * d + 2 * index + 1] := i1q0;
        acc := MacPair(q1i0, i1q0, Lanes(taps[TAPS - d + 2 * index], taps[TAPS - d + 2 * index + 1]), index % 2 == 1, acc);
      }
      StoredBytes(z[..], base, chunk);
      StoredPairs(Swapped, z[..], base, chunk);
    }

    /** One output: shifts `chunk` into the delay buffer while accumulating. */
    method Accumulate(chunk: seq<Complex8>) returns (acc: Complex32)
      requires Valid() && |chunk| == d
      modifies z
      ensures Valid()
      ensures acc == MacSum(taps[..], old(History()) + chunk, TAPS)
      ensures History() == (old(History()) + chunk)[d..]
    {
      hide AreBytes, MacSum, Unpacked;
      ghost var xs := History() + chunk;
      acc := AccumulateOldest(xs);
      acc := AccumulateMiddle(xs, acc);
      acc := AccumulateNewest(chunk, xs, acc);
      ShiftedBuffer(Swapped, old(z[..]), z[..], chunk);
    }

    /** Filters, translates and decimates a block; a trailing incomplete group is ignored. */
    method Execute(src: seq<Complex8>, dst: array<Complex16>) returns (count: nat)
      requires Valid() && dst.Length >= |src| / d
      modifies z, dst
      ensures Valid() && count == |src| / d
      ensures dst[..count] == Decimate<Complex, Complex>(PackedWindow(taps[..], outputScale), TAPS, d, old(History()) + src)
      ensures ArePackedOutputs(dst[..count], taps[..], outputScale, d, old(History()) + src)
      ensures History() == Carry<Complex>(TAPS, d, old(History()) + src)
      ensures dst[count..] == old(dst[count..])
    {
      hide Decimate, Carry, MacSum, Unpacked, PackedWindow, ScaleRoundAndPack, ArePackedOutputs;
      count := |src| / d;
      ghost var h, stored := History(), taps[..];
      ghost var w := PackedWindow(stored, outputScale);
      IncompleteGroup<Complex, Complex>(w, TAPS, d, h, src);
      NothingYet<Complex, Complex>(w, TAPS, d, h, src);
      PackedOutputs(stored, outputScale, d, h + src);
      for i := 0 to count
        invariant Valid() && taps[..] == stored && d * i <= |src|
        invariant History() == Carry<Complex>(TAPS, d, h + src[..d * i])
        invariant dst[..i] == Decimate<Complex, Complex>(w, TAPS, d, h + src[..d * i])
        invariant dst[count..] == old(dst[count..])
      {
        GroupFits(|src|, d, i);
        var chunk := src[d * i..d * i + d];
        OneMoreGroup<Complex, Complex>(w, TAPS, d, h, src, i);
        ghost var window := History() + chunk;
        PackedOutput(stored, outputScale, window);
        var acc := Accumulate(chunk);
        assert taps[..] == stored;
        dst[i] := ScaleRoundAndPack(acc, outputScale);
      }
    }
  }

  /** Two input samples into the buffer layout: byte swaps, a halfword pack and sign extensions. */
  method UnpackPair(x0: Complex8, x1: Complex8) returns (q1i0: Lanes, i1q0: Lanes)
    ensures q1i0 == FirstWord(Swapped, x0, x1) && i1q0 == SecondWord(Swapped, x0, x1)
    ensures IsByte(q1i0) && IsByte(i1q0)
  {
    hide *;
    UnpackedInput(x0, x1);
    var q1i1q0i0 := LoadPair(x0, x1);
    var i1q1i0q0 := Rev16(q1i1q0i0);
    var i1q1q0i0 := PkhbtBytes(q1i1q0i0, i1q1i0q0);
    q1i0, i1q0 := Sxtb16(i1q1q0i0, 0), Sxtb16(i1q1q0i0, 1);
  }

  lemma SamePairParity(d: nat, index: nat)
    requires d == 4 || d == 8
    ensures 2 * (d / 2 + index) == d + 2 * index && (d / 2 + index) % 2 == index % 2
  {
  }

  lemma BytesOfParts(zs: seq<Lanes>, us: seq<Lanes>)
    requires AreBytes(zs) && forall u <- us :: u in zs
    ensures AreBytes(us)
  {
    forall m | 0 <= m < |us| ensures IsByte(us[m]) {
      assert us[m] in zs;
    }
  }

  lemma PackedOutput(stored: seq<Int16>, scale: Int32, xs: seq<Complex8>)
    requires |stored| == |xs| == TAPS
    ensures FitsInt32(MacSum(stored, xs, TAPS).re) && FitsInt32(MacSum(stored, xs, TAPS).im)
    ensures PackedWindow(stored, scale)(xs) == ScaleRoundAndPack(MacSum(stored, xs, TAPS), scale)
  {
    MacSumFits(stored, xs, TAPS);
    NoWrap(MacSum(stored, xs, TAPS));
  }

  /** Swapping bytes and sign-extending them puts two input samples into the buffer layout. */
  lemma UnpackedInput(x0: Complex8, x1: Complex8)
    ensures var packed := PkhbtBytes(LoadPair(x0, x1), Rev16(LoadPair(x0, x1)));
            Sxtb16(packed, 0) == FirstWord(Swapped, x0, x1) && Sxtb16(packed, 1) == SecondWord(Swapped, x0, x1)
    ensures IsByte(FirstWord(Swapped, x0, x1)) && IsByte(SecondWord(Swapped, x0, x1))
  {
  }

  lemma StoredBytes(zs: seq<Lanes>, base: nat, chunk: seq<Complex8>)
    requires |chunk| % 2 == 0 && |zs| == base + |chunk|
    requires forall p :: 0 <= p < |chunk| / 2 ==> HoldsPair(Swapped, zs, base + 2 * p, chunk[2 * p], chunk[2 * p + 1])
    ensures AreBytes(zs[base..])
  {
    var us := zs[base..];
    forall m | 0 <= m < |us| ensures IsByte(us[m]) {
      assert HoldsPair(Swapped, zs, base + 2 * (m / 2), chunk[2 * (m / 2)], chunk[2 * (m / 2) + 1]);
    }
  }
}
