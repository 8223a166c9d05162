/** FIRC16xR16x16Decim2 and FIRC16xR16x32Decim8: real-tap FIR decimators over complex<int16_t>
samples.  Source and destination may be the same buffer. */
module RealTapFir {
  import opened Simd
  import opened Fir
  import opened Decimation
  import opened PairBuffer
  import opened OutputRounding

  function MacPair(i1i0: Lanes, q1q0: Lanes, t1t0: Lanes, acc: Complex32): Complex32 {
    Complex(Smlad(i1i0, t1t0, acc.re), Smlad(q1q0, t1t0, acc.im))
  }

  lemma PairTerm(taps: seq<Int16>, xs: seq<Int16>, n: nat)
    requires n + 2 <= |taps| && n + 2 <= |xs|
    ensures Smlad(Lanes(xs[n], xs[n + 1]), Lanes(taps[n], taps[n + 1]), Wrap32(Dot(taps, xs, n)))
         == Wrap32(Dot(taps, xs, n + 2))
  {
    var y: int := xs[n] as int * taps[n] + xs[n + 1] as int * taps[n + 1];
    DotStep(taps, xs, n);
    DotStep(taps, xs, n + 1);
    Wrap32Absorbs(Dot(taps, xs, n), y);
  }

  /** One dual multiply-accumulate pair adds two terms of both sums, modulo 2^32. */
  lemma PairStep(taps: seq<Int16>, xs: seq<Complex16>, p: nat)
    requires |taps| == |xs| && 2 * p + 2 <= |taps|
    ensures MacPair(FirstWord(Plain, xs[2 * p], xs[2 * p + 1]), SecondWord(Plain, xs[2 * p], xs[2 * p + 1]),
                    Lanes(taps[2 * p], taps[2 * p + 1]), Wrapped(ComplexDot(taps, xs, 2 * p)))
         == Wrapped(ComplexDot(taps, xs, 2 * p + 2))
  {
    hide Dot, Smlad, Wrap32;
    PairTerm(taps, Re(xs), 2 * p);
    PairTerm(taps, Im(xs), 2 * p);
  }

  lemma SumOfNothing(taps: seq<int>, xs: seq<Complex>)
    ensures Wrapped(ComplexDot(taps, xs, 0)) == ZERO
  {
  }

  predicate Shape(len: nat, d: nat) { (len == 16 && d == 2) || (len == 32 && d == 8) }

  class RealTapDecimator {
    const len: nat
    const d: nat
    const z: array<Lanes>
    const taps: array<Int16>
    var outputScale: Int32

    ghost predicate Valid()
      reads this, z, taps
    {
      Shape(len, d) && z.Length == len - d && taps.Length == len
    }

    /** The newest len - d samples seen. */
    ghost function History(): (h: seq<Complex16>)
      requires Valid()
      reads this, z, taps
      ensures |h| == len - d
    {
      Unpacked(Plain, z[..])
    }

    constructor (tapsCount: nat, decimationFactor: nat)
      requires Shape(tapsCount, decimationFactor)
      ensures Valid() && fresh(z) && fresh(taps) && len == tapsCount && d == decimationFactor
      ensures History() == Silence(len - d, ZERO)
    {
      len := tapsCount;
      d := decimationFactor;
      z := new Lanes[tapsCount - decimationFactor](_ => Lanes(0, 0));
      taps := new Int16[tapsCount](_ => 0);
      outputScale := 0;
    }

    method Configure(newTaps: seq<Int16>, scale: Int32)
      requires Valid() && |newTaps| == len
      modifies this, z, taps
      ensures Valid()
      ensures taps[..] == newTaps && outputScale == scale
      ensures History() == Silence(len - d, ZERO)
    {
      forall n | 0 <= n < len {
        taps[n] := newTaps[n];
      }
      outputScale := scale;
      forall m | 0 <= m < z.Length {
        z[m] := Lanes(0, 0);
      }
    }

    /** Oldest samples: accumulated and discarded. */
    method AccumulateOldest(ghost xs: seq<Complex16>) returns (acc: Complex32)
      requires Valid() && |xs| == len && History() <= xs
      ensures acc == Wrapped(ComplexDot(taps[..], xs, d))
    {
      hide MacPair, ComplexDot, Wrapped;
      acc := ZERO;
      SumOfNothing(taps[..], xs);
      for index := 0 to d / 2
        invariant acc == Wrapped(ComplexDot(taps[..], xs, 2 * index))
      {
        PairStep(taps[..], xs, index);
        PackedAt(Plain, z[..], xs, index);
        acc := MacPair(z[2 * index], z[2 * index + 1], Lanes(taps[2 * index], taps[2 * index + 1]), acc);
      }
    }

    /** Middle samples: accumulated and moved earlier in the delay buffer. */
    method AccumulateMiddle(ghost xs: seq<Complex16>, acc0: Complex32) returns (acc: Complex32)
      requires Valid() && |xs| == len && History() <= xs
      requires acc0 == Wrapped(ComplexDot(taps[..], xs, d))
      modifies z
      ensures Valid()
      ensures acc == Wrapped(ComplexDot(taps[..], xs, len - d))
      ensures z[..len - 2 * d] == old(z[d..])
    {
      hide MacPair, ComplexDot, Wrapped, Unpacked, FirstWord, SecondWord, Moved;
      acc := acc0;
      ghost var z0 := z[..];
      MovedNone(z0, d);
      for index := 0 to (len - 2 * d) / 2
        invariant acc == Wrapped(ComplexDot(taps[..], xs, d + 2 * index))
        invariant z[..] == Moved(z0, d, 2 * index)
      {
        var p := d / 2 + index;
        assert 2 * p == d + 2 * index;
        PairStep(taps[..], xs, p);
        PackedAt(Plain, z0, xs, p);
        MovedPair(z0, d, 2 * index);
        var i1i0, q1q0 := z[2 * p], z[2 * p + 1];
        z[2 * index] := i1i0;
        z[2 * index + 1] := q1q0;
        acc := MacPair(i1i0, q1q0, Lanes(taps[2 * p], taps[2 * p + 1]), acc);
      }
      MovedAll(z0, d);
    }

    /** Newest samples: repacked from the input, accumulated and stored in the delay buffer. */
    method AccumulateNewest(chunk: seq<Complex16>, ghost xs: seq<Complex16>, acc0: Complex32) returns (acc: Complex32)
      requires Valid() && |chunk| == d && |xs| == len && xs[len - d..] == chunk
      requires acc0 == Wrapped(ComplexDot(taps[..], xs, len - d))
      modifies z
      ensures Valid()
      ensures acc == Wrapped(ComplexDot(taps[..], xs, len))
      ensures z[..len - 2 * d] == old(z[..len - 2 * d])
      ensures Unpacked(Plain, z[len - 2 * d..]) == chunk
    {
      hide MacPair, ComplexDot, Wrapped, FirstWord, SecondWord, Pkhbt16, Pkhtb16, AsLanes;
      acc := acc0;
      ghost var base := len - 2 * d;
      for index := 0 to d / 2
        invariant acc == Wrapped(ComplexDot(taps[..], xs, len - d + 2 * index))
        invariant forall m :: 0 <= m < base ==> z[m] == old(z[m])
        invariant forall p :: 0 <= p < index ==> HoldsPair(Plain, z[..], base + 2 * p, chunk[2 * p], chunk[2 * p + 1])
      {
        PairStep(taps[..], xs, (len - d) / 2 + index);
        var x0, x1 := chunk[2 * index], chunk[2 * index + 1];
        assert x0 == xs[len - d + 2 * index] && x1 == xs[len - d + 2 * index + 1];
        RepackedInput(x0, x1);
        var q0i0, q1i1 := AsLanes(x0), AsLanes(x1);
        var i1i0, q1q0 := Pkhbt16(q0i0, q1i1), Pkhtb16(q1i1, q0i0);
        z[len - 2 * d + 2 * index] := i1i0;
        z[len - 2 * d + 2 * index + 1] := q1q0;
        acc := MacPair(i1i0, q1q0, Lanes(taps[len - d + 2 * index], taps[len - d + 2 * index + 1]), acc);
      }
      StoredPairs(Plain, z[..], base, chunk);
    }

    /** One output: shifts `chunk` into the delay buffer while accumulating. */
    method Accumulate(chunk: seq<Complex16>) returns (acc: Complex32)
      requires Valid() && |chunk| == d
      modifies z
      ensures Valid()
      ensures acc == Wrapped(ComplexDot(taps[..], old(History()) + chunk, len))
      ensures History() == (old(History()) + chunk)[d..]
    {
      hide ComplexDot, Wrapped, Unpacked;
      ghost var xs := History() + chunk;
      acc := AccumulateOldest(xs);
      acc := AccumulateMiddle(xs, acc);
      acc := AccumulateNewest(chunk, xs, acc);
      ShiftedBuffer(Plain, old(z[..]), z[..], chunk);
    }

    /** Filters and decimates the first `n` samples of `src`, possibly in place. */
    method Execute(src: array<Complex16>, n: nat, dst: array<Complex16>) returns (count: nat)
      requires Valid() && n <= src.Length && dst.Length >= n / d
      modifies z, dst
      ensures Valid() && count == n / d
      ensures dst[..count] == Decimate<Complex, Complex>(PlainWindow(taps[..], outputScale), len, d, old(History() + src[..n]))
      ensures AreOutputs(dst[..count], taps[..], outputScale, d, old(History() + src[..n]))
      ensures History() == Carry<Complex>(len, d, old(History() + src[..n]))
      ensures dst[count..] == old(dst[count..])
    {
      hide Decimate, Carry, ComplexDot, Unpacked, PlainWindow, ScaleRoundAndPack, Wrapped, AreOutputs;
      count := n / d;
      ghost var h, block, stored := History(), src[..n], taps[..];
      ghost var w := PlainWindow(stored, outputScale);
      IncompleteGroup<Complex, Complex>(w, len, d, h, block);
      NothingYet<Complex, Complex>(w, len, d, h, block);
      PlainOutputs(stored, outputScale, d, h + block);
      for i := 0 to count
        invariant Valid() && taps[..] == stored && d * i <= n
        invariant History() == Carry<Complex>(len, d, h + block[..d * i])
        invariant dst[..i] == Decimate<Complex, Complex>(w, len, d, h + block[..d * i])
        invariant dst[count..] == old(dst[count..])
        invariant src[d * i..n] == block[d * i..]
      {
        GroupFits(n, d, i);
        var chunk := src[d * i..d * i + d];
        UnreadInput(src[..], n, block, d, i);
        OneMoreGroup<Complex, Complex>(w, len, d, h, block, i);
        PackedOutput(stored, outputScale, History() + chunk);
        var acc := Accumulate(chunk);
        assert taps[..] == stored;
        dst[i] := ScaleRoundAndPack(acc, outputScale);
      }
    }
  }

  /** The group about to be read has not been overwritten, and output `i` lies before the next. */
  lemma UnreadInput(src: seq<Complex>, n: nat, block: seq<Complex>, d: nat, i: nat)
    requires d >= 1 && d * i + d <= n <= |src| && |block| == n
    requires src[d * i..n] == block[d * i..]
    ensures src[d * i..d * i + d] == block[d * i..d * i + d]
    ensures i < d * (i + 1)
    ensures src[d * (i + 1)..n] == block[d * (i + 1)..]
  {
    assert d * (i + 1) == d * i + d >= i + 1;
    var rest := src[d * i..n];
    assert rest[..d] == src[d * i..d * i + d] && block[d * i..][..d] == block[d * i..d * i + d];
    assert rest[d..] == src[d * i + d..n] && block[d * i..][d..] == block[d * i + d..];
  }

  lemma PackedOutput(taps: seq<Int16>, scale: Int32, xs: seq<Complex16>)
    requires |taps| == |xs|
    ensures PlainWindow(taps, scale)(xs) == ScaleRoundAndPack(Wrapped(ComplexDot(taps, xs, |taps|)), scale)
  {
  }

  lemma RepackedInput(x0: Complex16, x1: Complex16)
    ensures Pkhbt16(AsLanes(x0), AsLanes(x1)) == FirstWord(Plain, x0, x1)
    ensures Pkhtb16(AsLanes(x1), AsLanes(x0)) == SecondWord(Plain, x0, x1)
  {
  }
}
