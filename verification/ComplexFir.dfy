/** FIRAndDecimateComplex: complex taps, 64-bit accumulators, a delay buffer that is moved after
every output by a four-fold unrolled copy. */
module ComplexFir {
  import opened Simd
  import opened Decimation
  import opened PairBuffer
  import FsQuarterFir

  /** Convolution as a reference: sample `n` of the window meets tap `count - 1 - n`. */
  function Convolution(taps: seq<Complex>, xs: seq<Complex>, n: nat): Complex
    requires n <= |taps| && n <= |xs|
  {
    if n == 0 then ZERO
    else Convolution(taps, xs, n - 1).Plus(FsQuarterFir.Times(xs[n - 1], taps[|taps| - n]))
  }

  function Normalize(sum: int): Int16 { Saturate16(Wrap32(sum / 0x1_0000)) }

  /** Only complete groups of eight taps are summed. */
  function Summed(count: nat): (n: nat)
    ensures n <= count && (count % 8 == 0 ==> n == count)
  {
    count / 8 * 8
  }

  function ConvolutionWindow(taps: seq<Complex>): seq<Complex> -> Complex {
    xs => if |xs| == |taps| then
            var sum := Convolution(taps, xs, Summed(|taps|));
            Complex(Normalize(sum.re), Normalize(sum.im))
          else ZERO
  }

  /** A tap count is a 32-bit size_t. */
  const MAX_TAPS: nat := 0xFFFF_FFFF

  /** One complex product adds less than 2^31 to either component. */
  lemma {:induction false} ConvolutionBound(taps: seq<Complex16>, xs: seq<Complex16>, n: nat)
    requires n <= |taps| && n <= |xs|
    ensures -0x8000_0000 * n <= Convolution(taps, xs, n).re <= 0x8000_0000 * n
    ensures -0x8000_0000 * n <= Convolution(taps, xs, n).im <= 0x8000_0000 * n
  {
    hide FsQuarterFir.Times;
    if n > 0 {
      ConvolutionBound(taps, xs, n - 1);
      TimesBound(xs[n - 1], taps[|taps| - n]);
    }
  }

  lemma TimesBound(a: Complex16, b: Complex16)
    ensures -0x8000_0000 <= FsQuarterFir.Times(a, b).re <= 0x8000_0000
    ensures -0x8000_0000 <= FsQuarterFir.Times(a, b).im <= 0x8000_0000
  {
    ProductWithin(a.re, b.re, 0x8000, 0x8000);
    ProductWithin(a.im, b.im, 0x8000, 0x8000);
    ProductWithin(a.re, b.im, 0x8000, 0x8000);
    ProductWithin(a.im, b.re, 0x8000, 0x8000);
  }

  class ComplexFirDecimator {
    var samples: array<Complex16>
    var tapsReversed: array<Complex16>
    var tapsCount: nat
    var d: nat

    ghost predicate Valid()
      reads this
    {
      && 1 <= d <= tapsCount <= MAX_TAPS && samples != tapsReversed
      && samples.Length == tapsCount && tapsReversed.Length == tapsCount
    }

    ghost function History(): (h: seq<Complex16>)
      requires Valid()
      reads this, samples
      ensures |h| == tapsCount - d
    {
      samples[..tapsCount - d]
    }

    ghost predicate HasTaps(taps: seq<Complex16>)
      requires Valid()
      reads this, tapsReversed
    {
      |taps| == tapsCount && forall n :: 0 <= n < tapsCount ==> tapsReversed[n] == taps[tapsCount - 1 - n]
    }

    constructor (taps: seq<Complex16>, decimationFactor: nat)
      requires 1 <= decimationFactor <= |taps| <= MAX_TAPS
      ensures Valid() && fresh(samples) && fresh(tapsReversed) && d == decimationFactor
      ensures HasTaps(taps) && History() == Silence(tapsCount - d, ZERO)
    {
      samples := new Complex16[|taps|](_ => ZERO);
      tapsReversed := new Complex16[|taps|](n requires 0 <= n < |taps| => taps[|taps| - 1 - n]);
      tapsCount := |taps|;
      d := decimationFactor;
    }

    /** The eight-fold unrolled multiply-accumulate loop, one complex product per step. */
    method Sum(ghost taps: seq<Complex16>) returns (re: Int64, im: Int64)
      requires Valid() && HasTaps(taps)
      ensures Complex(re, im) == Convolution(taps, samples[..], Summed(tapsCount))
    {
      hide Convolution, Smlsld, Smlaldx, FsQuarterFir.Times;
      re, im := 0, 0;
      ghost var xs := samples[..];
      NothingSummed(taps, xs);
      for i := 0 to tapsCount / 8 * 8
        invariant Complex(re, im) == Convolution(taps, xs, i)
      {
        OneProduct(taps, xs, i);
        var sample, tap := AsLanes(samples[i]), AsLanes(tapsReversed[i]);
        re, im := Smlsld(sample, tap, re), Smlaldx(sample, tap, im);
      }
    }

    /** Moves the delay buffer `d` places towards its beginning: four at a time, then the rest. */
    method ShiftSamples(ghost was: seq<Complex16>)
      requires Valid() && samples[..] == was
      modifies samples
      ensures History() == was[d..]
    {
      hide Moved;
      var left := tapsCount - d;
      var t, shiftCount := 0, left / 4;
      MovedNone(was, d);
      while shiftCount > 0
        invariant 0 <= shiftCount && t + 4 * shiftCount + left % 4 == left
        invariant samples[..] == Moved(was, d, t)
      {
        CopyOne(t, was);
        CopyOne(t + 1, was);
        CopyOne(t + 2, was);
        CopyOne(t + 3, was);
        t := t + 4;
        shiftCount := shiftCount - 1;
      }
      shiftCount := left % 4;
      while shiftCount > 0
        invariant 0 <= shiftCount && t + shiftCount == left
        invariant samples[..] == Moved(was, d, t)
      {
        CopyOne(t, was);
        t := t + 1;
        shiftCount := shiftCount - 1;
      }
      MovedAll(was, d);
    }

    /** One `*(t++) = *(s++)`; the source pointer stays `d` places ahead. */
    method CopyOne(t: nat, ghost was: seq<Complex16>)
      requires Valid() && |was| == tapsCount && t + d < tapsCount && samples[..] == Moved(was, d, t)
      modifies samples
      ensures samples[..] == Moved(was, d, t + 1)
    {
      hide Moved;
      MovedOne(was, d, t);
      samples[t] := samples[t + d];
    }

    /** Filters and decimates the first `n` samples of `src`, possibly in place. */
    method Execute(src: array<Complex16>, n: nat, dst: array<Complex16>, ghost taps: seq<Complex16>) returns (count: nat)
      requires Valid() && HasTaps(taps) && n <= src.Length && n / d <= dst.Length
      requires src != samples && dst != samples && dst != tapsReversed
      modifies samples, dst
      ensures Valid() && HasTaps(taps) && count == n / d
      ensures dst[..count] == Decimate<Complex, Complex>(ConvolutionWindow(taps), tapsCount, d, old(History() + src[..n]))
      ensures History() == Carry<Complex>(tapsCount, d, old(History() + src[..n]))
      ensures dst[count..] == old(dst[count..])
    {
      hide ConvolutionWindow, HasTaps, History, HistoryAfter, OutputsAfter;
      count := n / d;
      ghost var h: seq<Complex>, block: seq<Complex>, w := History(), src[..n], ConvolutionWindow(taps);
      NothingFiltered(w, tapsCount, d, h, block);
      var at := 0;
      for i := 0 to count
        invariant Valid() && HasTaps(taps)
        invariant at == d * i && i <= at <= n
        invariant History() == HistoryAfter(tapsCount, d, h, block, at)
        invariant dst[..i] == OutputsAfter(w, tapsCount, d, h, block, at)
        invariant dst[count..] == old(dst[count..])
        invariant forall m :: at <= m < n ==> src[m] == block[m]
      {
        GroupFits(n, d, i);
        ghost var group, before := block[at..at + d], dst[..i];
        NextFiltered(w, tapsCount, d, h, block, i, at);
        assert group == src[at..at + d];
        var y := OneOutput(src, at, taps, group);
        dst[i] := y;
        assert dst[..i + 1] == before + [y];
        at := at + d;
      }
      AllFiltered(w, tapsCount, d, h, block, count);
    }

    /** Places `d` new samples, sums the window and shifts the delay buffer. */
    method OneOutput(src: array<Complex16>, at: nat, ghost taps: seq<Complex16>, ghost group: seq<Complex>) returns (y: Complex16)
      requires Valid() && HasTaps(taps) && at + d <= src.Length && src != samples && group == src[at..at + d]
      modifies samples
      ensures HasTaps(taps)
      ensures y == ConvolutionWindow(taps)(old(History()) + group)
      ensures History() == (old(History()) + group)[d..]
    {
      assert |taps| == tapsCount;
      hide ConvolutionWindow, Convolution, Normalize, HasTaps, History;
      ghost var window := History() + group;
      PlaceSamples(src, at, taps, group);
      var re, im := Sum(taps);
      WindowOutput(taps, window, re, im);
      y := Complex(Normalize(re), Normalize(im));
      ShiftSamples(window);
    }

    method PlaceSamples(src: array<Complex16>, at: nat, ghost taps: seq<Complex16>, ghost group: seq<Complex>)
      requires Valid() && HasTaps(taps) && at + d <= src.Length && src != samples && group == src[at..at + d]
      modifies samples
      ensures HasTaps(taps)
      ensures samples[..] == old(History()) + group
    {
      ghost var was := samples[..];
      assert History() == was[..tapsCount - d];
      hide HasTaps, Placed, History;
      PlacedEnds(was, group);
      for k := 0 to d
        invariant samples[..] == Placed(was, group, k) && HasTaps(taps)
      {
        PlacedOne(was, group, k);
        samples[tapsCount - d + k] := src[at + k];
      }
    }
  }

  /** The buffer when the first `k` samples of a group have been placed at its end. */
  ghost function Placed(was: seq<Complex>, group: seq<Complex>, k: nat): (xs: seq<Complex>)
    requires k <= |group| <= |was|
    ensures |xs| == |was|
  {
    was[..|was| - |group|] + group[..k] + was[|was| - |group| + k..]
  }

  lemma PlacedEnds(was: seq<Complex>, group: seq<Complex>)
    requires |group| <= |was|
    ensures Placed(was, group, 0) == was
    ensures Placed(was, group, |group|) == was[..|was| - |group|] + group
  {
  }

  lemma PlacedOne(was: seq<Complex>, group: seq<Complex>, k: nat)
    requires k < |group| <= |was|
    ensures Placed(was, group, k + 1) == Placed(was, group, k)[|was| - |group| + k := group[k]]
  {
  }

  lemma WindowOutput(taps: seq<Complex>, xs: seq<Complex>, re: int, im: int)
    requires |xs| == |taps| && Complex(re, im) == Convolution(taps, xs, Summed(|taps|))
    ensures ConvolutionWindow(taps)(xs) == Complex(Normalize(re), Normalize(im))
  {
    hide Convolution, Normalize;
  }

  /** The history and the outputs after the first `at` samples of a block. */
  ghost function HistoryAfter(len: nat, d: nat, h: seq<Complex>, block: seq<Complex>, at: nat): seq<Complex>
    requires 1 <= d <= len && |h| == len - d && at <= |block|
  {
    Carry<Complex>(len, d, h + block[..at])
  }

  ghost function OutputsAfter(w: seq<Complex> -> Complex, len: nat, d: nat, h: seq<Complex>, block: seq<Complex>, at: nat): seq<Complex>
    requires 1 <= d <= len && |h| == len - d && at <= |block|
  {
    Decimate<Complex, Complex>(w, len, d, h + block[..at])
  }

  lemma NothingFiltered(w: seq<Complex> -> Complex, len: nat, d: nat, h: seq<Complex>, block: seq<Complex>)
    requires 1 <= d <= len && |h| == len - d
    ensures HistoryAfter(len, d, h, block, 0) == h && OutputsAfter(w, len, d, h, block, 0) == []
  {
    NothingYet<Complex, Complex>(w, len, d, h, block);
  }

  lemma NextFiltered(w: seq<Complex> -> Complex, len: nat, d: nat, h: seq<Complex>, block: seq<Complex>, i: nat, at: nat)
    requires 1 <= d <= len && |h| == len - d && at == d * i && at + d <= |block|
    ensures var window := HistoryAfter(len, d, h, block, at) + block[at..at + d];
            HistoryAfter(len, d, h, block, at + d) == window[d..] &&
            OutputsAfter(w, len, d, h, block, at + d) == OutputsAfter(w, len, d, h, block, at) + [w(window)]
    ensures d * (i + 1) == at + d
  {
    hide Decimate, Carry;
    NextGroup<Complex, Complex>(w, len, d, h, block, i, at);
  }

  /** An incomplete group at the end changes neither. */
  lemma AllFiltered(w: seq<Complex> -> Complex, len: nat, d: nat, h: seq<Complex>, block: seq<Complex>, count: nat)
    requires 1 <= d <= len && |h| == len - d && count == |block| / d && d * count <= |block|
    ensures HistoryAfter(len, d, h, block, d * count) == Carry<Complex>(len, d, h + block)
    ensures OutputsAfter(w, len, d, h, block, d * count) == Decimate<Complex, Complex>(w, len, d, h + block)
  {
    hide Decimate, Carry;
    IncompleteGroup<Complex, Complex>(w, len, d, h, block);
  }

  lemma NothingSummed(taps: seq<Complex>, xs: seq<Complex>)
    ensures Convolution(taps, xs, 0) == ZERO
  {
  }

  /** The dual multiply-accumulate instructions compute one complex product, without wrapping. */
  lemma OneProduct(taps: seq<Complex16>, xs: seq<Complex16>, i: nat)
    requires i < |taps| == |xs| <= MAX_TAPS
    ensures var sum, sample, tap := Convolution(taps, xs, i), AsLanes(xs[i]), AsLanes(taps[|taps| - 1 - i]);
            Complex(Smlsld(sample, tap, sum.re), Smlaldx(sample, tap, sum.im)) == Convolution(taps, xs, i + 1)
  {
    hide Wrap64;
    ConvolutionBound(taps, xs, i + 1);
    var product := FsQuarterFir.Times(xs[i], taps[|taps| - 1 - i]);
    assert Convolution(taps, xs, i + 1) == Convolution(taps, xs, i).Plus(product);
    Fits64(Convolution(taps, xs, i + 1).re);
    Fits64(Convolution(taps, xs, i + 1).im);
  }

  lemma Fits64(x: int)
    requires -0x8000_0000_0000_0000 <= x < 0x8000_0000_0000_0000
    ensures Wrap64(x) == x
  {
  }
}
