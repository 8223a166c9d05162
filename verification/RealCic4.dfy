/** DecimateBy2CIC4Real: the fourth-order CIC stage on real samples, taps (1, 4, 6, 4, 1). */
module RealCic4 {
  import opened Simd
  import opened Decimation

  function Sum(a: int, b: int, c: int, d: int, e: int): int { a + b * 4 + c * 6 + d * 4 + e }

  function Cic4Window(): seq<int> -> int {
    xs => if |xs| == 5 then TruncDiv(Sum(xs[0], xs[1], xs[2], xs[3], xs[4]), 16) else 0
  }

  class RealCic4Decimator {
    const z: array<Int16>

    ghost predicate Valid()
      reads this
    {
      z.Length == 5
    }

    /** The newest three samples seen. */
    ghost function History(): (h: seq<Int16>)
      requires Valid()
      reads this, z
      ensures |h| == 3
    {
      z[2..]
    }

    constructor ()
      ensures Valid() && fresh(z) && History() == Silence(3, 0)
    {
      z := new Int16[5](_ => 0);
    }

    /** Decimates the first `n` samples of `src`, possibly in place. */
    method Execute(src: array<Int16>, n: nat, dst: array<Int16>)
      requires Valid() && n % 2 == 0 && n <= src.Length && n / 2 <= dst.Length
      requires dst != z && src != z
      modifies z, dst
      ensures dst[..n / 2] == Decimate<int, int>(Cic4Window(), 5, 2, old(History() + src[..n]))
      ensures History() == old((History() + src[..n])[n..])
      ensures dst[n / 2..] == old(dst[n / 2..])
    {
      hide Decimate, Cic4Window, OutputsAfter, HeldAfter, History;
      ghost var h: seq<int>, block: seq<int>, w := History(), src[..n], Cic4Window();
      NoPairYet(w, h, block);
      for i := 0 to n / 2
        invariant History() == HeldAfter(h, block, i)
        invariant dst[..i] == OutputsAfter(w, h, block, i)
        invariant forall m :: n / 2 <= m < dst.Length ==> dst[m] == old(dst[m])
        invariant forall m :: 2 * i <= m < n ==> src[m] == block[m]
      {
        NextPair(w, h, block, i);
        ghost var outputs := dst[..i];
        dst[i] := Next(src[2 * i], src[2 * i + 1]);
        assert dst[..i + 1] == outputs + [dst[i]];
      }
      AllPairs(w, h, block);
    }

    /** Shifts two samples into the window and weighs it. */
    method Next(x0: Int16, x1: Int16) returns (y: Int16)
      requires Valid()
      modifies z
      ensures y == Cic4Window()(old(History()) + [x0, x1])
      ensures History() == (old(History()) + [x0, x1])[2..]
    {
      hide TruncDiv, Sum;
      z[0] := z[2];
      z[1] := z[3];
      z[2] := z[4];
      z[3] := x0;
      z[4] := x1;
      var t := Sum(z[0], z[1], z[2], z[3], z[4]);
      SumFits(z[0], z[1], z[2], z[3], z[4]);
      y := TruncDiv(t, 16);
    }
  }

  // Outputs and held samples after `i` pairs of a block

  ghost function OutputsAfter(w: seq<int> -> int, h: seq<int>, block: seq<int>, i: nat): seq<int>
    requires |h| == 3 && 2 * i <= |block|
  {
    Decimate<int, int>(w, 5, 2, h + block[..2 * i])
  }

  ghost function HeldAfter(h: seq<int>, block: seq<int>, i: nat): seq<int>
    requires |h| == 3 && 2 * i <= |block|
  {
    (h + block[..2 * i])[2 * i..]
  }

  lemma NoPairYet(w: seq<int> -> int, h: seq<int>, block: seq<int>)
    requires |h| == 3
    ensures OutputsAfter(w, h, block, 0) == [] && HeldAfter(h, block, 0) == h
  {
    assert h + block[..0] == h;
  }

  lemma NextPair(w: seq<int> -> int, h: seq<int>, block: seq<int>, i: nat)
    requires |h| == 3 && 2 * i + 2 <= |block|
    ensures var window := HeldAfter(h, block, i) + [block[2 * i], block[2 * i + 1]];
            && OutputsAfter(w, h, block, i + 1) == OutputsAfter(w, h, block, i) + [w(window)]
            && HeldAfter(h, block, i + 1) == window[2..]
  {
    hide Decimate;
    OneMorePair(w, 5, h, block, i);
  }

  lemma AllPairs(w: seq<int> -> int, h: seq<int>, block: seq<int>)
    requires |h| == 3 && |block| % 2 == 0
    ensures OutputsAfter(w, h, block, |block| / 2) == Decimate<int, int>(w, 5, 2, h + block)
    ensures HeldAfter(h, block, |block| / 2) == (h + block)[|block|..]
  {
    hide Decimate;
    assert block[..2 * (|block| / 2)] == block;
  }

  /** The sum needs no more than 32 bits, and a sixteenth of it fits in 16. */
  lemma SumFits(a: Int16, b: Int16, c: Int16, d: Int16, e: Int16)
    ensures FitsInt32(Sum(a, b, c, d, e)) && FitsInt16(TruncDiv(Sum(a, b, c, d, e), 16))
  {
  }
}
