/** FIR64AndDecimateBy2Real: a 64-tap real FIR whose delay line moves while it is summed. */
module RealFir64 {
  import opened Simd
  import opened Fir
  import opened Decimation

  const TAPS: nat := 64

  /** The tap sum of a window, in units where a tap of 65536 would be 1. */
  function Fir64Window(taps: seq<int>): seq<int> -> int {
    xs => if |xs| == |taps| then TruncDiv(Wrap32(Dot(taps, xs, |taps|)), 0x1_0000) else 0
  }

  class RealFir64Decimator {
    const z: array<Int16>
    const taps: array<Int16>

    ghost predicate Valid()
      reads this
    {
      z.Length == TAPS + 2 && taps.Length == TAPS && z != taps
    }

    /** The newest 62 samples seen. */
    ghost function History(): (h: seq<Int16>)
      requires Valid()
      reads this, z
      ensures |h| == TAPS - 2
    {
      z[..TAPS - 2]
    }

    constructor ()
      ensures Valid() && fresh(z) && fresh(taps)
      ensures History() == Silence(TAPS - 2, 0)
    {
      z := new Int16[TAPS + 2](_ => 0);
      taps := new Int16[TAPS](_ => 0);
    }

    /** Changing the taps keeps the delay line. */
    method Configure(newTaps: seq<Int16>)
      requires Valid() && |newTaps| == TAPS
      modifies taps
      ensures Valid() && taps[..] == newTaps && History() == old(History())
    {
      forall i | 0 <= i < TAPS {
        taps[i] := newTaps[i];
      }
    }

    /** One output: multiplies the window and moves it two places, four samples at a time. */
    method SumAndShift(x0: Int16, x1: Int16) returns (t: Int32)
      requires Valid()
      modifies z
      ensures t == Wrap32(Dot(taps[..], old(History()) + [x0, x1], TAPS))
      ensures History() == (old(History()) + [x0, x1])[2..]
    {
      hide Wrap32, Dot;
      z[TAPS - 2] := x0;
      z[TAPS - 1] := x1;
      ghost var z0 := z[..];
      ghost var xs: seq<Int16> := old(History()) + [x0, x1];
      assert z0[..TAPS] == xs;
      t := 0;
      EmptySum(taps[..], xs);
      for i := 0 to TAPS / 4
        invariant t == Wrap32(Dot(taps[..], xs, 4 * i))
        invariant forall m :: 0 <= m < 4 * i ==> z[m] == z0[m + 2]
        invariant forall m :: 4 * i <= m < z.Length ==> z[m] == z0[m]
      {
        var j := 4 * i;
        assert z[j..j + 4] == xs[j..j + 4];
        t := FourTerms(t, z[j..j + 4], taps[j..j + 4], taps[..], xs, j);
        MoveFour(j);
      }
      assert History() == z0[2..TAPS] == xs[2..];
    }

    method MoveFour(j: nat)
      requires Valid() && j + 4 <= TAPS
      modifies z
      ensures forall m :: j <= m < j + 4 ==> z[m] == old(z[m + 2])
      ensures forall m :: 0 <= m < z.Length && !(j <= m < j + 4) ==> z[m] == old(z[m])
    {
      z[j] := z[j + 2];
      z[j + 1] := z[j + 3];
      z[j + 2] := z[j + 4];
      z[j + 3] := z[j + 5];
    }

    /** Filters and decimates the first `n` samples of `src`, possibly in place. */
    method Execute(src: array<Int16>, n: nat, dst: array<Int16>)
      requires Valid() && n % 2 == 0 && n <= src.Length && n / 2 <= dst.Length
      requires dst != z && dst != taps && src != z
      modifies z, dst
      ensures dst[..n / 2] == Decimate<int, int>(Fir64Window(taps[..]), TAPS, 2, old(History() + src[..n]))
      ensures History() == old((History() + src[..n])[n..])
      ensures dst[n / 2..] == old(dst[n / 2..])
    {
      hide Decimate, Fir64Window, Wrap32, Dot, TruncDiv;
      ghost var h: seq<int>, block: seq<int>, stored := History(), src[..n], taps[..];
      ghost var w := Fir64Window(stored);
      NothingYet<int, int>(w, TAPS, 2, h, block);
      assert h + block[..0] == h;
      for i := 0 to n / 2
        invariant taps[..] == stored
        invariant (h + block[..2 * i])[2 * i..] == History()
        invariant dst[..i] == Decimate<int, int>(w, TAPS, 2, h + block[..2 * i])
        invariant dst[n / 2..] == old(dst[n / 2..])
        invariant forall m :: 2 * i <= m < n ==> src[m] == block[m]
      {
        var x0, x1 := src[2 * i], src[2 * i + 1];
        OneMorePair(w, TAPS, h, block, i);
        WindowOutput(stored, History() + [x0, x1]);
        var t := SumAndShift(x0, x1);
        assert taps[..] == stored;
        dst[i] := TruncDiv(t, 0x1_0000);
      }
      assert block[..2 * (n / 2)] == block;
    }
  }

  /** Four products, in the order of the unrolled loop. */
  method FourTerms(t0: Int32, z: seq<Int16>, c: seq<Int16>, ghost taps: seq<Int16>, ghost xs: seq<Int16>, ghost j: nat)
    returns (t: Int32)
    requires |z| == |c| == 4 && j + 4 <= |taps| && j + 4 <= |xs|
    requires z == xs[j..j + 4] && c == taps[j..j + 4]
    requires t0 == Wrap32(Dot(taps, xs, j))
    ensures t == Wrap32(Dot(taps, xs, j + 4))
  {
    hide Wrap32, Dot;
    t := t0;
    for k := 0 to 4
      invariant t == Wrap32(Dot(taps, xs, j + k))
    {
      DotStep(taps, xs, j + k);
      Wrap32Absorbs(Dot(taps, xs, j + k), xs[j + k] as int * taps[j + k]);
      t := Wrap32(t as int + z[k] as int * c[k]);
    }
  }

  lemma EmptySum(taps: seq<int>, xs: seq<int>)
    ensures Wrap32(Dot(taps, xs, 0)) == 0
  {
  }

  lemma WindowOutput(taps: seq<Int16>, xs: seq<Int16>)
    requires |taps| == |xs| == TAPS
    ensures Fir64Window(taps)(xs) == TruncDiv(Wrap32(Dot(taps, xs, TAPS)), 0x1_0000)
    ensures FitsInt16(Fir64Window(taps)(xs))
  {
  }
}
