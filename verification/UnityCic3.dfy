/** DecimateBy2CIC3: the third-order CIC stage with gain 1 on complex<int16_t> samples. */
module UnityCic3 {
  import opened Simd
  import opened Decimation
  import opened Cic3

  function Eighth(sum: Complex): Complex { Complex(TruncDiv(sum.re, 8), TruncDiv(sum.im, 8)) }

  function UnityWindow(): seq<Complex> -> Complex {
    xs => if |xs| == 4 then Eighth(CicSum(xs[0], xs[1], xs[2], xs[3])) else ZERO
  }

  lemma UnityAt(xs: seq<Complex>)
    requires |xs| == 4
    ensures UnityWindow()(xs) == Eighth(CicSum(xs[0], xs[1], xs[2], xs[3]))
  {
  }

  class Unity {
    var iq0: Complex16
    var iq1: Complex16

    ghost function History(): seq<Complex16>
      reads this
    {
      [iq0, iq1]
    }

    constructor ()
      ensures History() == [ZERO, ZERO]
    {
      iq0, iq1 := ZERO, ZERO;
    }

    /** Filters and decimates the first `n` samples of `src`; `dst` may be the same buffer, since
        two samples are written only after four have been read. */
    method Execute(src: array<Complex16>, n: nat, dst: array<Complex16>)
      requires n % 4 == 0 && n <= src.Length && n / 2 <= dst.Length
      modifies this, dst
      ensures dst[..n / 2] == Decimate<Complex, Complex>(UnityWindow(), 4, 2, old(History() + src[..n]))
      ensures History() == old((History() + src[..n])[n..])
      ensures dst[n / 2..] == old(dst[n / 2..])
    {
      hide Decimate, OutputsAfter, CarriedAfter, UnityWindow, Eighth, CicSum;
      var t1, t2 := iq0, iq1;
      ghost var h: seq<Complex>, block: seq<Complex>, w := History(), src[..n], UnityWindow();
      NoPassYet(w, h, block);
      for g := 0 to n / 4
        invariant [t1, t2] == CarriedAfter(h, block, g)
        invariant dst[..2 * g] == OutputsAfter(w, h, block, g)
        invariant forall m :: n / 2 <= m < dst.Length ==> dst[m] == old(dst[m])
        invariant forall m :: 4 * g <= m < n ==> src[m] == block[m]
      {
        OnePass(w, h, block, g);
        t1, t2 := Pass(src, dst, g, t1, t2);
      }
      AllPasses(w, h, block);
      iq0, iq1 := t1, t2;
    }
  }

  /** One pass of the loop: reads two samples, writes one, reads two more, writes one. */
  method Pass(src: array<Complex16>, dst: array<Complex16>, g: nat, t1: Complex16, t2: Complex16)
    returns (u1: Complex16, u2: Complex16)
    requires 4 * g + 4 <= src.Length && 2 * g + 2 <= dst.Length
    modifies dst
    ensures u1 == old(src[4 * g + 2]) && u2 == old(src[4 * g + 3])
    ensures dst[..2 * (g + 1)] == old(dst[..2 * g])
              + [UnityWindow()([t1, t2] + [old(src[4 * g]), old(src[4 * g + 1])]),
                 UnityWindow()([old(src[4 * g]), old(src[4 * g + 1]), u1, u2])]
    ensures forall m :: 2 * g + 2 <= m < dst.Length ==> dst[m] == old(dst[m])
    ensures forall m :: 4 * g + 4 <= m < src.Length ==> src[m] == old(src[m])
  {
    hide *;
    var t3, t4 := src[4 * g], src[4 * g + 1];
    var d0 := UnityTaps(t1, t2, t3, t4);
    dst[2 * g] := d0;
    u1, u2 := src[4 * g + 2], src[4 * g + 3];
    var d1 := UnityTaps(t3, t4, u1, u2);
    dst[2 * g + 1] := d1;
    UnityAt([t1, t2] + [t3, t4]);
    UnityAt([t3, t4, u1, u2]);
  }

  /** Sign-extend, multiply by three twice, add the last sample and divide: 32 bits suffice. */
  method UnityTaps(t1: Complex16, t2: Complex16, t3: Complex16, t4: Complex16) returns (d: Complex16)
    ensures d == Eighth(CicSum(t1, t2, t3, t4))
  {
    hide Wrap32, Wrap16, TruncDiv;
    var taps := Lanes(3, 0);
    SumFits(t1.re, t2.re, t3.re, t4.re);
    SumFits(t1.im, t2.im, t3.im, t4.im);
    var i2, q2 := Smlabb(AsLanes(t2), taps, t1.re), Smlatb(AsLanes(t2), taps, t1.im);
    var i3, q3 := Smlabb(AsLanes(t3), taps, i2), Smlatb(AsLanes(t3), taps, q2);
    var si, sq := Wrap32(i3 as int + t4.re), Wrap32(q3 as int + t4.im);
    d := Complex(Wrap16(TruncDiv(si, 8)), Wrap16(TruncDiv(sq, 8)));
  }

  /** The three partial sums fit in 32 bits and an eighth of the last fits in 16. */
  lemma SumFits(a: Int16, b: Int16, c: Int16, e: Int16)
    ensures var s2, s3 := a as int + b * 3, a as int + b * 3 + c * 3;
            && Wrap32(s2) == s2 && Wrap32(s3) == s3 && Wrap32(s3 + e) == s3 + e
            && Wrap16(TruncDiv(s3 + e, 8)) == TruncDiv(a as int + 3 * b + 3 * c + e, 8)
  {
  }

  /** Block-split invariance of the unity stage. */
  lemma UnitySplit(h: seq<Complex>, a: seq<Complex>, g: nat, b: seq<Complex>)
    requires |h| == 2 && |a| == 4 * g
    ensures Decimate(UnityWindow(), 4, 2, h + (a + b))
         == Decimate(UnityWindow(), 4, 2, h + a) + Decimate(UnityWindow(), 4, 2, (h + a)[|a|..] + b)
  {
    hide Decimate, Carry, UnityWindow;
    UniqueQuotient(4 * g, 2, 2 * g, 0);
    SplitInvariance(UnityWindow(), 4, 2, h, a, b);
    CarryIsNewest(4, 2, h + a);
  }
}
