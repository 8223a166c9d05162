/** Delay buffers: how they move towards the beginning, and two samples packed in two words. */
module PairBuffer {
  import opened Simd

  /** The buffer after `n` elements have been moved `d` places earlier. */
  function Moved<T>(zs: seq<T>, d: nat, n: nat): (us: seq<T>)
    requires d + n <= |zs|
    ensures |us| == |zs|
  {
    zs[d..d + n] + zs[n..]
  }

  lemma MovedNone<T>(zs: seq<T>, d: nat)
    requires d <= |zs|
    ensures Moved(zs, d, 0) == zs
  {
  }

  lemma MovedOne<T>(zs: seq<T>, d: nat, n: nat)
    requires d + n < |zs|
    ensures Moved(zs, d, n)[d + n] == zs[d + n]
    ensures Moved(zs, d, n)[n := zs[d + n]] == Moved(zs, d, n + 1)
  {
  }

  lemma MovedPair<T>(zs: seq<T>, d: nat, n: nat)
    requires 2 <= d && d + n + 2 <= |zs|
    ensures Moved(zs, d, n)[d + n] == zs[d + n] && Moved(zs, d, n)[d + n + 1] == zs[d + n + 1]
    ensures Moved(zs, d, n)[n := zs[d + n]][n + 1 := zs[d + n + 1]] == Moved(zs, d, n + 2)
  {
    MovedOne(zs, d, n);
    MovedOne(zs, d, n + 1);
    assert Moved(zs, d, n)[d + n + 1] == zs[d + n + 1];
  }

  /** After all have been moved, the buffer starts with its old tail. */
  lemma MovedAll<T>(zs: seq<T>, d: nat)
    requires d <= |zs|
    ensures var us := Moved(zs, d, |zs| - d);
            && us[..|zs| - d] == zs[d..]
            && (forall u <- us :: u in zs)
  {
  }

  // Two samples in two words

  /** `Plain`: real parts, then imaginary parts.  `Swapped`: the second sample's parts change places. */
  datatype Layout = Plain | Swapped

  function FirstWord(l: Layout, x0: Complex16, x1: Complex16): Lanes { Lanes(x0.re, if l.Plain? then x1.re else x1.im) }

  function SecondWord(l: Layout, x0: Complex16, x1: Complex16): Lanes { Lanes(x0.im, if l.Plain? then x1.im else x1.re) }

  predicate HoldsPair(l: Layout, zs: seq<Lanes>, m: nat, x0: Complex16, x1: Complex16)
    requires m + 1 < |zs|
  {
    zs[m] == FirstWord(l, x0, x1) && zs[m + 1] == SecondWord(l, x0, x1)
  }

  function Unpack(l: Layout, zs: seq<Lanes>, m: nat): Complex16
    requires |zs| % 2 == 0 && m < |zs|
  {
    if m % 2 == 0 then Complex(zs[m].lo, zs[m + 1].lo)
    else if l.Plain? then Complex(zs[m - 1].hi, zs[m].hi)
    else Complex(zs[m].hi, zs[m - 1].hi)
  }

  /** The samples that a delay buffer holds. */
  function Unpacked(l: Layout, zs: seq<Lanes>): (xs: seq<Complex16>)
    requires |zs| % 2 == 0
    ensures |xs| == |zs|
    ensures forall p :: 0 <= 2 * p < |zs| ==> HoldsPair(l, zs, 2 * p, xs[2 * p], xs[2 * p + 1])
  {
    seq(|zs|, m requires 0 <= m < |zs| => Unpack(l, zs, m))
  }

  lemma PackedAt(l: Layout, zs: seq<Lanes>, xs: seq<Complex16>, p: nat)
    requires |zs| % 2 == 0 && Unpacked(l, zs) <= xs && 2 * p < |zs|
    ensures zs[2 * p] == FirstWord(l, xs[2 * p], xs[2 * p + 1]) && zs[2 * p + 1] == SecondWord(l, xs[2 * p], xs[2 * p + 1])
  {
    assert HoldsPair(l, zs, 2 * p, Unpacked(l, zs)[2 * p], Unpacked(l, zs)[2 * p + 1]);
  }

  lemma StoredPairs(l: Layout, zs: seq<Lanes>, base: nat, chunk: seq<Complex16>)
    requires |chunk| % 2 == 0 && |zs| == base + |chunk|
    requires forall p :: 0 <= p < |chunk| / 2 ==> HoldsPair(l, zs, base + 2 * p, chunk[2 * p], chunk[2 * p + 1])
    ensures Unpacked(l, zs[base..]) == chunk
  {
    var us := zs[base..];
    forall m | 0 <= m < |us| ensures Unpack(l, us, m) == chunk[m] {
      assert HoldsPair(l, zs, base + 2 * (m / 2), chunk[2 * (m / 2)], chunk[2 * (m / 2) + 1]);
      assert m == 2 * (m / 2) || m == 2 * (m / 2) + 1;
    }
  }

  /** A buffer that has been moved and has taken in `chunk` holds the newest of all samples. */
  lemma ShiftedBuffer(l: Layout, oldZ: seq<Lanes>, newZ: seq<Lanes>, chunk: seq<Complex16>)
    requires |oldZ| == |newZ| >= |chunk| && |newZ| % 2 == 0 && |chunk| % 2 == 0
    requires newZ[..|newZ| - |chunk|] == oldZ[|chunk|..]
    requires Unpacked(l, newZ[|newZ| - |chunk|..]) == chunk
    ensures Unpacked(l, newZ) == (Unpacked(l, oldZ) + chunk)[|chunk|..]
  {
    hide Unpack, HoldsPair;
    var d := |chunk|;
    var base := |newZ| - d;
    var oldXs, newXs := Unpacked(l, oldZ), Unpacked(l, newZ);
    forall m | 0 <= m < |newZ| ensures newXs[m] == (oldXs + chunk)[d + m] {
      if m < base {
        MovedSample(l, oldZ, newZ, d, m);
      } else {
        StoredSample(l, newZ, base, m);
      }
    }
  }

  lemma MovedSample(l: Layout, oldZ: seq<Lanes>, newZ: seq<Lanes>, d: nat, m: nat)
    requires |oldZ| == |newZ| && |newZ| % 2 == 0 && d % 2 == 0 && m + d < |newZ|
    requires newZ[..|newZ| - d] == oldZ[d..]
    ensures Unpack(l, newZ, m) == Unpack(l, oldZ, d + m)
  {
    var p, base := 2 * (m / 2), |newZ| - d;
    assert newZ[p] == newZ[..base][p] == oldZ[d..][p];
    assert newZ[p + 1] == newZ[..base][p + 1] == oldZ[d..][p + 1];
    SameUnpacked(l, newZ, m, oldZ, d + m);
  }

  lemma StoredSample(l: Layout, newZ: seq<Lanes>, base: nat, m: nat)
    requires |newZ| % 2 == 0 && base % 2 == 0 && base <= m < |newZ|
    ensures Unpack(l, newZ, m) == Unpack(l, newZ[base..], m - base)
  {
    var p, newest := 2 * (m / 2), newZ[base..];
    assert newZ[p] == newest[p - base] && newZ[p + 1] == newest[p + 1 - base];
    SameUnpacked(l, newZ, m, newest, m - base);
  }

  lemma SameUnpacked(l: Layout, zs: seq<Lanes>, m: nat, us: seq<Lanes>, n: nat)
    requires |zs| % 2 == 0 && m < |zs| && |us| % 2 == 0 && n < |us|
    requires m % 2 == n % 2
    requires zs[2 * (m / 2)] == us[2 * (n / 2)] && zs[2 * (m / 2) + 1] == us[2 * (n / 2) + 1]
    ensures Unpack(l, zs, m) == Unpack(l, us, n)
  {
  }
}
