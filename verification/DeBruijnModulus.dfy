/** The polynomial of each code length, in the backward step, that sends every window to zero. */
module DeBruijnModulus {

  import opened BitStrings
  import opened DeBruijn
  import opened DeBruijnAlgebra

  function Modulus(length: nat): bv32
    requires 3 <= length <= 16
  {
    (POLYNOMIALS[length - 3] << 1) | 1
  }

  lemma ModulusBits(length: nat)
    requires 3 <= length <= 16
    ensures Low(Modulus(length)) && Half(Modulus(length)) == POLYNOMIALS[length - 3]
  {
  }

  lemma {:induction false} ParityFromFront(w: Bits, taps: Bits)
    requires |w| == |taps| >= 1
    ensures Parity(w, taps) == ((w[0] && taps[0]) != Parity(w[1..], taps[1..]))
  {
    var n := |w| - 1;
    if n == 0 {
      assert w[..0] == [] == w[1..] && taps[..0] == [] == taps[1..];
    } else {
      ParityFromFront(w[..n], taps[..n]);
      assert w[..n][1..] == w[1..][..n - 1] && taps[..n][1..] == taps[1..][..n - 1];
    }
  }

  lemma {:induction false} RewoundAt(w: Bits, taps: Bits, k: nat, i: nat)
    requires |w| == |taps| > k + i
    ensures Rewound(w, taps, k)[i] == w[k + i]
  {
    if k > 0 {
      RewoundAt(w, taps, k - 1, i + 1);
    }
  }

  lemma {:induction false} CombOfRewound(c: bv32, w: Bits, taps: Bits, k: nat)
    requires |w| == |taps| >= 1
    ensures Comb(c, Rewound(w, taps, k), taps) == Rewound(Comb(c, w, taps), taps, k)
  {
    hide Comb, Previous;
    if k > 0 {
      CombOfRewound(c, w, taps, k - 1);
      CombOfPrevious(c, Rewound(w, taps, k - 1), taps);
    }
  }

  /** The first bit of a polynomial applied to a window is the parity under its coefficients. */
  lemma {:induction false} FirstBitIsParity(c: bv32, v: Bits, taps: Bits, k: nat)
    requires 1 <= |v| == |taps| <= 16 && k <= |v| && Below(c, |v| - k)
    ensures Comb(c, Rewound(v, taps, k), taps)[0] == Parity(v[k..], BitsOf(c, |v| - k))
    decreases |v| - k
  {
    hide *;
    if k == |v| {
      OnlyOne(c);
      FirstBitOfNothing(v, taps);
    } else {
      HalfBelow(c, |v| - k);
      FirstBitIsParity(Half(c), v, taps, k + 1);
      FirstBitStep(c, v, taps, k);
    }
  }

  lemma FirstBitOfNothing(v: Bits, taps: Bits)
    requires |v| == |taps| >= 1
    ensures !Comb(0, Rewound(v, taps, |v|), taps)[0] && !Parity(v[|v|..], BitsOf(0, 0))
  {
    hide Rewound;
  }

  lemma FirstBitStep(c: bv32, v: Bits, taps: Bits, k: nat)
    requires |v| == |taps| && k < |v|
    requires Comb(Half(c), Rewound(v, taps, k + 1), taps)[0] == Parity(v[k + 1..], BitsOf(Half(c), |v| - k - 1))
    ensures Comb(c, Rewound(v, taps, k), taps)[0] == Parity(v[k..], BitsOf(c, |v| - k))
  {
    hide Low, Half, Previous, Comb, Parity;
    var r, bits := Rewound(v, taps, k), BitsOf(c, |v| - k);
    Peel(c, r, taps);
    RewoundAt(v, taps, k, 0);
    assert Rewound(v, taps, k + 1) == Previous(r, taps);
    assert bits[0] == Low(c) && bits[1..] == BitsOf(Half(c), |v| - k - 1);
    hide Rewound, BitsOf;
    ParityFromFront(v[k..], bits);
    assert v[k..][1..] == v[k + 1..];
  }

  /** The modulus, applied to any window, starts with zero: the newest bit is the parity of the
  window before. */
  lemma ModulusStartsWithZero(length: nat, w: Bits)
    requires 3 <= length <= 16 && |w| == length
    ensures !Comb(Modulus(length), w, Taps(length))[0]
  {
    var taps := Taps(length);
    ModulusBits(length);
    Peel(Modulus(length), w, taps);
    PolynomialSize(length);
    EveryPolynomialFeedsBack(length);
    StepIsAPermutation(w, taps);
    var v := Previous(w, taps);
    hide Comb, Low, Half, Below, Modulus, Previous;
    FirstBitIsParity(POLYNOMIALS[length - 3], v, taps, 0);
    assert Rewound(v, taps, 0) == v && v[0..] == v;
    hide Parity, Rewound;
    assert w[0] == Next(v, taps)[0];
  }

  lemma ModulusAnnihilates(length: nat)
    requires 3 <= length <= 16
    ensures IsModulus(Modulus(length), Taps(length))
  {
    var m, taps := Modulus(length), Taps(length);
    PolynomialSize(length);
    ModulusIsSmall(length);
    hide Modulus, Taps, Comb, Below, HasModulusSize;
    forall w: Bits | |w| == length ensures Comb(m, w, taps) == Zeros(length) {
      ModulusGivesZeros(length, w);
    }
  }

  lemma ModulusGivesZeros(length: nat, w: Bits)
    requires 3 <= length <= 16 && |w| == length
    ensures Comb(Modulus(length), w, Taps(length)) == Zeros(length)
  {
    hide Modulus, Taps, Comb;
    var y := Comb(Modulus(length), w, Taps(length));
    forall k | 0 <= k < length ensures !y[k] {
      ModulusGivesZeroAt(length, w, k);
    }
  }

  lemma ModulusGivesZeroAt(length: nat, w: Bits, k: nat)
    requires 3 <= length <= 16 && |w| == length && k < length
    ensures !Comb(Modulus(length), w, Taps(length))[k]
  {
    hide Modulus, Taps, Comb, Rewound;
    var m, taps := Modulus(length), Taps(length);
    ModulusStartsWithZero(length, Rewound(w, taps, k));
    CombOfRewound(m, w, taps, k);
    RewoundAt(Comb(m, w, taps), taps, k, 0);
  }

  lemma ModulusIsSmall(length: nat)
    requires 3 <= length <= 16
    ensures HasModulusSize(Modulus(length))
  {
  }
}
