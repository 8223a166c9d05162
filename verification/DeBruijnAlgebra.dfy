/** The linear algebra of the shift register: powers of its step as polynomials over the two-element
field, so that many steps can be taken at once.

A word stands for the polynomial whose coefficient of x^i is its bit i; x stands for one step
backwards.
 */
module DeBruijnAlgebra {

  import opened BitStrings
  import opened DeBruijn

  // The step backwards is linear

  function Masked(b: bool, w: Bits): (r: Bits)
    ensures |r| == |w|
  {
    if b then w else Zeros(|w|)
  }

  lemma {:induction false} ParityIsLinear(a: Bits, b: Bits, taps: Bits)
    requires |a| == |b| == |taps|
    ensures Parity(Xor(a, b), taps) == (Parity(a, taps) != Parity(b, taps))
  {
    if taps != [] {
      var n := |taps| - 1;
      assert Xor(a, b)[..n] == Xor(a[..n], b[..n]);
      ParityIsLinear(a[..n], b[..n], taps[..n]);
    }
  }

  lemma PreviousIsLinear(a: Bits, b: Bits, taps: Bits)
    requires |a| == |b| == |taps| >= 1
    ensures Previous(Xor(a, b), taps) == Xor(Previous(a, taps), Previous(b, taps))
  {
    assert Xor(a, b)[1..] == Xor(a[1..], b[1..]);
    ParityIsLinear(a[1..], b[1..], taps[..|taps| - 1]);
    hide Parity;
  }

  lemma PreviousOfZeros(taps: Bits)
    requires |taps| >= 1
    ensures Previous(Zeros(|taps|), taps) == Zeros(|taps|)
  {
    var z := Zeros(|taps|);
    assert Xor(z, z) == z;
    PreviousIsLinear(z, z, taps);
    hide Previous;
    assert forall i :: 0 <= i < |taps| ==> !Previous(z, taps)[i];
  }

  // Polynomials in the step backwards

  /** The polynomial applied to a window. */
  function Comb(c: bv32, w: Bits, taps: Bits): (r: Bits)
    requires |w| == |taps| >= 1
    ensures |r| == |w|
    decreases c
  {
    if c == 0 then Zeros(|w|)
    else
      HalfIsLess(c);
      Xor(Masked(Low(c), w), Comb(Half(c), Previous(w, taps), taps))
  }

  lemma HalfIsLess(c: bv32)
    ensures c != 0 ==> Half(c) < c
    ensures c == 0 ==> Half(c) == 0 && !Low(c)
  {
  }

  function Double(c: bv32): bv32 { c << 1 }

  predicate TopClear(c: bv32) { c < 0x8000_0000 }

  function Plus(c: bv32, d: bv32): bv32 { c ^ d }

  lemma Peel(c: bv32, w: Bits, taps: Bits)
    requires |w| == |taps| >= 1
    ensures Comb(c, w, taps) == Xor(Masked(Low(c), w), Comb(Half(c), Previous(w, taps), taps))
  {
    HalfIsLess(c);
    hide Low, Half, Previous;
  }

  lemma {:induction false} CombIsLinear(c: bv32, a: Bits, b: Bits, taps: Bits)
    requires |a| == |b| == |taps| >= 1
    ensures Comb(c, Xor(a, b), taps) == Xor(Comb(c, a, taps), Comb(c, b, taps))
    decreases c
  {
    if c != 0 {
      HalfIsLess(c);
      PreviousIsLinear(a, b, taps);
      hide Low, Half, Previous;
      CombIsLinear(Half(c), Previous(a, taps), Previous(b, taps), taps);
    }
  }

  lemma {:induction false} CombOfPrevious(c: bv32, w: Bits, taps: Bits)
    requires |w| == |taps| >= 1
    ensures Comb(c, Previous(w, taps), taps) == Previous(Comb(c, w, taps), taps)
    decreases c
  {
    PreviousOfZeros(taps);
    if c != 0 {
      HalfIsLess(c);
      hide Half, Low;
      var rest := Comb(Half(c), Previous(w, taps), taps);
      CombOfPrevious(Half(c), Previous(w, taps), taps);
      PreviousIsLinear(Masked(Low(c), w), rest, taps);
      hide Previous;
      assert Previous(Masked(Low(c), w), taps) == Masked(Low(c), Previous(w, taps));
    }
  }

  lemma PlusBits(c: bv32, d: bv32)
    ensures Low(Plus(c, d)) == (Low(c) != Low(d)) && Half(Plus(c, d)) == Plus(Half(c), Half(d))
    ensures c == 0 ==> Plus(c, d) == d
  {
  }

  lemma {:induction false} CombOfPlus(c: bv32, d: bv32, w: Bits, taps: Bits)
    requires |w| == |taps| >= 1
    ensures Comb(Plus(c, d), w, taps) == Xor(Comb(c, w, taps), Comb(d, w, taps))
    decreases c
  {
    hide Half, Low, Plus, Previous;
    PlusBits(c, d);
    if c == 0 {
      CombOfNothing(w, taps);
    } else {
      HalfIsLess(c);
      hide Comb;
      CombOfPlus(Half(c), Half(d), Previous(w, taps), taps);
      Peel(c, w, taps);
      Peel(d, w, taps);
      Peel(Plus(c, d), w, taps);
    }
  }

  lemma CombOfNothing(w: Bits, taps: Bits)
    requires |w| == |taps| >= 1
    ensures Comb(0, w, taps) == Zeros(|taps|)
  {
  }

  lemma DoubleBits(c: bv32)
    ensures !Low(Double(c)) && (TopClear(c) ==> Half(Double(c)) == c)
  {
  }

  /** Doubling multiplies by x. */
  lemma CombOfDouble(c: bv32, w: Bits, taps: Bits)
    requires |w| == |taps| >= 1 && TopClear(c)
    ensures Comb(Double(c), w, taps) == Comb(c, Previous(w, taps), taps)
  {
    DoubleBits(c);
    Peel(Double(c), w, taps);
    hide Comb, Double, Half, Low;
  }

  // Squares and multiples

  /** The square: every coefficient moves to twice its place, since cross terms cancel. */
  function Square(c: bv32): bv32 {
    var c1 := (c | (c << 8)) & 0x00FF_00FF;
    var c2 := (c1 | (c1 << 4)) & 0x0F0F_0F0F;
    var c3 := (c2 | (c2 << 2)) & 0x3333_3333;
    (c3 | (c3 << 1)) & 0x5555_5555
  }

  predicate IsShort(c: bv32) { c < 0x1_0000 }

  lemma ShortIsClear(c: bv32)
    requires IsShort(c)
    ensures TopClear(c)
  {
  }

  lemma SquareBits(c: bv32)
    requires IsShort(c)
    ensures IsShort(Half(c)) && Half(Half(Square(c))) == Square(Half(c))
    ensures Low(Square(c)) == Low(c) && !Low(Half(Square(c)))
    ensures Square(0) == 0
  {
  }

  lemma {:induction false} CombOfSquare(c: bv32, w: Bits, taps: Bits)
    requires |w| == |taps| >= 1 && IsShort(c)
    ensures Comb(Square(c), w, taps) == Comb(c, Comb(c, w, taps), taps)
    decreases c
  {
    hide Square, IsShort, Low, Half, Previous;
    SquareBits(c);
    if c != 0 {
      HalfIsLess(c);
      hide Comb;
      var w1 := Previous(w, taps);
      CombOfSquare(Half(c), Previous(w1, taps), taps);
      SquarePeeled(c, w, taps);
      var u, v := Comb(c, w, taps), Comb(Half(c), w1, taps);
      Peel(c, w, taps);
      Peel(c, u, taps);
      SquareStep(Low(c), Half(c), w, u, v, taps);
    }
  }

  lemma SquarePeeled(c: bv32, w: Bits, taps: Bits)
    requires |w| == |taps| >= 1 && IsShort(c)
    ensures Comb(Square(c), w, taps)
         == Xor(Masked(Low(c), w), Comb(Square(Half(c)), Previous(Previous(w, taps), taps), taps))
  {
    hide Square, IsShort, Low, Half, Previous, Comb;
    SquareBits(c);
    Peel(Square(c), w, taps);
    Peel(Half(Square(c)), Previous(w, taps), taps);
  }

  lemma SquareStep(b: bool, h: bv32, w: Bits, u: Bits, v: Bits, taps: Bits)
    requires |w| == |u| == |v| == |taps| >= 1
    requires v == Comb(h, Previous(w, taps), taps) && u == Xor(Masked(b, w), v)
    ensures Xor(Masked(b, u), Comb(h, Previous(u, taps), taps))
         == Xor(Masked(b, w), Comb(h, Comb(h, Previous(Previous(w, taps), taps), taps), taps))
  {
    var w1 := Previous(w, taps);
    var v1 := Previous(v, taps);
    CombOfPrevious(h, w1, taps);
    PreviousIsLinear(Masked(b, w), v, taps);
    PreviousOfZeros(taps);
    hide Previous;
    CombIsLinear(h, Masked(b, w1), v1, taps);
    CombOfZeros(h, taps);
    hide Comb;
    assert Comb(h, Masked(b, w1), taps) == Masked(b, v);
  }

  lemma CombOfZeros(c: bv32, taps: Bits)
    requires |taps| >= 1
    ensures Comb(c, Zeros(|taps|), taps) == Zeros(|taps|)
  {
    var z := Zeros(|taps|);
    assert Xor(z, z) == z;
    CombIsLinear(c, z, z, taps);
    hide Comb;
    assert forall i :: 0 <= i < |taps| ==> !Comb(c, z, taps)[i];
  }

  /** The polynomial sends every window to zero. */
  ghost predicate Annihilates(m: bv32, taps: Bits)
    requires |taps| >= 1
  {
    forall w: Bits :: |w| == |taps| ==> Comb(m, w, taps) == Zeros(|taps|)
  }

  lemma SumAnnihilates(c: bv32, d: bv32, taps: Bits)
    requires |taps| >= 1 && Annihilates(c, taps) && Annihilates(d, taps)
    ensures Annihilates(Plus(c, d), taps)
  {
    hide Plus, Comb;
    forall w: Bits | |w| == |taps| ensures Comb(Plus(c, d), w, taps) == Zeros(|taps|) {
      CombOfPlus(c, d, w, taps);
    }
  }

  lemma DoubleAnnihilates(m: bv32, taps: Bits)
    requires |taps| >= 1 && Annihilates(m, taps) && TopClear(m)
    ensures Annihilates(Double(m), taps)
  {
    hide Double, Comb, Previous, TopClear;
    forall w: Bits | |w| == |taps| ensures Comb(Double(m), w, taps) == Zeros(|taps|) {
      CombOfDouble(m, w, taps);
    }
  }

  function Term(b: bool, m: bv32): bv32 { if b then m else 0 }

  lemma TermAnnihilates(b: bool, m: bv32, taps: Bits)
    requires |taps| >= 1 && Annihilates(m, taps)
    ensures Annihilates(Term(b, m), taps)
  {
    hide Comb;
    forall w: Bits | |w| == |taps| ensures Comb(Term(b, m), w, taps) == Zeros(|taps|) {
      CombOfNothing(w, taps);
    }
  }

  function FourSum(a: bv32, b: bv32, c: bv32, d: bv32): bv32 { Plus(Plus(a, b), Plus(c, d)) }

  lemma FourSumAnnihilates(a: bv32, b: bv32, c: bv32, d: bv32, taps: Bits)
    requires |taps| >= 1 && Annihilates(a, taps) && Annihilates(b, taps) && Annihilates(c, taps) && Annihilates(d, taps)
    ensures Annihilates(FourSum(a, b, c, d), taps)
  {
    hide Annihilates, Plus;
    SumAnnihilates(a, b, taps);
    SumAnnihilates(c, d, taps);
    SumAnnihilates(Plus(a, b), Plus(c, d), taps);
  }

  function ShiftedBy4(c: bv32): bv32 { c << 4 }

  /** The lowest four coefficients of q, times m. */
  function Product4(q: bv32, m: bv32): bv32 {
    FourSum(Term(q & 1 != 0, m), Term(q & 2 != 0, m << 1), Term(q & 4 != 0, m << 2), Term(q & 8 != 0, m << 3))
  }

  /** The lowest sixteen coefficients of q, times m. */
  function Product(q: bv32, m: bv32): bv32 {
    FourSum(Product4(q, m), ShiftedBy4(Product4(q >> 4, m)), ShiftedBy4(ShiftedBy4(Product4(q >> 8, m))),
            ShiftedBy4(ShiftedBy4(ShiftedBy4(Product4(q >> 12, m)))))
  }

  predicate HasModulusSize(m: bv32) { m < 0x2_0000 }

  /** Room for four doublings. */
  predicate HasRoom(c: bv32) { c < 0x1000_0000 }

  lemma RoomOfModulus(m: bv32)
    requires HasModulusSize(m)
    ensures TopClear(m) && TopClear(Double(m)) && TopClear(Double(Double(m)))
    ensures m << 1 == Double(m) && m << 2 == Double(Double(m)) && m << 3 == Double(Double(Double(m)))
  {
  }

  predicate IsProduct4(c: bv32) { c < 0x10_0000 }

  lemma SizeOfProduct4(q: bv32, m: bv32)
    requires HasModulusSize(m)
    ensures IsProduct4(Product4(q, m))
  {
    var a, b, c, d := Term(q & 1 != 0, m), Term(q & 2 != 0, m << 1), Term(q & 4 != 0, m << 2), Term(q & 8 != 0, m << 3);
    SizeOfTerms(q & 1 != 0, m);
    SizeOfTerms(q & 2 != 0, m);
    SizeOfTerms(q & 4 != 0, m);
    SizeOfTerms(q & 8 != 0, m);
    hide Term, IsProduct4, Plus;
    SizeOfSum(a, b);
    SizeOfSum(c, d);
    SizeOfSum(Plus(a, b), Plus(c, d));
  }

  lemma SizeOfTerms(b: bool, m: bv32)
    requires HasModulusSize(m)
    ensures IsProduct4(Term(b, m)) && IsProduct4(Term(b, m << 1)) && IsProduct4(Term(b, m << 2)) && IsProduct4(Term(b, m << 3))
  {
  }

  lemma SizeOfSum(c: bv32, d: bv32)
    requires IsProduct4(c) && IsProduct4(d)
    ensures IsProduct4(Plus(c, d))
  {
  }

  lemma RoomOfProduct4(c: bv32)
    requires IsProduct4(c)
    ensures HasRoom(c) && HasRoom(ShiftedBy4(c)) && HasRoom(ShiftedBy4(ShiftedBy4(c)))
  {
  }

  lemma RoomForFour(c: bv32)
    requires HasRoom(c)
    ensures TopClear(c) && TopClear(Double(c)) && TopClear(Double(Double(c))) && TopClear(Double(Double(Double(c))))
    ensures ShiftedBy4(c) == Double(Double(Double(Double(c))))
  {
  }

  lemma ShiftedAnnihilates(c: bv32, taps: Bits)
    requires |taps| >= 1 && Annihilates(c, taps) && HasRoom(c)
    ensures Annihilates(ShiftedBy4(c), taps)
  {
    hide HasRoom, TopClear, Annihilates, Double, ShiftedBy4;
    RoomForFour(c);
    DoubleAnnihilates(c, taps);
    DoubleAnnihilates(Double(c), taps);
    DoubleAnnihilates(Double(Double(c)), taps);
    DoubleAnnihilates(Double(Double(Double(c))), taps);
  }

  lemma Product4Annihilates(q: bv32, m: bv32, taps: Bits)
    requires |taps| >= 1 && Annihilates(m, taps) && HasModulusSize(m)
    ensures Annihilates(Product4(q, m), taps) && IsProduct4(Product4(q, m))
  {
    hide HasModulusSize, TopClear, Annihilates, Double, Term, FourSum, IsProduct4;
    SizeOfProduct4(q, m);
    RoomOfModulus(m);
    var m1 := Double(m);
    var m2 := Double(m1);
    DoubleAnnihilates(m, taps);
    DoubleAnnihilates(m1, taps);
    DoubleAnnihilates(m2, taps);
    TermAnnihilates(q & 1 != 0, m, taps);
    TermAnnihilates(q & 2 != 0, m1, taps);
    TermAnnihilates(q & 4 != 0, m2, taps);
    TermAnnihilates(q & 8 != 0, Double(m2), taps);
    FourSumAnnihilates(Term(q & 1 != 0, m), Term(q & 2 != 0, m1), Term(q & 4 != 0, m2), Term(q & 8 != 0, Double(m2)), taps);
  }

  /** Multiples of an annihilating polynomial annihilate. */
  lemma ProductAnnihilates(q: bv32, m: bv32, taps: Bits)
    requires |taps| >= 1 && Annihilates(m, taps) && HasModulusSize(m)
    ensures Annihilates(Product(q, m), taps)
  {
    hide HasModulusSize, HasRoom, Annihilates, Product4, FourSum, ShiftedBy4, IsProduct4;
    Product4Annihilates(q, m, taps);
    var p1, p2, p3 := Product4(q >> 4, m), Product4(q >> 8, m), Product4(q >> 12, m);
    Product4Annihilates(q >> 4, m, taps);
    Product4Annihilates(q >> 8, m, taps);
    Product4Annihilates(q >> 12, m, taps);
    RoomOfProduct4(p1);
    RoomOfProduct4(p2);
    RoomOfProduct4(p3);
    ShiftedAnnihilates(p1, taps);
    ShiftedAnnihilates(p2, taps);
    ShiftedAnnihilates(ShiftedBy4(p2), taps);
    ShiftedAnnihilates(p3, taps);
    ShiftedAnnihilates(ShiftedBy4(p3), taps);
    ShiftedAnnihilates(ShiftedBy4(ShiftedBy4(p3)), taps);
    FourSumAnnihilates(Product4(q, m), ShiftedBy4(p1), ShiftedBy4(ShiftedBy4(p2)), ShiftedBy4(ShiftedBy4(ShiftedBy4(p3))), taps);
  }

  // Many steps at once

  function Rewound(w: Bits, taps: Bits, steps: nat): (r: Bits)
    requires |w| == |taps| >= 1
    ensures |r| == |w|
  {
    if steps == 0 then w else Previous(Rewound(w, taps, steps - 1), taps)
  }

  lemma {:induction false} RewoundCompose(w: Bits, taps: Bits, a: nat, b: nat)
    requires |w| == |taps| >= 1
    ensures Rewound(w, taps, a + b) == Rewound(Rewound(w, taps, a), taps, b)
  {
    hide Previous;
    if b > 0 {
      RewoundCompose(w, taps, a, b - 1);
    }
  }

  /** That many steps backwards are the polynomial `c`. */
  ghost predicate Steps(steps: nat, c: bv32, taps: Bits)
    requires |taps| >= 1
  {
    forall w: Bits :: |w| == |taps| ==> Rewound(w, taps, steps) == Comb(c, w, taps)
  }

  /** An annihilating polynomial of degree at most 16. */
  ghost predicate IsModulus(m: bv32, taps: Bits)
    requires |taps| >= 1
  {
    Annihilates(m, taps) && HasModulusSize(m)
  }

  /** The square of c is d, up to the multiple q of the modulus. */
  predicate SquareIs(m: bv32, c: bv32, d: bv32, q: bv32) {
    IsShort(c) && Square(c) == d ^ Product(q, m)
  }

  /** And x times c is d. */
  predicate ShiftIs(m: bv32, c: bv32, d: bv32, q: bv32) {
    IsShort(c) && c << 1 == d ^ Product(q, m)
  }

  lemma CertificateMeans(m: bv32, c: bv32, d: bv32, q: bv32)
    ensures SquareIs(m, c, d, q) ==> IsShort(c) && Square(c) == Plus(d, Product(q, m))
    ensures ShiftIs(m, c, d, q) ==> IsShort(c) && Double(c) == Plus(d, Product(q, m))
  {
    hide Product, Square;
  }

  lemma SameUpToMultiple(m: bv32, d: bv32, q: bv32, w: Bits, taps: Bits)
    requires |w| == |taps| >= 1 && IsModulus(m, taps)
    ensures Comb(Plus(d, Product(q, m)), w, taps) == Comb(d, w, taps)
  {
    hide Comb, Product, Plus, HasModulusSize;
    ProductAnnihilates(q, m, taps);
    CombOfPlus(d, Product(q, m), w, taps);
    assert Comb(Product(q, m), w, taps) == Zeros(|taps|);
  }

  /** Twice the steps are the square. */
  lemma Doubled(m: bv32, taps: Bits, steps: nat, c: bv32, d: bv32, q: bv32)
    requires |taps| >= 1 && IsModulus(m, taps) && Steps(steps, c, taps) && SquareIs(m, c, d, q)
    ensures Steps(2 * steps, d, taps)
  {
    hide *;
    CertificateMeans(m, c, d, q);
    forall w: Bits | |w| == |taps| ensures Rewound(w, taps, 2 * steps) == Comb(d, w, taps) {
      DoubledAt(m, taps, steps, c, d, q, w);
    }
    StepsForAll(2 * steps, d, taps);
  }

  lemma StepsForAll(steps: nat, c: bv32, taps: Bits)
    requires |taps| >= 1
    requires forall w: Bits :: |w| == |taps| ==> Rewound(w, taps, steps) == Comb(c, w, taps)
    ensures Steps(steps, c, taps)
  {
    hide Rewound, Comb;
  }

  lemma DoubledAt(m: bv32, taps: Bits, steps: nat, c: bv32, d: bv32, q: bv32, w: Bits)
    requires |taps| == |w| >= 1 && IsModulus(m, taps) && Steps(steps, c, taps)
    requires IsShort(c) && Square(c) == Plus(d, Product(q, m))
    ensures Rewound(w, taps, 2 * steps) == Comb(d, w, taps)
  {
    hide Rewound, Comb, Square, Product, Plus, IsShort, IsModulus;
    RewoundCompose(w, taps, steps, steps);
    CombOfSquare(c, w, taps);
    SameUpToMultiple(m, d, q, w, taps);
  }

  /** One step more is a multiplication by x. */
  lemma OneMore(m: bv32, taps: Bits, steps: nat, c: bv32, d: bv32, q: bv32)
    requires |taps| >= 1 && IsModulus(m, taps) && Steps(steps, c, taps) && ShiftIs(m, c, d, q)
    ensures Steps(steps + 1, d, taps)
  {
    hide Rewound, Comb, Double, Product, Plus, IsShort, TopClear, IsModulus, Previous, ShiftIs;
    CertificateMeans(m, c, d, q);
    ShortIsClear(c);
    forall w: Bits | |w| == |taps| ensures Rewound(w, taps, steps + 1) == Comb(d, w, taps) {
      RewoundCompose(w, taps, 1, steps);
      RewoundOnce(w, taps);
      CombOfDouble(c, w, taps);
      SameUpToMultiple(m, d, q, w, taps);
    }
  }

  lemma RewoundOnce(w: Bits, taps: Bits)
    requires |w| == |taps| >= 1
    ensures Rewound(w, taps, 1) == Previous(w, taps)
  {
    assert Rewound(w, taps, 0) == w;
  }

  lemma StartsWithX(taps: Bits)
    requires |taps| >= 1
    ensures Steps(1, 2, taps)
  {
    forall w: Bits | |w| == |taps| ensures Rewound(w, taps, 1) == Comb(2, w, taps) {
      RewoundOnce(w, taps);
      Peel(2, w, taps);
      Peel(1, Previous(w, taps), taps);
      CombOfNothing(Previous(Previous(w, taps), taps), taps);
      assert Half(2) == 1 && !Low(2) && Half(1) == 0 && Low(1);
      hide Comb, Previous, Rewound;
    }
  }
}
