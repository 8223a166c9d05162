/** Polynomials over the two-element field as bit strings, highest power first, and division by
the 24-bit polynomial of the Bluetooth specification, Vol 6 Part B section 3.1.1:
x^24 + x^10 + x^9 + x^6 + x^4 + x^3 + x + 1. */
module Gf2 {

  import opened BitStrings

  type Poly = Bits

  const DEGREE: nat := 24

  /** The polynomial without its leading coefficient: x^24 is followed by eight zeros, by
      x^10 + x^9, and by x^6 + x^4 + x^3 + x + 1. */
  const G_MIDDLE: Poly := [false, false, false, false, false, true, true, false]
  const G_LOW: Poly := [false, true, false, true, true, false, true, true]
  const G: Poly := Zeros(8) + G_MIDDLE + G_LOW

  /** The coefficients behind the leading one. */
  predicate Lower(i: nat): (b: bool)
    ensures b ==> i < DEGREE
  {
    i < DEGREE && G[i]
  }

  /** One step of long division: if the leading coefficient is one, subtract the divisor. */
  function Reduced(p: Poly): (r: Poly)
    requires |p| > DEGREE
    ensures |r| == |p| - 1
  {
    if p[0] then Xor(p[1..DEGREE + 1], G) + p[DEGREE + 1..] else p[1..]
  }

  function Remainder(p: Poly): (r: Poly)
    requires |p| >= DEGREE
    ensures |r| == DEGREE
    decreases |p|
  {
    if |p| == DEGREE then p else Remainder(Reduced(p))
  }

  function Quotient(p: Poly): (q: Poly)
    requires |p| >= DEGREE
    ensures |q| == |p| - DEGREE
    decreases |p|
  {
    if |p| == DEGREE then [] else [p[0]] + Quotient(Reduced(p))
  }

  /** The divisor, if there is one to add, times the n-th power. */
  function Leading(b: bool, n: nat): (r: Poly)
    ensures |r| == n + DEGREE + 1
  {
    (if b then [true] + G else Zeros(DEGREE + 1)) + Zeros(n)
  }

  /** `q` times the divisor. */
  function Product(q: Poly): (r: Poly)
    ensures |r| == |q| + DEGREE
  {
    if q == [] then Zeros(DEGREE)
    else Xor(Leading(q[0], |q| - 1), [false] + Product(q[1..]))
  }

  function Combined(q: Poly, r: Poly): (p: Poly)
    requires |r| == DEGREE
    ensures |p| == |q| + DEGREE
  {
    Xor(Product(q), Zeros(|q|) + r)
  }

  lemma ReducedAt(p: Poly, i: nat)
    requires |p| > DEGREE && i < |p| - 1
    ensures Reduced(p)[i] == (p[i + 1] != (p[0] && Lower(i)))
  {
    if i < DEGREE {
      assert p[1..DEGREE + 1][i] == p[i + 1];
    }
  }

  lemma LeadingAt(b: bool, n: nat, i: nat)
    requires i < n + DEGREE + 1
    ensures Leading(b, n)[i] == (b && (i == 0 || Lower(i - 1)))
  {
  }

  lemma ProductAt(q: Poly, i: nat)
    requires q != [] && i < |q| + DEGREE
    ensures Product(q)[i] == if i == 0 then q[0] else Product(q[1..])[i - 1] != (q[0] && Lower(i - 1))
  {
    hide Product, Leading, Xor, Lower;
    ProductUnfolds(q);
    LeadingAt(q[0], |q| - 1, i);
    PaddedAt([false], Product(q[1..]), i);
  }

  lemma ProductUnfolds(q: Poly)
    requires q != []
    ensures Product(q) == Xor(Leading(q[0], |q| - 1), [false] + Product(q[1..]))
  {
  }

  lemma PaddedAt(a: Poly, r: Poly, i: nat)
    requires i < |a| + |r|
    ensures (a + r)[i] == if i < |a| then a[i] else r[i - |a|]
  {
  }

  lemma CombinedAt(q: Poly, r: Poly, i: nat)
    requires |r| == DEGREE && i < |q| + DEGREE
    ensures Combined(q, r)[i] == (Product(q)[i] != (i >= |q| && r[i - |q|]))
  {
    PaddedAt(Zeros(|q|), r, i);
    var padded := Zeros(|q|) + r;
    assert Combined(q, r) == Xor(Product(q), padded);
    hide Product, Xor, Combined;
  }

  lemma CombinedStep(q: Poly, r: Poly)
    requires q != [] && |r| == DEGREE
    ensures Combined(q, r)[0] == q[0]
    ensures Reduced(Combined(q, r)) == Combined(q[1..], r)
  {
    hide Combined, Product, Reduced, Lower;
    var p, rest := Combined(q, r), Combined(q[1..], r);
    CombinedAt(q, r, 0);
    ProductAt(q, 0);
    forall i | 0 <= i < |rest| ensures Reduced(p)[i] == rest[i] {
      ReducedAt(p, i);
      CombinedAt(q, r, i + 1);
      ProductAt(q, i + 1);
      CombinedAt(q[1..], r, i);
    }
  }

  /** Long division is division with remainder... */
  lemma {:induction false} DivisionIdentity(p: Poly)
    requires |p| >= DEGREE
    ensures Combined(Quotient(p), Remainder(p)) == p
    decreases |p|
  {
    hide Product, Combined;
    if |p| == DEGREE {
      CombinedNothing(p);
    } else {
      DivisionIdentity(Reduced(p));
      var q := Quotient(p);
      assert q[1..] == Quotient(Reduced(p));
      CombinedStep(q, Remainder(p));
      ReducedIsInjective(Combined(q, Remainder(p)), p);
    }
  }

  lemma CombinedNothing(r: Poly)
    requires |r| == DEGREE
    ensures Combined([], r) == r
  {
  }

  lemma ReducedIsInjective(p: Poly, q: Poly)
    requires |p| == |q| > DEGREE && p[0] == q[0] && Reduced(p) == Reduced(q)
    ensures p == q
  {
    forall i | 1 <= i < |p| ensures p[i] == q[i] {
      assert Reduced(p)[i - 1] == Reduced(q)[i - 1];
      if i <= DEGREE {
        assert p[1..DEGREE + 1][i - 1] == p[i] && q[1..DEGREE + 1][i - 1] == q[i];
      }
    }
  }

  /** ... and it is the only one: the remainder is determined by the polynomial. */
  lemma {:induction false} RemainderIsUnique(q: Poly, r: Poly)
    requires |r| == DEGREE
    ensures Quotient(Combined(q, r)) == q && Remainder(Combined(q, r)) == r
    decreases |q|
  {
    hide Product, Combined;
    if q == [] {
      CombinedNothing(r);
    } else {
      CombinedStep(q, r);
      RemainderIsUnique(q[1..], r);
    }
  }

  // The shift register

  /** One message bit through a 24-bit register. */
  function DivisionStep(s: Poly, bit: bool): (r: Poly)
    requires |s| == DEGREE
    ensures |r| == DEGREE
  {
    var shifted := s[1..] + [false];
    if s[0] != bit then Xor(shifted, G) else shifted
  }

  function RegisterAfter(s: Poly, bits: Poly): (r: Poly)
    requires |s| == DEGREE
    ensures |r| == DEGREE
    decreases |bits|
  {
    if bits == [] then s else RegisterAfter(DivisionStep(s, bits[0]), bits[1..])
  }

  lemma RegisterAfterNothing(s: Poly)
    requires |s| == DEGREE
    ensures RegisterAfter(s, []) == s
  {
  }

  lemma {:induction false} RegisterAfterOneMore(s: Poly, bits: Poly, bit: bool)
    requires |s| == DEGREE
    ensures RegisterAfter(s, bits + [bit]) == DivisionStep(RegisterAfter(s, bits), bit)
    decreases |bits|
  {
    hide DivisionStep;
    if bits == [] {
      assert [] + [bit] == [bit];
      RegisterAfterNothing(DivisionStep(s, bit));
    } else {
      assert (bits + [bit])[1..] == bits[1..] + [bit];
      RegisterAfterOneMore(DivisionStep(s, bits[0]), bits[1..], bit);
    }
  }

  /** init * x^n + d(x) * x^24 for a message d of n bits. */
  function Message(init: Poly, bits: Poly): (p: Poly)
    requires |init| == DEGREE
    ensures |p| == |bits| + DEGREE
  {
    Xor(init + Zeros(|bits|), bits + Zeros(DEGREE))
  }

  lemma MessageAt(init: Poly, bits: Poly, i: nat)
    requires |init| == DEGREE && i < |bits| + DEGREE
    ensures Message(init, bits)[i] == ((i < DEGREE && init[i]) != (i < |bits| && bits[i]))
  {
  }

  lemma DivisionStepAt(s: Poly, bit: bool, i: nat)
    requires |s| == DEGREE && i < DEGREE
    ensures DivisionStep(s, bit)[i] == ((i + 1 < DEGREE && s[i + 1]) != (s[0] != bit && Lower(i)))
  {
  }

  lemma MessageStep(init: Poly, bits: Poly)
    requires |init| == DEGREE && bits != []
    ensures Reduced(Message(init, bits)) == Message(DivisionStep(init, bits[0]), bits[1..])
  {
    hide Message, Reduced, DivisionStep, Lower;
    var m, s := Message(init, bits), DivisionStep(init, bits[0]);
    var rest := Message(s, bits[1..]);
    MessageAt(init, bits, 0);
    forall i | 0 <= i < |rest| ensures Reduced(m)[i] == rest[i] {
      ReducedAt(m, i);
      MessageAt(init, bits, i + 1);
      MessageAt(s, bits[1..], i);
      if i < DEGREE { DivisionStepAt(init, bits[0], i); }
    }
  }

  /** The register holds the remainder of the message polynomial, for every message length. */
  lemma {:induction false} RegisterHoldsRemainder(init: Poly, bits: Poly)
    requires |init| == DEGREE
    ensures RegisterAfter(init, bits) == Remainder(Message(init, bits))
    decreases |bits|
  {
    hide DivisionStep, Reduced, Message;
    if bits == [] {
      MessageOfNothing(init);
    } else {
      MessageStep(init, bits);
      RegisterHoldsRemainder(DivisionStep(init, bits[0]), bits[1..]);
    }
  }

  lemma MessageOfNothing(init: Poly)
    requires |init| == DEGREE
    ensures Message(init, []) == init
  {
  }
}
