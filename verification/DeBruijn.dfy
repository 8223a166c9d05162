/** The de Bruijn bit sequence, made by a linear feedback shift register. */
module DeBruijn {

  import opened BitStrings

  // Windows: the lowest `length` bits of the register, newest first

  /** The parity of the bits under the taps. */
  function Parity(w: Bits, taps: Bits): bool
    requires |w| == |taps|
  {
    if w == [] then false
    else Parity(w[..|w| - 1], taps[..|w| - 1]) != (w[|w| - 1] && taps[|w| - 1])
  }

  /** The newest bit is the parity; the oldest one drops out. */
  function Next(w: Bits, taps: Bits): (w': Bits)
    requires |w| == |taps| >= 1
    ensures |w'| == |w|
  {
    [Parity(w, taps)] + w[..|w| - 1]
  }

  /** The code length's own tap is set, so that the bit that drops out can be told from the new one. */
  predicate Feedback(taps: Bits) { |taps| >= 1 && taps[|taps| - 1] }

  function Previous(w: Bits, taps: Bits): (w': Bits)
    requires |w| == |taps| >= 1
    ensures |w'| == |w|
  {
    w[1..] + [w[0] != Parity(w[1..], taps[..|w| - 1])]
  }

  /** A step is a permutation of the windows: it has an inverse on both sides. */
  lemma StepIsAPermutation(w: Bits, taps: Bits)
    requires |w| == |taps| && Feedback(taps)
    ensures Previous(Next(w, taps), taps) == w
    ensures Next(Previous(w, taps), taps) == w
  {
    var n := |w| - 1;
    assert w[..n] + [w[n]] == w && [w[0]] + w[1..] == w;
    assert Next(w, taps)[1..] == w[..n];
    assert Previous(w, taps)[..n] == w[1..];
  }

  lemma {:induction false} ParityOfZeros(taps: Bits)
    ensures !Parity(Zeros(|taps|), taps)
  {
    if taps != [] {
      var n := |taps| - 1;
      assert Zeros(n + 1)[..n] == Zeros(n);
      ParityOfZeros(taps[..n]);
    }
  }

  /** The zero window is fixed, and no other window leads to it. */
  lemma ZeroIsAlone(w: Bits, taps: Bits)
    requires |w| == |taps| && Feedback(taps)
    ensures Next(w, taps) == Zeros(|w|) <==> w == Zeros(|w|)
  {
    var n := |w|;
    ParityOfZeros(taps);
    assert [false] + Zeros(n)[..n - 1] == Zeros(n);
    StepIsAPermutation(w, taps);
    StepIsAPermutation(Zeros(n), taps);
  }

  function Window(w: Bits, taps: Bits, steps: nat): (w': Bits)
    requires |w| == |taps| >= 1
    ensures |w'| == |w|
  {
    if steps == 0 then w else Next(Window(w, taps, steps - 1), taps)
  }

  lemma {:induction false} WindowsCompose(w: Bits, taps: Bits, a: nat, b: nat)
    requires |w| == |taps| >= 1
    ensures Window(w, taps, a + b) == Window(Window(w, taps, a), taps, b)
  {
    if b > 0 {
      WindowsCompose(w, taps, a, b - 1);
    }
  }

  lemma {:induction false} WindowNeverZero(w: Bits, taps: Bits, steps: nat)
    requires |w| == |taps| && Feedback(taps) && w != Zeros(|w|)
    ensures Window(w, taps, steps) != Zeros(|w|)
  {
    if steps > 0 {
      WindowNeverZero(w, taps, steps - 1);
      ZeroIsAlone(Window(w, taps, steps - 1), taps);
    }
  }

  /** Equal windows have equal pasts. */
  lemma {:induction false} Backwards(w: Bits, taps: Bits, i: nat, d: nat)
    requires |w| == |taps| && Feedback(taps)
    requires Window(w, taps, i) == Window(w, taps, i + d)
    ensures w == Window(w, taps, d)
  {
    hide Next, Previous;
    if i > 0 {
      StepIsAPermutation(Window(w, taps, i - 1), taps);
      StepIsAPermutation(Window(w, taps, i + d - 1), taps);
      Backwards(w, taps, i - 1, d);
    }
  }

  // Counting windows

  function Power(n: nat): (p: nat)
    ensures p >= 1
  {
    if n == 0 then 1 else 2 * Power(n - 1)
  }

  /** The window as a number; the zero window is the only one that is 0. */
  function Value(w: Bits): (v: nat)
    ensures v < Power(|w|)
    ensures v == 0 <==> w == Zeros(|w|)
  {
    if w == [] then 0
    else
      assert w == Zeros(|w|) <==> !w[0] && w[1..] == Zeros(|w| - 1) by {
        assert w == [w[0]] + w[1..];
        assert Zeros(|w|) == [false] + Zeros(|w| - 1);
      }
      (if w[0] then 1 else 0) + 2 * Value(w[1..])
  }

  lemma {:induction false} ValueIsInjective(a: Bits, b: Bits)
    requires |a| == |b| && Value(a) == Value(b)
    ensures a == b
  {
    if a != [] {
      ValueIsInjective(a[1..], b[1..]);
      assert a == [a[0]] + a[1..] && b == [b[0]] + b[1..];
    }
  }

  /** The windows other than zero, numbered from 0. */
  function Rank(w: Bits): nat { if Value(w) == 0 then 0 else Value(w) - 1 }

  /** The numbers of the windows after 0, 1, ..., count - 1 steps. */
  function Ranks(w: Bits, taps: Bits, count: nat): (vs: seq<nat>)
    requires |w| == |taps| >= 1
    ensures |vs| == count
  {
    seq(count, i requires 0 <= i < count => Rank(Window(w, taps, i)))
  }

  lemma RankAt(w: Bits, taps: Bits, count: nat, i: nat)
    requires |w| == |taps| >= 1 && i < count
    ensures Ranks(w, taps, count)[i] == Rank(Window(w, taps, i))
  {
  }

  lemma SameRank(a: Bits, b: Bits)
    requires |a| == |b| && a != Zeros(|a|) && b != Zeros(|b|)
    ensures Rank(a) < Power(|a|) - 1
    ensures Rank(a) == Rank(b) ==> a == b
  {
    if Rank(a) == Rank(b) {
      ValueIsInjective(a, b);
    }
  }

  /** More numbers than there are values to take: two of them are equal. */
  lemma {:induction false} Pigeonhole(vs: seq<nat>, bound: nat) returns (i: nat, j: nat)
    requires |vs| > bound && forall k :: 0 <= k < |vs| ==> vs[k] < bound
    ensures i < j < |vs| && vs[i] == vs[j]
    decreases bound
  {
    var n := |vs| - 1;
    if k :| 0 <= k < n && vs[k] == vs[n] {
      i, j := k, n;
    } else {
      // The last value is taken out of the range by moving the largest one into its place.
      var moved := seq(n, k requires 0 <= k < n => if vs[k] == bound - 1 then vs[n] else vs[k]);
      forall k | 0 <= k < n ensures moved[k] < bound - 1 {
        assert vs[k] != vs[n];
      }
      i, j := Pigeonhole(moved, bound - 1);
      assert vs[i] != vs[n] && vs[j] != vs[n];
    }
  }

  predicate IsPeriod(w: Bits, taps: Bits, p: nat)
    requires |w| == |taps| >= 1
  {
    p >= 1 && Window(w, taps, p) == w
  }

  lemma SomePeriod(w: Bits, taps: Bits) returns (p: nat)
    requires |w| == |taps| && Feedback(taps) && w != Zeros(|w|)
    ensures IsPeriod(w, taps, p) && p < Power(|w|)
  {
    hide Window, Power, Rank, Zeros;
    var count := Power(|w|);
    var vs := Ranks(w, taps, count);
    forall k | 0 <= k < count ensures vs[k] < count - 1 {
      WindowNeverZero(w, taps, k);
      SameRank(Window(w, taps, k), w);
    }
    hide Ranks;
    var i, j := Pigeonhole(vs, count - 1);
    assert vs[i] == Rank(Window(w, taps, i)) && vs[j] == Rank(Window(w, taps, j)) by { RankAt(w, taps, count, i); RankAt(w, taps, count, j); }
    WindowNeverZero(w, taps, i);
    WindowNeverZero(w, taps, j);
    SameRank(Window(w, taps, i), Window(w, taps, j));
    p := j - i;
    Backwards(w, taps, i, p);
  }

  /** The least period is the first return to the starting window. */
  lemma {:induction false} LeastPeriod(w: Bits, taps: Bits, p: nat) returns (least: nat)
    requires |w| == |taps| >= 1 && IsPeriod(w, taps, p)
    ensures IsPeriod(w, taps, least) && least <= p
    ensures forall q :: 1 <= q < least ==> !IsPeriod(w, taps, q)
  {
    if q :| 1 <= q < p && IsPeriod(w, taps, q) {
      least := LeastPeriod(w, taps, q);
    } else {
      least := p;
    }
  }

  /** From a window that is not zero the sequence of windows is purely periodic, with at most as
  many steps as there are windows other than zero, and no window repeats within a period. */
  lemma PurelyPeriodic(w: Bits, taps: Bits) returns (period: nat)
    requires |w| == |taps| && Feedback(taps) && w != Zeros(|w|)
    ensures 1 <= period <= Power(|w|) - 1
    ensures forall t: nat :: Window(w, taps, t + period) == Window(w, taps, t)
    ensures forall i, j :: 0 <= i < j < period ==> Window(w, taps, i) != Window(w, taps, j)
  {
    var p := SomePeriod(w, taps);
    period := LeastPeriod(w, taps, p);
    forall t: nat ensures Window(w, taps, t + period) == Window(w, taps, t) {
      WindowsCompose(w, taps, period, t);
    }
    forall i, j | 0 <= i < j < period ensures Window(w, taps, i) != Window(w, taps, j) {
      if Window(w, taps, i) == Window(w, taps, j) {
        var d := j - i;
        Backwards(w, taps, i, d);
        assert IsPeriod(w, taps, d);
      }
    }
  }

  // The 32-bit register

  const WIDTH := 32

  /** For the code lengths 3 to 16. */
  const POLYNOMIALS: seq<bv32> := [
    0x5, 0x9, 0x1B, 0x33, 0x53, 0x8D, 0x121, 0x221, 0x461, 0xD43, 0x1265, 0x2B03, 0x5009, 0xA145
  ]

  function Low(c: bv32): bool { c & 1 == 1 }

  function Half(c: bv32): bv32 { c >> 1 }

  /** The lowest n bits of a word, lowest first. */
  function BitsOf(c: bv32, n: nat): (r: Bits)
    ensures |r| == n
  {
    if n == 0 then [] else [Low(c)] + BitsOf(Half(c), n - 1)
  }

  lemma {:induction false} FewerBits(c: bv32, n: nat, m: nat)
    requires n <= m
    ensures BitsOf(c, m)[..n] == BitsOf(c, n)
    decreases n
  {
    hide Low, Half;
    if n > 0 {
      FewerBits(Half(c), n - 1, m - 1);
    }
  }

  /** A machine word as its bits, lowest first. */
  type Word = r: Bits | |r| == WIDTH witness Zeros(WIDTH)

  function And(a: Word, b: Word): Word { seq(WIDTH, i requires 0 <= i < WIDTH => a[i] && b[i]) }

  /** Shifts one place to the right; a zero comes in at the top. */
  function HalfWord(a: Word): Word { a[1..] + [false] }

  /** Shifts one place to the left and puts a bit in at the bottom; the top bit is lost. */
  function Shifted(r: Word, newBit: bool): Word { [newBit] + r[..WIDTH - 1] }

  /** The register after some steps: the window's bits are pushed into all 32 bits. */
  function Register(r: Word, taps: Bits, steps: nat): Word
    requires 1 <= |taps| <= WIDTH
  {
    if steps == 0 then r
    else
      var before := Register(r, taps, steps - 1);
      Shifted(before, Parity(before[..|taps|], taps))
  }

  lemma RegisterStep(r: Word, taps: Bits, steps: nat)
    requires 1 <= |taps| <= WIDTH
    ensures Register(r, taps, 0) == r
    ensures var before := Register(r, taps, steps);
            Register(r, taps, steps + 1) == Shifted(before, Parity(before[..|taps|], taps))
  {
  }

  /** The lowest bits of the register are the window. */
  lemma {:induction false} WindowOfRegister(r: Word, taps: Bits, steps: nat)
    requires 1 <= |taps| <= WIDTH
    ensures Register(r, taps, steps)[..|taps|] == Window(r[..|taps|], taps, steps)
  {
    if steps > 0 {
      WindowOfRegister(r, taps, steps - 1);
    }
  }

  /** Steps taken in two calls are the steps taken in one. */
  lemma {:induction false} RegistersCompose(r: Word, taps: Bits, a: nat, b: nat)
    requires 1 <= |taps| <= WIDTH
    ensures Register(r, taps, a + b) == Register(Register(r, taps, a), taps, b)
  {
    if b > 0 {
      RegistersCompose(r, taps, a, b - 1);
    }
  }

  function CodeLength(n: nat): (length: nat)
    ensures 3 <= length <= 16
  {
    if n < 3 || n > 16 then 3 else n
  }

  function Taps(length: nat): (taps: Bits)
    requires 3 <= length <= 16
    ensures |taps| == length
  {
    BitsOf(POLYNOMIALS[length - 3], length)
  }

  /** Two to the power n. */
  function Limit(n: nat): bv32
    requires n <= 16
  {
    match n
    case 0 => 0x1 case 1 => 0x2 case 2 => 0x4 case 3 => 0x8
    case 4 => 0x10 case 5 => 0x20 case 6 => 0x40 case 7 => 0x80
    case 8 => 0x100 case 9 => 0x200 case 10 => 0x400 case 11 => 0x800
    case 12 => 0x1000 case 13 => 0x2000 case 14 => 0x4000 case 15 => 0x8000
    case _ => 0x1_0000
  }

  predicate Below(c: bv32, n: nat)
    requires n <= 16
  {
    c < Limit(n)
  }

  lemma HalfBelow(c: bv32, n: nat)
    requires 1 <= n <= 16
    ensures Below(c, n) <==> Below(Half(c), n - 1)
  {
  }

  lemma OnlyOne(c: bv32)
    ensures Below(c, 0) ==> c == 0
    ensures Below(c, 1) && !Below(c, 0) ==> c == 1 && Low(c)
  {
  }

  /** A word that needs all of its n bits has the highest of them. */
  lemma {:induction false} HighestBit(c: bv32, n: nat)
    requires 1 <= n <= 16 && Below(c, n) && !Below(c, n - 1)
    ensures BitsOf(c, n)[n - 1]
    decreases n
  {
    hide Below, Low, Half;
    if n == 1 {
      OnlyOne(c);
    } else {
      HalfBelow(c, n);
      HalfBelow(c, n - 1);
      HighestBit(Half(c), n - 1);
    }
  }

  /** Every polynomial of the table needs exactly as many bits as its code length. */
  lemma PolynomialSize(length: nat)
    requires 3 <= length <= 16
    ensures Below(POLYNOMIALS[length - 3], length) && !Below(POLYNOMIALS[length - 3], length - 1)
  {
  }

  /** So it has the tap of the oldest bit. */
  lemma EveryPolynomialFeedsBack(length: nat)
    requires 3 <= length <= 16
    ensures Feedback(Taps(length))
  {
    hide Below, BitsOf;
    PolynomialSize(length);
    HighestBit(POLYNOMIALS[length - 3], length);
  }

  /** The masked word, shifted right k times. */
  ghost predicate MaskedFrom(masked: Word, r: Word, p: Word, k: nat) {
    forall i :: k <= i < WIDTH ==> masked[i - k] == (r[i] && p[i])
  }

  lemma MaskedHalf(masked: Word, r: Word, p: Word, k: nat)
    requires k < WIDTH && MaskedFrom(masked, r, p, k)
    ensures masked[0] == (r[k] && p[k]) && MaskedFrom(HalfWord(masked), r, p, k + 1)
  {
  }

  lemma ParityOneMore(r: Word, p: Word, k: nat)
    requires k < WIDTH
    ensures Parity(r[..k + 1], p[..k + 1]) == (Parity(r[..k], p[..k]) != (r[k] && p[k]))
  {
    assert r[..k + 1][..k] == r[..k] && p[..k + 1][..k] == p[..k];
  }

  const SEED: Word := [true] + Zeros(WIDTH - 1)

  class Sequence {
    var length: nat
    var poly: Word
    var shiftRegister: Word

    ghost predicate Valid()
      reads this
    {
      3 <= length <= 16 && poly == BitsOf(POLYNOMIALS[length - 3], WIDTH)
    }

    constructor ()
      ensures length == 0 && poly == shiftRegister == Zeros(WIDTH)
    {
      length, poly, shiftRegister := 0, Zeros(WIDTH), Zeros(WIDTH);
    }

    /** `total` is the length of a bit stream in which every code would appear just once. */
    method Init(n: nat) returns (total: nat)
      modifies this
      ensures Valid() && length == CodeLength(n) && shiftRegister == SEED
      ensures 3 <= n <= 16 ==> length == n
      ensures total == Power(length) + (length - 1)
    {
      hide Power, BitsOf;
      if n < 3 || n > 16 {
        length := 3;
      } else {
        length := n;
      }
      poly := BitsOf(POLYNOMIALS[length - 3], WIDTH);
      shiftRegister := SEED;
      total := Power(length) + (length - 1);
    }

    /** The parity of the register's bits under the polynomial. */
    method NewBit() returns (newBit: bool)
      requires Valid()
      ensures newBit == Parity(shiftRegister[..length], Taps(length))
    {
      var masked := And(shiftRegister, poly);
      newBit := false;
      var bits := 0;
      FewerBits(POLYNOMIALS[length - 3], length, WIDTH);
      hide BitsOf, Taps, Low, Half;
      while bits < length
        invariant bits <= length
        invariant MaskedFrom(masked, shiftRegister, poly, bits)
        invariant newBit == Parity(shiftRegister[..bits], poly[..bits])
      {
        ParityOneMore(shiftRegister, poly, bits);
        MaskedHalf(masked, shiftRegister, poly, bits);
        hide MaskedFrom, Parity, HalfWord;
        newBit := newBit != masked[0];
        masked := HalfWord(masked);
        bits := bits + 1;
      }
    }

    method Compute(steps: nat) returns (register: Word)
      requires Valid()
      modifies this`shiftRegister
      ensures shiftRegister == Register(old(shiftRegister), Taps(length), steps)
      ensures register == shiftRegister
    {
      hide Register, Shifted, Parity, Taps, BitsOf;
      ghost var r, taps := shiftRegister, Taps(length);
      RegisterStep(r, taps, 0);
      for step := 0 to steps
        invariant Valid() && shiftRegister == Register(r, taps, step)
      {
        RegisterStep(r, taps, step);
        var newBit := NewBit();
        shiftRegister := Shifted(shiftRegister, newBit);
      }
      register := shiftRegister;
    }
  }

  /** From the seed 1, for every code length: the window is never zero, the windows are purely
  periodic, and none repeats within a period. */
  lemma SequenceFromSeed(length: nat) returns (period: nat)
    requires 3 <= length <= 16
    ensures 1 <= period <= Power(length) - 1
    ensures var seed, taps := SEED[..length], Taps(length);
            && (forall t: nat :: Window(seed, taps, t) != Zeros(length))
            && (forall t: nat :: Window(seed, taps, t + period) == Window(seed, taps, t))
            && (forall i, j :: 0 <= i < j < period ==> Window(seed, taps, i) != Window(seed, taps, j))
  {
    var seed, taps := SEED[..length], Taps(length);
    assert seed[0] && !Zeros(length)[0];
    EveryPolynomialFeedsBack(length);
    hide Taps;
    period := PurelyPeriodic(seed, taps);
    forall t: nat ensures Window(seed, taps, t) != Zeros(length) {
      WindowNeverZero(seed, taps, t);
    }
  }
}
