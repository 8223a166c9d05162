/** Which codes the sequence shows: all but zero for six of the code lengths, and not all for the
other eight. */
module DeBruijnCoverage {

  import opened BitStrings
  import opened DeBruijn
  import opened DeBruijnAlgebra
  import opened DeBruijnModulus
  import opened DeBruijnPowers
  import Decimation
  import Simd

  // Forwards and backwards

  lemma {:induction false} WindowOfRewound(w: Bits, taps: Bits, t: nat)
    requires |w| == |taps| && Feedback(taps)
    ensures Window(Rewound(w, taps, t), taps, t) == w
  {
    hide Next, Previous;
    if t > 0 {
      var before := Rewound(w, taps, t - 1);
      WindowOfRewound(w, taps, t - 1);
      StepIsAPermutation(before, taps);
      WindowsCompose(Previous(before, taps), taps, 1, t - 1);
      WindowOnce(Previous(before, taps), taps);
    }
  }

  lemma WindowOnce(w: Bits, taps: Bits)
    requires |w| == |taps| >= 1
    ensures Window(w, taps, 1) == Next(w, taps)
  {
    assert Window(w, taps, 0) == w;
  }

  lemma {:induction false} RewoundOfWindow(w: Bits, taps: Bits, t: nat)
    requires |w| == |taps| && Feedback(taps)
    ensures Rewound(Window(w, taps, t), taps, t) == w
  {
    hide Next, Previous;
    if t > 0 {
      var before := Window(w, taps, t - 1);
      RewoundOfWindow(w, taps, t - 1);
      StepIsAPermutation(before, taps);
      RewoundCompose(Next(before, taps), taps, 1, t - 1);
      RewoundOnce(Next(before, taps), taps);
    }
  }

  lemma CombOfOne(w: Bits, taps: Bits)
    requires |w| == |taps| >= 1
    ensures Comb(1, w, taps) == w
  {
    Peel(1, w, taps);
    CombOfNothing(Previous(w, taps), taps);
    assert Low(1) && Half(1) == 0;
    hide Comb, Previous;
  }

  /** If so many steps are the identity, they are a period. */
  lemma PeriodOfIdentity(taps: Bits, p: nat, w: Bits)
    requires |w| == |taps| && Feedback(taps) && p >= 1 && Steps(p, 1, taps)
    ensures IsPeriod(w, taps, p)
  {
    hide Comb, Rewound, Window;
    assert Rewound(w, taps, p) == Comb(1, w, taps);
    CombOfOne(w, taps);
    WindowOfRewound(w, taps, p);
  }

  /** If one step more than that is one step, likewise. */
  lemma PeriodOfX(taps: Bits, p: nat, w: Bits)
    requires |w| == |taps| && Feedback(taps) && p >= 1 && Steps(p + 1, 2, taps)
    ensures IsPeriod(w, taps, p)
  {
    hide Comb, Rewound, Window;
    SameSteps(p + 1, 2, taps, w);
    StartsWithX(taps);
    SameSteps(1, 2, taps, w);
    hide Steps;
    WindowOfRewound(w, taps, p + 1);
    WindowOfRewound(w, taps, 1);
    WindowsCompose(Rewound(w, taps, 1), taps, 1, p);
  }

  lemma SameSteps(t: nat, c: bv32, taps: Bits, w: Bits)
    requires |w| == |taps| >= 1 && Steps(t, c, taps)
    ensures Rewound(w, taps, t) == Comb(c, w, taps)
  {
    hide Rewound, Comb;
  }

  // Periods

  lemma {:induction false} WithinPeriod(w: Bits, taps: Bits, p: nat, t: nat)
    requires |w| == |taps| >= 1 && IsPeriod(w, taps, p)
    ensures Window(w, taps, t) == Window(w, taps, t % p)
  {
    if t < p {
      Decimation.SmallMultiple(t, p);
    } else {
      Decimation.DropGroup(t, p);
      WithinPeriod(w, taps, p, t - p);
      WindowsCompose(w, taps, p, t - p);
    }
  }

  lemma LeastPeriodDivides(w: Bits, taps: Bits, least: nat, p: nat)
    requires |w| == |taps| >= 1 && IsPeriod(w, taps, least) && IsPeriod(w, taps, p)
    requires forall q :: 1 <= q < least ==> !IsPeriod(w, taps, q)
    ensures p % least == 0
  {
    WithinPeriod(w, taps, least, p);
    hide Window;
    var r := p % least;
    assert 0 <= r < least;
    assert r >= 1 ==> IsPeriod(w, taps, r);
  }

  lemma {:induction false} MultipleIsPeriod(w: Bits, taps: Bits, p: nat, k: nat)
    requires |w| == |taps| >= 1 && IsPeriod(w, taps, p) && k >= 1 && k % p == 0
    ensures IsPeriod(w, taps, k)
  {
    WithinPeriod(w, taps, p, k);
    hide Window;
    assert Window(w, taps, 0) == w by { WindowOfNoStep(w, taps); }
  }

  lemma WindowOfNoStep(w: Bits, taps: Bits)
    requires |w| == |taps| >= 1
    ensures Window(w, taps, 0) == w
  {
  }

  // Counting codes

  /** Every number below the bound occurs: there are at least that many places. */
  lemma {:induction false} EnoughPlaces(vs: seq<nat>, bound: nat)
    requires forall v: nat :: v < bound ==> v in vs
    ensures |vs| >= bound
    decreases bound
  {
    if bound > 0 {
      assert bound - 1 in vs;
      var i :| 0 <= i < |vs| && vs[i] == bound - 1;
      var rest := vs[..i] + vs[i + 1..];
      forall v: nat | v < bound - 1 ensures v in rest {
        assert v in vs;
        var j :| 0 <= j < |vs| && vs[j] == v;
        assert rest[if j < i then j else j - 1] == v;
      }
      EnoughPlaces(rest, bound - 1);
    }
  }

  function CodeOf(v: nat, n: nat): (code: Bits)
    ensures |code| == n
  {
    if n == 0 then [] else [v % 2 == 1] + CodeOf(v / 2, n - 1)
  }

  lemma {:induction false} ValueOfCode(v: nat, n: nat)
    requires v < Power(n)
    ensures Value(CodeOf(v, n)) == v
  {
    if n > 0 {
      ValueOfCode(v / 2, n - 1);
      assert CodeOf(v, n)[1..] == CodeOf(v / 2, n - 1);
    }
  }

  // What it means that a code is shown

  function Seed(length: nat): (w: Bits)
    requires 3 <= length <= 16
    ensures |w| == length
  {
    SEED[..length]
  }

  ghost predicate Appears(length: nat, code: Bits)
    requires 3 <= length <= 16
  {
    exists steps: nat :: steps < Power(length) - 1 && Window(Seed(length), Taps(length), steps) == code
  }

  /** Every code but zero is shown within as many steps as there are such codes. */
  ghost predicate EveryCodeAppears(length: nat)
    requires 3 <= length <= 16
  {
    forall code: Bits :: |code| == length && code != Zeros(length) ==> Appears(length, code)
  }

  /** A shorter period leaves a code out, for ever. */
  lemma ShortPeriodLeavesCodeOut(w: Bits, taps: Bits, p: nat) returns (code: Bits)
    requires |w| == |taps| && Feedback(taps) && w != Zeros(|w|)
    requires IsPeriod(w, taps, p) && p < Power(|w|) - 1
    ensures |code| == |w| && code != Zeros(|w|)
    ensures forall t: nat :: Window(w, taps, t) != code
  {
    hide Window, Power, Value, Rank, Zeros;
    var n := |w|;
    var vs := Ranks(w, taps, p);
    if forall v: nat :: v < Power(n) - 1 ==> v in vs {
      EnoughPlaces(vs, Power(n) - 1);
      assert false;
    }
    var v: nat :| v < Power(n) - 1 && v !in vs;
    code := CodeOf(v + 1, n);
    ValueOfCode(v + 1, n);
    assert Rank(code) == v by { RankOfValue(code); }
    forall t: nat ensures Window(w, taps, t) != code {
      WithinPeriod(w, taps, p, t);
      RankAt(w, taps, p, t % p);
      assert vs[t % p] in vs;
    }
  }

  lemma RankOfValue(code: Bits)
    ensures Value(code) > 0 ==> Rank(code) == Value(code) - 1 && code != Zeros(|code|)
  {
  }

  lemma NoWindowTwice(w: Bits, taps: Bits, count: nat, i: nat, j: nat)
    requires |w| == |taps| && Feedback(taps) && i < j < count
    requires forall q :: 1 <= q < count ==> !IsPeriod(w, taps, q)
    ensures Window(w, taps, i) != Window(w, taps, j)
  {
    hide Window;
    assert !IsPeriod(w, taps, j - i);
    if Window(w, taps, i) == Window(w, taps, j) {
      Backwards(w, taps, i, j - i);
    }
  }

  /** Without a shorter period every code but zero is shown. */
  lemma FullPeriodShowsCode(w: Bits, taps: Bits, code: Bits) returns (steps: nat)
    requires |code| == |w| == |taps| && Feedback(taps) && w != Zeros(|w|) && code != Zeros(|w|)
    requires forall q :: 1 <= q < Power(|w|) - 1 ==> !IsPeriod(w, taps, q)
    ensures steps < Power(|w|) - 1 && Window(w, taps, steps) == code
  {
    hide Window, Power, Rank, Zeros;
    var count := Power(|w|) - 1;
    var vs := Ranks(w, taps, count) + [Rank(code)];
    forall k | 0 <= k < |vs| ensures vs[k] < count {
      if k < count {
        WindowNeverZero(w, taps, k);
        RankAt(w, taps, count, k);
        SameRank(Window(w, taps, k), w);
      } else {
        SameRank(code, w);
      }
    }
    var i, j := Pigeonhole(vs, count);
    RankAt(w, taps, count, i);
    WindowNeverZero(w, taps, i);
    if j < count {
      RankAt(w, taps, count, j);
      WindowNeverZero(w, taps, j);
      NoWindowTwice(w, taps, count, i, j);
      SameRank(Window(w, taps, i), Window(w, taps, j));
      assert false;
    }
    SameRank(Window(w, taps, i), code);
    steps := i;
  }

  // The least period of the seed

  lemma SeedFacts(length: nat)
    requires 3 <= length <= 16
    ensures Feedback(Taps(length)) && Seed(length) != Zeros(length) && !IsPeriod(Seed(length), Taps(length), 1)
  {
    var w, taps := Seed(length), Taps(length);
    EveryPolynomialFeedsBack(length);
    WindowOnce(w, taps);
    assert w[0] && !w[1] && Next(w, taps)[1] == w[0];
  }

  /** Every number from 2 to k that divides n divides a or b. */
  predicate DivisorsDivide(n: nat, a: nat, b: nat, k: nat)
    decreases k
  {
    k < 2 || ((n % k == 0 ==> a % k == 0 || b % k == 0) && DivisorsDivide(n, a, b, k - 1))
  }

  lemma {:induction false} DivisorAmong(n: nat, a: nat, b: nat, k: nat, d: nat)
    requires DivisorsDivide(n, a, b, k) && 2 <= d <= k && n % d == 0
    ensures a % d == 0 || b % d == 0
  {
    if d < k {
      DivisorAmong(n, a, b, k - 1, d);
    }
  }

  /** A number without small divisors is prime. */
  lemma PrimeWithoutSmallDivisors(n: nat, k: nat, d: nat)
    requires DivisorsDivide(n, 1, 1, k) && n < (k + 1) * (k + 1) && n >= 2
    requires 1 <= d <= n && n % d == 0
    ensures d == 1 || d == n
  {
    var e := n / d;
    assert n == d * e;
    PrimeCofactor(n, k, d, e);
  }

  lemma PrimeCofactor(n: nat, k: nat, d: nat, e: nat)
    requires DivisorsDivide(n, 1, 1, k) && n < (k + 1) * (k + 1)
    requires n == d * e && d >= 1 && n % d == 0 && n >= 1
    ensures d == 1 || d == n
  {
    hide DivisorsDivide;
    if 2 <= d <= k {
      DivisorAmong(n, 1, 1, k, d);
    } else if d > k {
      SmallCofactor(n, k, d, e);
      if e >= 2 {
        Decimation.UniqueQuotient(n, e, d, 0);
        DivisorAmong(n, 1, 1, k, e);
      }
    }
  }

  lemma SmallCofactor(n: nat, k: nat, d: nat, e: nat)
    requires n == d * e && n < (k + 1) * (k + 1) && d > k
    ensures e <= k
  {
    if e > k {
      Simd.ProductOrder(k + 1, k + 1, e);
      Simd.ProductOrder(e, k + 1, d);
    }
  }

  /** A prime period that is not one step is the least. */
  lemma PrimePeriodIsLeast(w: Bits, taps: Bits, n: nat, k: nat)
    requires |w| == |taps| >= 1 && IsPeriod(w, taps, n) && !IsPeriod(w, taps, 1)
    requires DivisorsDivide(n, 1, 1, k) && 2 <= n < (k + 1) * (k + 1)
    ensures forall q :: 1 <= q < n ==> !IsPeriod(w, taps, q)
  {
    var least := LeastPeriod(w, taps, n);
    LeastPeriodDivides(w, taps, least, n);
    PrimeWithoutSmallDivisors(n, k, least);
  }

  /** A period none of whose largest proper parts is one is the least. */
  lemma CompositePeriodIsLeast(w: Bits, taps: Bits, n: nat, a: nat, b: nat)
    requires |w| == |taps| >= 1 && IsPeriod(w, taps, n) && !IsPeriod(w, taps, 1)
    requires a >= 1 && b >= 1 && !IsPeriod(w, taps, a) && !IsPeriod(w, taps, b)
    requires n >= 2 && DivisorsDivide(n, a, b, n - 1)
    ensures forall q :: 1 <= q < n ==> !IsPeriod(w, taps, q)
  {
    var least := LeastPeriod(w, taps, n);
    LeastPeriodDivides(w, taps, least, n);
    if 2 <= least < n {
      DivisorAmong(n, a, b, n - 1, least);
      if a % least == 0 {
        MultipleIsPeriod(w, taps, least, a);
      } else {
        MultipleIsPeriod(w, taps, least, b);
      }
    }
  }

  // Steps that are not the identity

  predicate LeadsAt(u: Bits, k: nat) { k < |u| && u[k] && forall j :: 0 <= j < k ==> !u[j] }

  /** A polynomial that is not constant moves the first one of a window to the front. */
  lemma {:induction false} MovesToFront(c: bv32, u: Bits, taps: Bits, k: nat) returns (i: nat)
    requires |u| == |taps| && k < 16 && LeadsAt(u, k) && Below(c, k + 1) && c != 0
    ensures i <= k && LeadsAt(Comb(c, u, taps), i) && (i == k <==> c == 1)
    decreases k
  {
    hide Below, Previous;
    Peel(c, u, taps);
    HalfOfSmall(c, k);
    if c == 1 {
      CombOfOne(u, taps);
      i := k;
    } else {
      hide Comb, Low, Half;
      var v := Previous(u, taps);
      PreviousLeads(u, taps, k);
      i := MovesToFront(Half(c), v, taps, k - 1);
      LeadsOfSum(Low(c), u, Comb(Half(c), v, taps), k, i);
    }
  }

  lemma HalfOfSmall(c: bv32, k: nat)
    requires k < 16 && Below(c, k + 1) && c != 0
    ensures c != 1 ==> k >= 1 && Half(c) != 0 && Below(Half(c), k)
  {
    HalfBelow(c, k + 1);
    if k == 0 {
      OnlyOne(c);
    }
    hide Below;
  }

  lemma PreviousLeads(u: Bits, taps: Bits, k: nat)
    requires |u| == |taps| && 1 <= k && LeadsAt(u, k)
    ensures LeadsAt(Previous(u, taps), k - 1)
  {
  }

  lemma LeadsOfSum(b: bool, u: Bits, v: Bits, k: nat, i: nat)
    requires |u| == |v| && LeadsAt(u, k) && LeadsAt(v, i) && i < k
    ensures LeadsAt(Xor(Masked(b, u), v), i)
  {
  }

  lemma NotAPeriod(length: nat, t: nat, c: bv32)
    requires 3 <= length <= 16 && t >= 1 && Steps(t, c, Taps(length))
    requires Below(c, length) && c != 0 && c != 1
    ensures !IsPeriod(Seed(length), Taps(length), t)
  {
    hide *;
    var w, taps := Seed(length), Taps(length);
    SeedFacts(length);
    if IsPeriod(w, taps, t) {
      WindowOfPeriod(w, taps, t);
      RewoundOfWindow(w, taps, t);
      SameSteps(t, c, taps, w);
      CombOfPrevious(c, w, taps);
      SeedBefore(length, taps);
      var i := MovesToFront(c, Previous(w, taps), taps, length - 1);
      LeadsOnce(Previous(w, taps), i, length - 1);
    }
  }

  lemma WindowOfPeriod(w: Bits, taps: Bits, t: nat)
    requires |w| == |taps| >= 1 && IsPeriod(w, taps, t)
    ensures Window(w, taps, t) == w
  {
  }

  lemma LeadsOnce(u: Bits, i: nat, k: nat)
    requires LeadsAt(u, i) && LeadsAt(u, k)
    ensures i == k
  {
  }

  lemma SeedBefore(length: nat, taps: Bits)
    requires 3 <= length <= 16 && |taps| == length
    ensures LeadsAt(Previous(Seed(length), taps), length - 1)
  {
    var w := Seed(length);
    assert w[1..] == Zeros(length - 1);
    ParityOfZeros(taps[..length - 1]);
    hide Parity;
  }

  // The code lengths one by one

  lemma Moduli()
    ensures Modulus(3) == 0xB && Modulus(4) == 0x13 && Modulus(5) == 0x37 && Modulus(6) == 0x67 && Modulus(7) == 0xA7
    ensures Modulus(8) == 0x11B && Modulus(9) == 0x243 && Modulus(10) == 0x443 && Modulus(11) == 0x8C3 && Modulus(12) == 0x1A87
    ensures Modulus(13) == 0x24CB && Modulus(14) == 0x5607 && Modulus(15) == 0xA013 && Modulus(16) == 0x1428B
  {
  }

  lemma Powers()
    ensures Power(3) == 8 && Power(4) == 16 && Power(5) == 32 && Power(6) == 64 && Power(7) == 128
    ensures Power(8) == 256 && Power(9) == 512 && Power(10) == 1024 && Power(11) == 2048 && Power(12) == 4096
    ensures Power(13) == 8192 && Power(14) == 16384 && Power(15) == 32768 && Power(16) == 65536
  {
  }

  lemma ModulusOf(length: nat, m: bv32)
    requires 3 <= length <= 16 && m == Modulus(length)
    ensures IsModulus(m, Taps(length))
  {
    hide *;
    ModulusAnnihilates(length);
  }

  // The code lengths one by one

  ghost predicate NoShorterPeriod(length: nat, n: nat)
    requires 3 <= length <= 16
  {
    forall q :: 1 <= q < n ==> !IsPeriod(Seed(length), Taps(length), q)
  }

  /** The period of all codes but zero, from as many steps as a step, and one. */
  lemma FullPeriod(length: nat, count: nat)
    requires 3 <= length <= 16 && count >= 1 && Steps(count + 1, 2, Taps(length))
    ensures IsPeriod(Seed(length), Taps(length), count)
  {
    hide *;
    SeedFacts(length);
    PeriodOfX(Taps(length), count, Seed(length));
  }

  lemma PrimeLength(length: nat, n: nat, k: nat)
    requires 3 <= length <= 16 && Steps(n + 1, 2, Taps(length))
    requires DivisorsDivide(n, 1, 1, k) && 2 <= n < (k + 1) * (k + 1)
    ensures NoShorterPeriod(length, n)
  {
    hide IsPeriod, Steps, Taps, DivisorsDivide, Seed;
    FullPeriod(length, n);
    SeedFacts(length);
    PrimePeriodIsLeast(Seed(length), Taps(length), n, k);
  }

  lemma CompositeLength(length: nat, n: nat, a: nat, ca: bv32, b: nat, cb: bv32)
    requires 3 <= length <= 16 && n >= 2 && a >= 1 && b >= 1 && DivisorsDivide(n, a, b, n - 1)
    requires Steps(n + 1, 2, Taps(length)) && Steps(a, ca, Taps(length)) && Steps(b, cb, Taps(length))
    requires Below(ca, length) && Below(cb, length) && ca != 0 && ca != 1 && cb != 0 && cb != 1
    ensures NoShorterPeriod(length, n)
  {
    hide IsPeriod, Steps, Taps, DivisorsDivide, Seed, Below;
    FullPeriod(length, n);
    SeedFacts(length);
    NotAPeriod(length, a, ca);
    NotAPeriod(length, b, cb);
    CompositePeriodIsLeast(Seed(length), Taps(length), n, a, b);
  }

  lemma Length3()
    ensures NoShorterPeriod(3, 7)
  {
    SmallDivisorsOf7();
    hide *;
    Moduli();
    ModulusOf(3, 0xB);
    Power8OfLength3(0xB, Taps(3));
    PrimeLength(3, 7, 2);
  }

  lemma SmallDivisorsOf7()
    ensures DivisorsDivide(7, 1, 1, 2)
  {
  }

  lemma Length5()
    ensures NoShorterPeriod(5, 31)
  {
    SmallDivisorsOf31();
    hide *;
    Moduli();
    ModulusOf(5, 0x37);
    Power32OfLength5(0x37, Taps(5));
    PrimeLength(5, 31, 5);
  }

  lemma SmallDivisorsOf31()
    ensures DivisorsDivide(31, 1, 1, 5)
  {
  }

  lemma Length7()
    ensures NoShorterPeriod(7, 127)
  {
    SmallDivisorsOf127();
    hide *;
    Moduli();
    ModulusOf(7, 0xA7);
    Power128OfLength7(0xA7, Taps(7));
    PrimeLength(7, 127, 11);
  }

  lemma SmallDivisorsOf127()
    ensures DivisorsDivide(127, 1, 1, 11)
  {
  }

  lemma Length13()
    ensures NoShorterPeriod(13, 8191)
  {
    DivisorsOf8191();
    hide *;
    Moduli();
    ModulusOf(13, 0x24CB);
    Power8192OfLength13(0x24CB, Taps(13));
    PrimeLength(13, 8191, 90);
  }

  lemma SmallDivisorsOf8191()
    ensures DivisorsDivide(8191, 1, 1, 50)
  {
    assert DivisorsDivide(8191, 1, 1, 10);
    assert DivisorsDivide(8191, 1, 1, 20);
    assert DivisorsDivide(8191, 1, 1, 30);
    assert DivisorsDivide(8191, 1, 1, 40);
    assert DivisorsDivide(8191, 1, 1, 50);
  }

  lemma DivisorsOf8191()
    ensures DivisorsDivide(8191, 1, 1, 90)
  {
    SmallDivisorsOf8191();
    assert DivisorsDivide(8191, 1, 1, 60);
    assert DivisorsDivide(8191, 1, 1, 70);
    assert DivisorsDivide(8191, 1, 1, 80);
  }

  lemma DivisorsOf15()
    ensures DivisorsDivide(15, 3, 5, 14)
    ensures Below(0x8, 4) && Below(0x6, 4)
  {
    assert DivisorsDivide(15, 3, 5, 10);
  }

  lemma Length4()
    ensures NoShorterPeriod(4, 15)
  {
    DivisorsOf15();
    hide *;
    Moduli();
    ModulusOf(4, 0x13);
    Power16OfLength4(0x13, Taps(4));
    Power3OfLength4(0x13, Taps(4));
    Power5OfLength4(0x13, Taps(4));
    CompositeLength(4, 15, 3, 0x8, 5, 0x6);
  }

  lemma DivisorsOf63()
    ensures DivisorsDivide(63, 9, 21, 62)
    ensures Below(0xD, 6) && Below(0x2C, 6)
  {
    assert DivisorsDivide(63, 9, 21, 10);
    assert DivisorsDivide(63, 9, 21, 20);
    assert DivisorsDivide(63, 9, 21, 30);
    assert DivisorsDivide(63, 9, 21, 40);
    assert DivisorsDivide(63, 9, 21, 50);
    assert DivisorsDivide(63, 9, 21, 60);
  }

  lemma Length6()
    ensures NoShorterPeriod(6, 63)
  {
    DivisorsOf63();
    hide *;
    Moduli();
    ModulusOf(6, 0x67);
    Power64OfLength6(0x67, Taps(6));
    Power9OfLength6(0x67, Taps(6));
    Power21OfLength6(0x67, Taps(6));
    CompositeLength(6, 63, 9, 0xD, 21, 0x2C);
  }

  lemma Length8()
    ensures IsPeriod(Seed(8), Taps(8), 51)
  {
    hide *;
    Moduli();
    SeedFacts(8);
    ModulusOf(8, 0x11B);
    Power51OfLength8(0x11B, Taps(8));
    PeriodOfIdentity(Taps(8), 51, Seed(8));
  }

  lemma Length9()
    ensures IsPeriod(Seed(9), Taps(9), 254)
  {
    hide *;
    Moduli();
    SeedFacts(9);
    ModulusOf(9, 0x243);
    Power254OfLength9(0x243, Taps(9));
    PeriodOfIdentity(Taps(9), 254, Seed(9));
  }

  lemma Length10()
    ensures IsPeriod(Seed(10), Taps(10), 105)
  {
    hide *;
    Moduli();
    SeedFacts(10);
    ModulusOf(10, 0x443);
    Power105OfLength10(0x443, Taps(10));
    PeriodOfIdentity(Taps(10), 105, Seed(10));
  }

  lemma Length11()
    ensures IsPeriod(Seed(11), Taps(11), 89)
  {
    hide *;
    Moduli();
    SeedFacts(11);
    ModulusOf(11, 0x8C3);
    Power89OfLength11(0x8C3, Taps(11));
    PeriodOfIdentity(Taps(11), 89, Seed(11));
  }

  lemma Length12()
    ensures IsPeriod(Seed(12), Taps(12), 3937)
  {
    hide *;
    Moduli();
    SeedFacts(12);
    ModulusOf(12, 0x1A87);
    Power3937OfLength12(0x1A87, Taps(12));
    PeriodOfIdentity(Taps(12), 3937, Seed(12));
  }

  lemma Length14()
    ensures IsPeriod(Seed(14), Taps(14), 5461)
  {
    hide *;
    Moduli();
    SeedFacts(14);
    ModulusOf(14, 0x5607);
    Power5461OfLength14(0x5607, Taps(14));
    PeriodOfIdentity(Taps(14), 5461, Seed(14));
  }

  lemma Length15()
    ensures IsPeriod(Seed(15), Taps(15), 27559)
  {
    hide *;
    Moduli();
    SeedFacts(15);
    ModulusOf(15, 0xA013);
    Power27559OfLength15(0xA013, Taps(15));
    PeriodOfIdentity(Taps(15), 27559, Seed(15));
  }

  lemma Length16()
    ensures IsPeriod(Seed(16), Taps(16), 10668)
  {
    hide *;
    Moduli();
    SeedFacts(16);
    ModulusOf(16, 0x1428B);
    Power10668OfLength16(0x1428B, Taps(16));
    PeriodOfIdentity(Taps(16), 10668, Seed(16));
  }

  // The exact condition

  predicate IsFull(length: nat) { length in {3, 4, 5, 6, 7, 13} }

  lemma FullLengths(length: nat)
    requires 3 <= length <= 16 && IsFull(length)
    ensures NoShorterPeriod(length, Power(length) - 1)
  {
    Powers();
    hide NoShorterPeriod, Power;
    match length
    case 3 => Length3();
    case 4 => Length4();
    case 5 => Length5();
    case 6 => Length6();
    case 7 => Length7();
    case _ => Length13();
  }

  lemma ShortLengths(length: nat) returns (period: nat)
    requires 3 <= length <= 16 && !IsFull(length)
    ensures period < Power(length) - 1 && IsPeriod(Seed(length), Taps(length), period)
  {
    Powers();
    hide IsPeriod, Power, Seed, Taps;
    match length
    case 8 => Length8(); period := 51;
    case 9 => Length9(); period := 254;
    case 10 => Length10(); period := 105;
    case 11 => Length11(); period := 89;
    case 12 => Length12(); period := 3937;
    case 14 => Length14(); period := 5461;
    case 15 => Length15(); period := 27559;
    case _ => Length16(); period := 10668;
  }

  /** For the other code lengths some code is never shown, however long the sequence. */
  lemma MissingCode(length: nat) returns (code: Bits)
    requires 3 <= length <= 16 && !IsFull(length)
    ensures |code| == length && code != Zeros(length)
    ensures forall t: nat :: Window(Seed(length), Taps(length), t) != code
  {
    hide IsFull, Window, Power, Taps, Seed;
    SeedFacts(length);
    var period := ShortLengths(length);
    code := ShortPeriodLeavesCodeOut(Seed(length), Taps(length), period);
  }

  /** Every code but zero is shown within 2^length - 1 steps of the seed exactly for six of the
  fourteen code lengths. */
  lemma EveryCodeAppearsExactlyForSix(length: nat)
    requires 3 <= length <= 16
    ensures EveryCodeAppears(length) <==> length in {3, 4, 5, 6, 7, 13}
  {
    hide Window, Power, Taps, Seed;
    SeedFacts(length);
    if IsFull(length) {
      FullLengths(length);
      forall code: Bits | |code| == length && code != Zeros(length) ensures Appears(length, code) {
        var steps := FullPeriodShowsCode(Seed(length), Taps(length), code);
      }
    } else {
      var code := MissingCode(length);
      assert !Appears(length, code);
    }
  }
}
