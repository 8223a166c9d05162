/** What the non-recursive CIC stages are: a cascade of adders of two neighbouring samples, three or
four of them in a row, scaled. */
module CicTheorems {
  import opened Simd
  import opened Fir
  import opened Cic3
  import opened UnityCic3
  import opened RealCic4

  /** One adder: the sums of neighbours. */
  function PairSums(xs: seq<int>): (sums: seq<int>)
    ensures |sums| == if xs == [] then 0 else |xs| - 1
  {
    if xs == [] then [] else seq(|xs| - 1, i requires 0 <= i < |xs| - 1 => xs[i] + xs[i + 1])
  }

  /** So many adders in a row. */
  function Adders(xs: seq<int>, n: nat): (sums: seq<int>)
    ensures |sums| == if |xs| <= n then 0 else |xs| - n
  {
    if n == 0 then xs else PairSums(Adders(xs, n - 1))
  }

  /** `y` is s / n, truncated toward zero. */
  predicate IsTruncated(s: int, n: nat, y: int) {
    if s >= 0 then 0 <= s - n * y < n else 0 <= n * y - s < n
  }

  lemma ThreeAdders(xs: seq<int>)
    requires |xs| == 4
    ensures Adders(xs, 3) == [xs[0] + 3 * xs[1] + 3 * xs[2] + xs[3]]
  {
    var one, two := Adders(xs, 1), Adders(xs, 2);
    assert Adders(xs, 0) == xs;
    assert one == [xs[0] + xs[1], xs[1] + xs[2], xs[2] + xs[3]];
    assert two == [one[0] + one[1], one[1] + one[2]];
    hide Adders;
  }

  lemma FourAdders(xs: seq<int>)
    requires |xs| == 5
    ensures Adders(xs, 4) == [xs[0] + 4 * xs[1] + 6 * xs[2] + 4 * xs[3] + xs[4]]
  {
    ThreeAdders(xs[..4]);
    ThreeAdders(xs[1..]);
    LessAndMore(xs, 3);
    assert Adders(xs, 4) == PairSums(Adders(xs, 3));
  }

  /** Adders work on every stretch of samples alike. */
  lemma {:induction false} LessAndMore(xs: seq<int>, n: nat)
    requires |xs| >= n + 1
    ensures Adders(xs, n)[..|xs| - n - 1] == Adders(xs[..|xs| - 1], n)
    ensures Adders(xs, n)[1..] == Adders(xs[1..], n)
  {
    if n > 0 {
      LessAndMore(xs, n - 1);
      PairSumsOfParts(Adders(xs, n - 1));
      hide PairSums;
    }
  }

  lemma PairSumsOfParts(xs: seq<int>)
    requires |xs| >= 2
    ensures PairSums(xs)[..|xs| - 2] == PairSums(xs[..|xs| - 1]) && PairSums(xs)[1..] == PairSums(xs[1..])
  {
  }

  /** The widening stages: three adders, times 32, for each component. */
  lemma WideningIsThreeAdders(xs: seq<Complex>)
    requires |xs| == 4
    ensures var y := WideningWindow()(xs);
            y.re == 32 * Adders(Re(xs), 3)[0] && y.im == 32 * Adders(Im(xs), 3)[0]
  {
    ThreeAdders(Re(xs));
    ThreeAdders(Im(xs));
    hide Adders;
  }

  lemma TruncatedQuotient(s: int, n: nat)
    requires n >= 1
    ensures IsTruncated(s, n, TruncDiv(s, n))
  {
    if s >= 0 {
      assert s == n * (s / n) + s % n;
    } else {
      var q := (-s) / n;
      assert -s == n * q + (-s) % n;
      assert n * -q == -(n * q);
    }
  }

  /** The unity-gain stage: three adders, divided by eight. */
  lemma UnityIsThreeAdders(xs: seq<Complex>)
    requires |xs| == 4
    ensures var y := UnityWindow()(xs);
            IsTruncated(Adders(Re(xs), 3)[0], 8, y.re) && IsTruncated(Adders(Im(xs), 3)[0], 8, y.im)
  {
    ThreeAdders(Re(xs));
    ThreeAdders(Im(xs));
    hide Adders, TruncDiv, IsTruncated;
    var sum := CicSum(xs[0], xs[1], xs[2], xs[3]);
    TruncatedQuotient(sum.re, 8);
    TruncatedQuotient(sum.im, 8);
  }

  /** Its gain is one: a constant signal comes out as it is. */
  lemma UnityKeepsConstants(c: Complex)
    ensures UnityWindow()([c, c, c, c]) == c
  {
  }

  /** The real stage: four adders, divided by sixteen, and likewise of gain one. */
  lemma RealIsFourAdders(xs: seq<int>)
    requires |xs| == 5
    ensures IsTruncated(Adders(xs, 4)[0], 16, Cic4Window()(xs))
  {
    FourAdders(xs);
    hide Adders, TruncDiv, IsTruncated;
    TruncatedQuotient(Sum(xs[0], xs[1], xs[2], xs[3], xs[4]), 16);
  }

  lemma RealKeepsConstants(c: int)
    ensures Cic4Window()([c, c, c, c, c]) == c
  {
  }
}
