/** The bit stream itself: a zero, the seed and the bits that the steps push in, in the order in
which they are sent. */
module DeBruijnStream {

  import opened BitStrings
  import opened DeBruijn
  import opened DeBruijnCoverage

  /** As many bits as `Init` announces. */
  function Stream(length: nat): (s: Bits)
    requires 3 <= length <= 16
    ensures |s| == Power(length) + (length - 1)
  {
    Zeros(length) + seq(Power(length) - 1, t requires 0 <= t => Window(Seed(length), Taps(length), t)[0])
  }

  /** The code stands in the stream at position i, its oldest bit first. */
  ghost predicate Shows(length: nat, code: Bits, i: nat)
    requires 3 <= length <= 16 && |code| == length
  {
    i + length <= |Stream(length)| && forall m :: 0 <= m < length ==> code[m] == Stream(length)[i + (length - 1 - m)]
  }

  lemma StreamAt(length: nat, j: nat)
    requires 3 <= length <= 16 && j < |Stream(length)|
    ensures Stream(length)[j] == (j >= length && Window(Seed(length), Taps(length), j - length)[0])
  {
    hide Window, Seed, Taps, Power;
  }

  /** Every bit of a window is one that was pushed in, or a zero of the seed. */
  lemma {:induction false} WindowBit(length: nat, t: nat, m: nat)
    requires 3 <= length <= 16 && m < length
    ensures Window(Seed(length), Taps(length), t)[m] == (m <= t && Window(Seed(length), Taps(length), t - m)[0])
    decreases m
  {
    hide Taps, Parity;
    if m > 0 && t > 0 {
      WindowBit(length, t - 1, m - 1);
    }
  }

  /** Behind position 0 the stream shows the windows, one after the other. */
  lemma StreamShowsWindow(length: nat, t: nat)
    requires 3 <= length <= 16 && t < Power(length) - 1
    ensures Shows(length, Window(Seed(length), Taps(length), t), t + 1)
  {
    hide Stream, Window, Seed, Taps, Power;
    var w := Window(Seed(length), Taps(length), t);
    forall m | 0 <= m < length ensures w[m] == Stream(length)[t + 1 + (length - 1 - m)] {
      StreamAt(length, t + length - m);
      WindowBit(length, t, m);
    }
  }

  lemma ShownIsWindow(length: nat, code: Bits, i: nat)
    requires 3 <= length <= 16 && |code| == length && Shows(length, code, i)
    ensures i < Power(length)
    ensures i >= 1 ==> code == Window(Seed(length), Taps(length), i - 1)
    ensures i == 0 ==> code == Zeros(length)
  {
    hide Stream, Window, Seed, Taps, Power;
    if i >= 1 {
      StreamShowsWindow(length, i - 1);
      SameCode(length, code, Window(Seed(length), Taps(length), i - 1), i);
    } else {
      ZeroComesFirst(length);
      SameCode(length, code, Zeros(length), 0);
    }
  }

  lemma SameCode(length: nat, a: Bits, b: Bits, i: nat)
    requires 3 <= length <= 16 && |a| == |b| == length && Shows(length, a, i) && Shows(length, b, i)
    ensures a == b
  {
    hide Stream;
  }

  lemma ZeroComesFirst(length: nat)
    requires 3 <= length <= 16
    ensures Shows(length, Zeros(length), 0)
  {
    hide Stream, Window, Seed, Taps, Power;
    var w := Zeros(length);
    forall m | 0 <= m < length ensures w[m] == Stream(length)[0 + (length - 1 - m)] {
      StreamAt(length, length - 1 - m);
    }
  }

  ghost predicate ShowsEveryCode(length: nat)
    requires 3 <= length <= 16
  {
    forall code: Bits :: |code| == length ==> exists i: nat :: Shows(length, code, i)
  }

  /** The stream of 2^n + n - 1 bits shows every code, zero included, exactly for six of the
  fourteen code lengths. */
  lemma StreamShowsEveryCodeExactlyForSix(length: nat)
    requires 3 <= length <= 16
    ensures ShowsEveryCode(length) <==> length in {3, 4, 5, 6, 7, 13}
  {
    hide Shows, Stream, Window, Seed, Taps, Power, Appears, IsFull;
    EveryCodeAppearsExactlyForSix(length);
    if EveryCodeAppears(length) {
      forall code: Bits | |code| == length ensures exists i: nat :: Shows(length, code, i) {
        var i := Position(length, code);
      }
    } else {
      var code: Bits :| |code| == length && code != Zeros(length) && !Appears(length, code);
      forall i: nat ensures !Shows(length, code, i) {
        if Shows(length, code, i) { ShownAppears(length, code, i); }
      }
    }
  }

  lemma Position(length: nat, code: Bits) returns (i: nat)
    requires 3 <= length <= 16 && |code| == length && EveryCodeAppears(length)
    ensures Shows(length, code, i)
  {
    hide Shows, Window, Seed, Taps, Power;
    if code == Zeros(length) {
      ZeroComesFirst(length);
      i := 0;
    } else {
      assert Appears(length, code);
      var t: nat :| t < Power(length) - 1 && Window(Seed(length), Taps(length), t) == code;
      StreamShowsWindow(length, t);
      i := t + 1;
    }
  }

  lemma ShownAppears(length: nat, code: Bits, i: nat)
    requires 3 <= length <= 16 && |code| == length && code != Zeros(length) && Shows(length, code, i)
    ensures Appears(length, code)
  {
    hide Shows, Window, Seed, Taps, Power;
    ShownIsWindow(length, code, i);
  }

  /** For those six lengths every code stands in the stream at one position only. */
  lemma NoCodeTwice(length: nat, code: Bits, i: nat, j: nat)
    requires length in {3, 4, 5, 6, 7, 13} && |code| == length
    requires Shows(length, code, i) && Shows(length, code, j)
    ensures i == j
  {
    if i < j {
      NoCodeAgain(length, code, i, j);
    } else if j < i {
      NoCodeAgain(length, code, j, i);
    }
  }

  lemma NoCodeAgain(length: nat, code: Bits, i: nat, j: nat)
    requires length in {3, 4, 5, 6, 7, 13} && |code| == length
    requires Shows(length, code, i) && Shows(length, code, j)
    ensures i >= j
  {
    hide Shows, Window, Seed, Taps, Power;
    ShownIsWindow(length, code, i);
    ShownIsWindow(length, code, j);
    SeedFacts(length);
    if i < j {
      WindowNeverZero(Seed(length), Taps(length), j - 1);
      FullLengths(length);
      NoWindowTwice(Seed(length), Taps(length), Power(length) - 1, i - 1, j - 1);
    }
  }
}
