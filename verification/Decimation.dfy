/** What it means to decimate a stream, and why it does not matter how the stream is cut.

A decimator by `d` with a window of `len` samples keeps the last `len - d` samples of the
stream between calls.  `xs` below is that carried history followed by the new samples.
 */
module Decimation {

  /** One output per `d` samples: the window function applied to the `len` newest samples. */
  function Decimate<X, Y>(w: seq<X> -> Y, len: nat, d: nat, xs: seq<X>): (ys: seq<Y>)
    requires 1 <= d <= len
  {
    if |xs| < len then [] else [w(xs[..len])] + Decimate(w, len, d, xs[d..])
  }

  /** The last `len - d` samples that belong to a complete group of `d`. */
  function Carry<X>(len: nat, d: nat, xs: seq<X>): (h: seq<X>)
    requires 1 <= d <= len
    requires |xs| >= len - d
    ensures |h| == len - d
  {
    if |xs| < len then xs[..len - d] else Carry(len, d, xs[d..])
  }

  /** After complete groups the carried samples are simply the newest. */
  lemma {:induction false} CarryIsNewest<X>(len: nat, d: nat, xs: seq<X>)
    requires 1 <= d <= len && |xs| >= len - d
    requires (|xs| - (len - d)) % d == 0
    ensures Carry(len, d, xs) == xs[|xs| - (len - d)..]
    decreases |xs|
  {
    if |xs| < len {
      SmallMultiple(|xs| - (len - d), d);
    } else {
      DropGroup(|xs| - (len - d), d);
      CarryIsNewest(len, d, xs[d..]);
    }
  }

  lemma SmallMultiple(a: nat, d: nat)
    requires a < d
    ensures a % d == a
  {
  }

  lemma DropGroup(a: nat, d: nat)
    requires 1 <= d <= a
    ensures a % d == (a - d) % d
    ensures a / d == (a - d) / d + 1
  {
    assert a == d * (a / d) + a % d;
    assert a - d == d * (a / d - 1) + a % d;
    UniqueQuotient(a - d, d, a / d - 1, a % d);
  }

  lemma UniqueQuotient(a: int, d: nat, q: int, r: nat)
    requires r < d && a == d * q + r
    ensures a / d == q && a % d == r
  {
    var q', r' := a / d, a % d;
    assert d * q' + r' == d * q + r;
    if q > q' { AtLeastOnce(d, q, q'); }
    if q < q' { AtLeastOnce(d, q', q); }
  }

  lemma Distributes(d: nat, a: int, b: int)
    ensures d * (a + b) == d * a + d * b
    ensures b >= 0 ==> d * b >= 0
  {
  }

  lemma AtLeastOnce(d: nat, p: int, q: int)
    requires p > q
    ensures d * p >= d * q + d
  {
    Distributes(d, q, p - q);
    Distributes(d, 1, p - q - 1);
  }

  lemma {:induction false} OutputCount<X, Y>(w: seq<X> -> Y, len: nat, d: nat, xs: seq<X>)
    requires 1 <= d <= len
    requires |xs| >= len - d
    ensures |Decimate(w, len, d, xs)| == (|xs| - (len - d)) / d
    decreases |xs|
  {
    if |xs| < len {
      UniqueQuotient(|xs| - (len - d), d, 0, |xs| - (len - d));
    } else {
      DropGroup(|xs| - (len - d), d);
      OutputCount(w, len, d, xs[d..]);
    }
  }

  lemma {:induction false} OutputAt<X, Y>(w: seq<X> -> Y, len: nat, d: nat, xs: seq<X>, k: nat)
    requires 1 <= d <= len
    requires d * k + len <= |xs|
    ensures k < |Decimate(w, len, d, xs)| && Decimate(w, len, d, xs)[k] == w(xs[d * k..d * k + len])
  {
    if k > 0 {
      NextMultiple(d, k - 1);
      OutputAt(w, len, d, xs[d..], k - 1);
      assert xs[d..][d * (k - 1)..d * (k - 1) + len] == xs[d * k..d * k + len];
    }
  }

  lemma NextMultiple(d: nat, k: nat)
    ensures d * (k + 1) == d * k + d && d * k >= 0
  {
  }

  /** The closed form: output `k` is computed from samples d*k .. d*k + len - 1. */
  lemma DecimateAt<X, Y>(w: seq<X> -> Y, len: nat, d: nat, xs: seq<X>, k: nat)
    requires 1 <= d <= len
    requires |xs| >= len - d
    ensures |Decimate(w, len, d, xs)| == (|xs| - (len - d)) / d
    ensures d * k + len <= |xs| ==>
              k < |Decimate(w, len, d, xs)| && Decimate(w, len, d, xs)[k] == w(xs[d * k..d * k + len])
  {
    hide Decimate;
    OutputCount(w, len, d, xs);
    if d * k + len <= |xs| {
      OutputAt(w, len, d, xs, k);
    }
  }

  /** Block-split invariance: running on `h + a` and then on the carried history followed by
      `b` gives the outputs, and leaves the state, of one run on `h + a + b`. */
  lemma {:induction false} SplitInvariance<X, Y>(w: seq<X> -> Y, len: nat, d: nat, h: seq<X>, a: seq<X>, b: seq<X>)
    requires 1 <= d <= len
    requires |h| == len - d
    requires |a| % d == 0
    ensures Decimate(w, len, d, h + (a + b))
         == Decimate(w, len, d, h + a) + Decimate(w, len, d, Carry(len, d, h + a) + b)
    ensures Carry(len, d, h + (a + b)) == Carry(len, d, Carry(len, d, h + a) + b)
    decreases |a|
  {
    if |a| < d {
      SmallMultiple(|a|, d);
      assert h + a == h && a + b == b;
      assert (h + a)[..len - d] == h;
    } else {
      var h', a' := (h + a)[d..][..len - d], (h + a)[d..][len - d..];
      DropGroup(|a|, d);
      FirstGroup(len, d, h, a, b);
      SplitInvariance(w, len, d, h', a', b);
    }
  }

  /** The first window, and what is left after the first group. */
  lemma FirstGroup<X>(len: nat, d: nat, h: seq<X>, a: seq<X>, b: seq<X>)
    requires 1 <= d <= len && |h| == len - d && |a| >= d
    ensures (h + (a + b))[..len] == (h + a)[..len]
    ensures var h', a' := (h + a)[d..][..len - d], (h + a)[d..][len - d..];
            h' + a' == (h + a)[d..] && h' + (a' + b) == (h + (a + b))[d..]
  {
  }

  /** What the run loop of a decimator adds in one iteration: `h` is the current delay line,
      `chunk` the next group of samples. */
  lemma DecimateOneMore<X, Y>(w: seq<X> -> Y, len: nat, d: nat, h: seq<X>, a: seq<X>, chunk: seq<X>)
    requires 1 <= d <= len
    requires |h| == len - d && |chunk| == d
    requires |a| % d == 0
    ensures Decimate(w, len, d, h + (a + chunk))
         == Decimate(w, len, d, h + a) + [w(Carry(len, d, h + a) + chunk)]
    ensures Carry(len, d, h + (a + chunk)) == (Carry(len, d, h + a) + chunk)[d..]
  {
    var c := Carry(len, d, h + a);
    SplitInvariance(w, len, d, h, a, chunk);
    assert (c + chunk)[..len] == c + chunk;
    assert Decimate(w, len, d, (c + chunk)[d..]) == [];
  }

  /** The same for a history and block that are not told apart. */
  lemma DecimateLast<X, Y>(w: seq<X> -> Y, len: nat, d: nat, xs: seq<X>, k: nat, chunk: seq<X>)
    requires 1 <= d <= len && |chunk| == d
    requires |xs| == len - d + d * k
    ensures Decimate(w, len, d, xs + chunk)
         == Decimate(w, len, d, xs) + [w(xs[d * k..] + chunk)]
    ensures Carry(len, d, xs + chunk) == (xs[d * k..] + chunk)[d..]
  {
    hide Decimate, Carry;
    UniqueQuotient(d * k, d, k, 0);
    var h, a := xs[..len - d], xs[len - d..];
    assert h + a == xs && h + (a + chunk) == xs + chunk;
    CarryIsNewest(len, d, xs);
    DecimateOneMore(w, len, d, h, a, chunk);
  }

  /** The same for a loop that counts samples instead of groups. */
  lemma NextGroup<X, Y>(w: seq<X> -> Y, len: nat, d: nat, h: seq<X>, src: seq<X>, i: nat, at: nat)
    requires 1 <= d <= len && |h| == len - d
    requires at == d * i && at + d <= |src|
    ensures Decimate(w, len, d, h + src[..at + d])
         == Decimate(w, len, d, h + src[..at]) + [w(Carry(len, d, h + src[..at]) + src[at..at + d])]
    ensures Carry(len, d, h + src[..at + d]) == (Carry(len, d, h + src[..at]) + src[at..at + d])[d..]
    ensures d * (i + 1) == at + d
  {
    hide Decimate, Carry;
    OneMoreGroup(w, len, d, h, src, i);
  }

  /** The case of decimation by two, for the pair of samples at position `2 * i` of a block. */
  lemma OneMorePair<X, Y>(w: seq<X> -> Y, len: nat, h: seq<X>, block: seq<X>, i: nat)
    requires 2 <= len && |h| == len - 2 && 2 * i + 2 <= |block|
    ensures Decimate(w, len, 2, h + block[..2 * (i + 1)])
         == Decimate(w, len, 2, h + block[..2 * i]) + [w((h + block[..2 * i])[2 * i..] + [block[2 * i], block[2 * i + 1]])]
    ensures (h + block[..2 * (i + 1)])[2 * (i + 1)..]
         == ((h + block[..2 * i])[2 * i..] + [block[2 * i], block[2 * i + 1]])[2..]
  {
    hide Decimate;
    var seen, pair := h + block[..2 * i], [block[2 * i], block[2 * i + 1]];
    DecimateLast(w, len, 2, seen, i, pair);
    assert seen + pair == h + block[..2 * (i + 1)];
  }

  /** Samples after the last complete group change neither the outputs nor the state. */
  lemma IncompleteGroup<X, Y>(w: seq<X> -> Y, len: nat, d: nat, h: seq<X>, a: seq<X>)
    requires 1 <= d <= len && |h| == len - d
    ensures d * (|a| / d) <= |a|
    ensures Decimate(w, len, d, h + a) == Decimate(w, len, d, h + a[..d * (|a| / d)])
    ensures Carry(len, d, h + a) == Carry(len, d, h + a[..d * (|a| / d)])
  {
    hide Decimate, Carry;
    WholeGroups(|a|, d);
    var n := d * (|a| / d);
    assert a == a[..n] + a[n..];
    SplitInvariance(w, len, d, h, a[..n], a[n..]);
    NoCompleteGroup(w, len, d, Carry(len, d, h + a[..n]), a[n..]);
  }

  lemma WholeGroups(count: nat, d: nat)
    requires d >= 1
    ensures var n := d * (count / d); n <= count < n + d && n % d == 0
  {
    var n := d * (count / d);
    assert count == n + count % d;
    UniqueQuotient(n, d, count / d, 0);
  }

  lemma NoCompleteGroup<X, Y>(w: seq<X> -> Y, len: nat, d: nat, h: seq<X>, rest: seq<X>)
    requires 1 <= d <= len && |h| == len - d && |rest| < d
    ensures Decimate(w, len, d, h + rest) == [] && Carry(len, d, h + rest) == h
  {
    assert (h + rest)[..len - d] == h;
  }

  lemma NothingYet<X, Y>(w: seq<X> -> Y, len: nat, d: nat, h: seq<X>, src: seq<X>)
    requires 1 <= d <= len && |h| == len - d
    ensures Decimate(w, len, d, h + src[..0]) == []
    ensures Carry(len, d, h + src[..0]) == h
  {
    NoCompleteGroup(w, len, d, h, src[..0]);
  }

  /** `DecimateOneMore` for the group at position `d * i` of a block. */
  lemma OneMoreGroup<X, Y>(w: seq<X> -> Y, len: nat, d: nat, h: seq<X>, src: seq<X>, i: nat)
    requires 1 <= d <= len && |h| == len - d
    requires d * i + d <= |src|
    ensures Decimate(w, len, d, h + src[..d * (i + 1)])
         == Decimate(w, len, d, h + src[..d * i]) + [w(Carry(len, d, h + src[..d * i]) + src[d * i..d * i + d])]
    ensures Carry(len, d, h + src[..d * (i + 1)]) == (Carry(len, d, h + src[..d * i]) + src[d * i..d * i + d])[d..]
  {
    UniqueQuotient(d * i, d, i, 0);
    DecimateOneMore(w, len, d, h, src[..d * i], src[d * i..d * i + d]);
    assert d * (i + 1) == d * i + d;
    assert src[..d * (i + 1)] == src[..d * i] + src[d * i..d * i + d];
  }

  /** Two decimators whose window functions agree on related windows have equal outputs. */
  lemma {:induction false} SameWindows<X, Z, Y>(w: seq<X> -> Y, v: seq<Z> -> Y, len: nat, d: nat, xs: seq<X>, zs: seq<Z>)
    requires 1 <= d <= len
    requires |xs| == |zs| >= len - d
    requires forall k: nat :: d * k + len <= |xs| ==> w(xs[d * k..d * k + len]) == v(zs[d * k..d * k + len])
    ensures Decimate(w, len, d, xs) == Decimate(v, len, d, zs)
  {
    var ys, us := Decimate(w, len, d, xs), Decimate(v, len, d, zs);
    DecimateAt(w, len, d, xs, 0);
    DecimateAt(v, len, d, zs, 0);
    forall k: nat | k < |ys| ensures ys[k] == us[k] {
      GroupFits(|xs| - (len - d), d, k);
      DecimateAt(w, len, d, xs, k);
      DecimateAt(v, len, d, zs, k);
    }
  }

  lemma GroupFits(a: nat, d: nat, k: nat)
    requires d >= 1 && k < a / d
    ensures d * k + d <= a
  {
    assert a == d * (a / d) + a % d;
    AtLeastOnce(d, a / d, k);
  }

  /** A silent history of `n` samples. */
  function Silence<X>(n: nat, zero: X): (s: seq<X>)
    ensures |s| == n
  {
    seq(n, _ => zero)
  }
}
