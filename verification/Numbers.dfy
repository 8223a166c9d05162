/** Decimal numbers as text: `to_string_dec_uint` of firmware/application/string_format.cpp, and
the C library's `strtoll`, which reads them back. */
module Numbers {

  predicate IsDigit(c: char) { '0' <= c <= '9' }

  function DigitChar(d: nat): char
    requires d < 10
  {
    (48 + d) as char
  }

  function Digits(n: nat): (s: string)
    ensures |s| >= 1 && forall c <- s :: IsDigit(c)
  {
    if n < 10 then [DigitChar(n)] else Digits(n / 10) + [DigitChar(n % 10)]
  }

  function Fill(c: char, n: nat): (s: string)
    ensures |s| == n && forall x <- s :: x == c
  {
    seq(n, _ => c)
  }

  function Widened(s: string, l: int, c: char): string {
    if |s| < l then Fill(c, l - |s|) + s else s
  }

  /** `n` in decimal, right-aligned in `l` places; a fill of 0 means blanks. */
  function Padded(n: nat, l: int, fill: char): string {
    Widened(Digits(n), l, if fill == '\0' then ' ' else fill)
  }

  type UInt32 = n: int | 0 <= n < 0x1_0000_0000

  /** A 32-bit number has at most ten digits. */
  lemma DigitsLength(n: nat, k: nat)
    requires k >= 1 && n < Power10(k)
    ensures |Digits(n)| <= k
  {
    if n >= 10 {
      assert k >= 2 && n / 10 < Power10(k - 1);
      DigitsLength(n / 10, k - 1);
    }
  }

  function Power10(k: nat): nat { if k == 0 then 1 else 10 * Power10(k - 1) }

  lemma TenDigits(n: UInt32)
    ensures |Digits(n)| <= 10
  {
    assert Power10(5) == 100000;
    assert Power10(10) == 100000 * Power10(5);
    DigitsLength(n, 10);
  }

  /** Writes the digits of `n` backwards in front of the terminator and returns where they start. */
  method ToStringDecUintInternal(p: array<char>, term: nat, n: UInt32) returns (q: nat)
    requires 10 <= term < p.Length
    modifies p
    ensures term - 10 <= q < term && p[q..term] == Digits(n) && p[term] == '\0'
  {
    TenDigits(n);
    p[term] := '\0';
    q := term;
    var m: nat := n;
    ghost var done: string := [];
    while true
      invariant q == term - |done| && p[q..term] == done && p[term] == '\0'
      invariant Digits(n) == Digits(m) + done
      decreases m
    {
      var d := m % 10;
      q := q - 1;
      p[q] := DigitChar(d);
      done := [DigitChar(d)] + done;
      if m / 10 == 0 { assert Digits(n) == done; break; }
      assert Digits(m) + done[1..] == Digits(m / 10) + done;
      m := m / 10;
    }
  }

  /** The fill loop: prepends `c` until the text is `l` places wide. */
  method PadLeft(p: array<char>, q0: nat, term: nat, l: int, c: char) returns (q: nat)
    requires q0 <= term < p.Length && l <= term
    modifies p
    ensures q <= term && p[q..term] == Widened(old(p[q0..term]), l, c)
  {
    hide *;
    ghost var s := p[q0..term];
    q := q0;
    FillMore(c, 0, s);
    while term - q < l
      invariant 0 <= q <= q0
      invariant q < q0 ==> term - q <= l
      invariant p[q..term] == Filled(c, q0 - q, s)
      decreases q
    {
      FillMore(c, q0 - q, s);
      q := q - 1;
      p[q] := c;
      assert p[q..term] == [c] + p[q + 1..term];
    }
    FilledToWidth(s, l, c, q0 - q);
  }

  function Filled(c: char, k: nat, s: string): string { Fill(c, k) + s }

  lemma FillMore(c: char, k: nat, s: string)
    ensures Filled(c, k + 1, s) == [c] + Filled(c, k, s) && Filled(c, 0, s) == s
  {
    assert Fill(c, k + 1) == [c] + Fill(c, k);
  }

  lemma FilledToWidth(s: string, l: int, c: char, k: nat)
    requires k == if |s| < l then l - |s| else 0
    ensures Filled(c, k, s) == Widened(s, l, c)
  {
    FillMore(c, k, s);
  }

  /** The text between the start pointer and the terminator. */
  method ToStringDecUint(n: UInt32, l: int, fill: char) returns (s: string)
    requires l <= 15
    ensures s == Padded(n, l, fill)
  {
    var p := new char[16];
    var term := p.Length - 1;
    var q := ToStringDecUintInternal(p, term, n);
    if fill != '\0' {
      q := PadLeft(p, q, term, l, fill);
    }
    // Right justify.
    q := PadLeft(p, q, term, l, ' ');
    s := p[q..term];
  }

  /** Decimal digits as they should be: they have the value, and no zero stands in front. */
  lemma {:induction false} DigitsAreDecimal(n: nat)
    ensures Value(Digits(n)) == n && (n > 0 ==> Digits(n)[0] != '0')
  {
    ValueOfDigits(n);
    if n >= 10 {
      DigitsAreDecimal(n / 10);
    }
  }

  /** The digits stand on the right; the filling, if any, makes up the width. */
  lemma PaddedIsRightAligned(n: nat, l: int, fill: char)
    ensures var s, ds := Padded(n, l, fill), Digits(n);
            && |s| == (if |ds| < l then l else |ds|) && s[|s| - |ds|..] == ds
            && forall i :: 0 <= i < |s| - |ds| ==> s[i] == if fill == '\0' then ' ' else fill
  {
    hide Digits;
  }

  // Reading numbers

  predicate IsSpace(c: char) { c == ' ' || '\t' <= c <= '\r' }

  function SkipSpaces(s: string): string {
    if s != [] && IsSpace(s[0]) then SkipSpaces(s[1..]) else s
  }

  function DigitsPrefix(s: string): (r: string)
    ensures forall c <- r :: IsDigit(c)
  {
    if s != [] && IsDigit(s[0]) then [s[0]] + DigitsPrefix(s[1..]) else []
  }

  function DigitValue(c: char): (d: nat)
    requires IsDigit(c)
    ensures d < 10 && DigitChar(d) == c
  {
    c as int - 48
  }

  function Value(s: string): nat
    requires forall c <- s :: IsDigit(c)
  {
    if s == [] then 0 else 10 * Value(s[..|s| - 1]) + DigitValue(s[|s| - 1])
  }

  function Negate(x: int): int { -x }

  function Clamp64(x: int): int {
    if x < -0x8000_0000_0000_0000 then -0x8000_0000_0000_0000
    else if x > 0x7FFF_FFFF_FFFF_FFFF then 0x7FFF_FFFF_FFFF_FFFF else x
  }

  function Strtoll(s: string): int {
    var t := SkipSpaces(s);
    if t != [] && t[0] == '-' then Clamp64(Negate(Value(DigitsPrefix(t[1..]))))
    else if t != [] && t[0] == '+' then Clamp64(Value(DigitsPrefix(t[1..])))
    else Clamp64(Value(DigitsPrefix(t)))
  }

  // Round trip

  lemma {:induction false} ValueOfDigits(n: nat)
    ensures Value(Digits(n)) == n
  {
    if n >= 10 {
      ValueOfDigits(n / 10);
      assert Digits(n)[..|Digits(n)| - 1] == Digits(n / 10);
    }
  }

  lemma {:induction false} ValueOfConcatenation(s: string, t: string)
    requires (forall c <- s :: IsDigit(c)) && (forall c <- t :: IsDigit(c))
    ensures forall c <- s + t :: IsDigit(c)
    ensures Value(s + t) == Value(s) * Power10(|t|) + Value(t)
  {
    if t == [] {
      assert s + t == s;
    } else {
      ValueOfConcatenation(s, t[..|t| - 1]);
      var u, d := t[..|t| - 1], DigitValue(t[|t| - 1]);
      assert Value(t) == 10 * Value(u) + d;
      assert (s + t)[..|s + t| - 1] == s + u && (s + t)[|s + t| - 1] == t[|t| - 1];
      assert Value(s + t) == 10 * Value(s + u) + d;
      assert Power10(|t|) == 10 * Power10(|u|);
      Regroup(Value(s), Power10(|u|), Value(u), d);
    }
  }

  lemma Regroup(v: nat, p: nat, w: nat, d: nat)
    ensures 10 * (v * p + w) + d == v * (10 * p) + (10 * w + d)
  {
  }

  lemma {:induction false} ValueOfPadding(n: nat, k: nat)
    ensures var s := Fill('0', k) + Digits(n);
            (forall c <- s :: IsDigit(c)) && Value(s) == n
  {
    ValueOfZeros(k);
    ValueOfConcatenation(Fill('0', k), Digits(n));
    ValueOfDigits(n);
  }

  lemma {:induction false} ValueOfZeros(k: nat)
    ensures Value(Fill('0', k)) == 0
  {
    if k > 0 {
      ValueOfZeros(k - 1);
      assert Fill('0', k)[..k - 1] == Fill('0', k - 1);
    }
  }

  lemma {:induction false} DigitsPrefixStops(ds: string, rest: string)
    requires forall c <- ds :: IsDigit(c)
    requires rest == [] || !IsDigit(rest[0])
    ensures DigitsPrefix(ds + rest) == ds
  {
    if ds == [] {
      assert ds + rest == rest;
    } else {
      assert (ds + rest)[1..] == ds[1..] + rest;
      DigitsPrefixStops(ds[1..], rest);
    }
  }

  lemma ThreeDigits(k: nat)
    requires k < 1000
    ensures var s := Padded(k, 3, '0'); |s| == 3 && (forall c <- s :: IsDigit(c)) && Value(s) == k
  {
    hide Digits, Value, Fill;
    assert Power10(3) == 1000;
    DigitsLength(k, 3);
    ValueOfPadding(k, 3 - |Digits(k)|);
    FillMore('0', 0, Digits(k));
  }

  /** Reading stops at the first character that is no digit. */
  lemma ReadsLeadingDigits(ds: string, rest: string)
    requires |ds| >= 1 && forall c <- ds :: IsDigit(c)
    requires rest == [] || !IsDigit(rest[0])
    ensures Strtoll(ds + rest) == Clamp64(Value(ds))
  {
    hide DigitsPrefix, Value, Clamp64;
    DigitsPrefixStops(ds, rest);
    assert (ds + rest)[0] == ds[0] && ds[0] in ds;
  }

  /** Thousands followed by three padded digits read back as the number that was split. */
  lemma SplitNumberReadsBack(n: nat, rest: string)
    requires n <= 0x7FFF_FFFF_FFFF_FFFF
    requires rest == [] || !IsDigit(rest[0])
    ensures Strtoll(Digits(n / 1000) + Padded(n % 1000, 3, '0') + rest) == n
  {
    hide Digits, Padded, Value, Strtoll, Power10;
    var high, low := Digits(n / 1000), Padded(n % 1000, 3, '0');
    ThreeDigits(n % 1000);
    ValueOfConcatenation(high, low);
    ValueOfDigits(n / 1000);
    Thousand();
    ReadsLeadingDigits(high + low, rest);
  }

  lemma Thousand()
    ensures Power10(3) == 1000
  {
  }
}
