/** What a line of text means, without the running case number: the step of a range, and the kind of
every line. */
module FreqmanText {
  import opened Numbers
  import opened FreqmanLines
  import opened FreqmanFile
  import opened FreqmanRoundTrip
  import FreqmanExactness

  // The step of a range

  function SignedText(k: int): string { if k < 0 then "-" + Digits(-k) else Digits(k) }

  predicate IsLineEnd(end: string) { end == "" || end == "\r" }

  /** Reading a number back, clamped to 64 bits as the C library does. */
  lemma SignedReadsBack(k: int, end: string)
    requires IsLineEnd(end)
    ensures Strtoll(SignedText(k) + end) == Clamp64(k)
  {
    if k < 0 {
      NegativeReadsBack(-k, end);
      assert ("-" + Digits(-k)) + end == "-" + (Digits(-k) + end);
      hide Strtoll, Digits, Clamp64;
    } else {
      hide Strtoll, Digits, Clamp64, Value;
      ReadsLeadingDigits(Digits(k), end);
      ValueOfDigits(k);
    }
  }

  lemma NegativeReadsBack(n: nat, end: string)
    requires IsLineEnd(end)
    ensures Strtoll("-" + (Digits(n) + end)) == Clamp64(Negate(n))
  {
    hide Digits, Clamp64, DigitsPrefix, Value;
    var s := "-" + (Digits(n) + end);
    assert s[0] == '-' && s[1..] == Digits(n) + end && !IsSpace('-');
    DigitsPrefixStops(Digits(n), end);
    ValueOfDigits(n);
  }

  lemma ClampedStep(k: int)
    ensures 0 <= k <= 9 ==> Clamp64(k) == k
    ensures !(0 <= k <= 9) ==> !(0 <= Clamp64(k) <= 9)
  {
  }

  /** Blanks before the number do not count. */
  lemma {:induction false} BlanksAreSkipped(blanks: string, k: int, end: string)
    requires (forall c <- blanks :: IsSpace(c)) && IsLineEnd(end)
    ensures Strtoll(blanks + (SignedText(k) + end)) == Clamp64(k)
  {
    NumberCharacters(k);
    assert (SignedText(k) + end)[0] == SignedText(k)[0] && SignedText(k)[0] in SignedText(k);
    SpacesSkipped(blanks, SignedText(k) + end);
    SpacesSkipped("", SignedText(k) + end);
    assert "" + (SignedText(k) + end) == SignedText(k) + end;
    SignedReadsBack(k, end);
    hide SignedText, Clamp64, SkipSpaces, DigitsPrefix, Value;
  }

  lemma {:induction false} SpacesSkipped(blanks: string, rest: string)
    requires (forall c <- blanks :: IsSpace(c)) && rest != [] && !IsSpace(rest[0])
    ensures SkipSpaces(blanks + rest) == rest
  {
    if blanks == [] {
      assert blanks + rest == rest;
    } else {
      assert (blanks + rest)[0] == blanks[0] && blanks[0] in blanks && (blanks + rest)[1..] == blanks[1..] + rest;
      SpacesSkipped(blanks[1..], rest);
    }
  }

  /** A description that is taken as it stands. */
  predicate PlainDescription(desc: string) {
    && 1 <= |desc| < DESC_MAX_LEN
    && (forall c <- desc :: Acceptable(c) && c != ',' && c != '#')
    && !Has(desc, "//") && !Has(desc, "f=") && !Has(desc, "s=")
  }

  /** The line of a range with a step. */
  function RangeHead(a: int, b: int): string { "a=" + FrequencyText(a) + ",b=" + FrequencyText(b) + ",d=" }

  function SteppedLine(a: int, b: int, desc: string, k: int, end: string): string {
    RangeHead(a, b) + desc + ",s=" + SignedText(k) + end
  }

  /** A tag that cannot begin in what follows occurs only in front. */
  lemma {:induction false} TagInFront(front: string, rest: string, tag: string)
    requires |tag| == 2 && tag[0] !in rest && (rest == [] || rest[0] != tag[1])
    ensures Has(front + rest, tag) <==> Has(front, tag)
  {
    if front == [] {
      assert front + rest == rest;
      FreqmanExactness.NoTag(rest, tag);
    } else {
      var s := front + rest;
      assert s[1..] == front[1..] + rest && s[0] == front[0];
      TagInFront(front[1..], rest, tag);
      assert tag <= s <==> tag <= front;
      HasByFirst(s, tag);
      HasByFirst(front, tag);
      hide *;
    }
  }

  lemma HasByFirst(s: string, tag: string)
    requires |tag| == 2 && s != []
    ensures Has(s, tag) <==> tag <= s || Has(s[1..], tag)
    ensures Has(s, tag) ==> Behind(s, tag) == if tag <= s then s[2..] else Behind(s[1..], tag)
  {
  }

  /** The first tag, behind a text without one. */
  lemma {:induction false} FirstTagBehind(front: string, tag: string, rest: string)
    requires |tag| == 2 && tag[0] != tag[1] && !Has(front, tag)
    ensures var s := front + (tag + rest); Has(s, tag) && Behind(s, tag) == rest
  {
    var s := front + (tag + rest);
    if front == [] {
      assert s == tag + rest;
      assert tag <= s && s[2..] == rest;
      HasByFirst(s, tag);
    } else {
      assert s[1..] == front[1..] + (tag + rest);
      HasByFirst(front, tag);
      FirstTagBehind(front[1..], tag, rest);
      NotYet(front, tag, rest);
      HasByFirst(s, tag);
      hide *;
    }
  }

  lemma NotYet(front: string, tag: string, rest: string)
    requires |tag| == 2 && tag[0] != tag[1] && front != [] && !(tag <= front)
    ensures !(tag <= front + (tag + rest))
  {
    var s := front + (tag + rest);
    assert s[0] == front[0] && s[1] == if |front| >= 2 then front[1] else tag[0];
    TwoCharacters(s, tag);
    TwoCharacters(front, tag);
  }

  lemma TwoCharacters(s: string, tag: string)
    requires |tag| == 2
    ensures tag <= s <==> |s| >= 2 && s[0] == tag[0] && s[1] == tag[1]
  {
  }

  lemma {:induction false} FieldBeforeComma(desc: string, rest: string)
    requires ',' !in desc && '\n' !in desc
    ensures FieldLength(desc + ("," + rest)) == |desc|
  {
    var s := desc + ("," + rest);
    if desc == [] {
      assert s[0] == ',';
    } else {
      assert s[1..] == desc[1..] + ("," + rest) && s[0] == desc[0];
      FieldBeforeComma(desc[1..], rest);
    }
  }

  // Every kind of line

  predicate Legal(s: string) { s != "" && AllAcceptable(s) }

  predicate Plain(s: string) { Legal(s) && !Has(s, "//") && !Has(s, "#") }

  predicate GoodField(s: string) { Has(s, "d=") && 1 <= FieldLength(Behind(s, "d=")) <= 29 }

  function Field(s: string): string
    requires Has(s, "d=")
  {
    Behind(s, "d=")[..FieldLength(Behind(s, "d="))]
  }

  predicate GivesSingle(s: string) {
    Plain(s) && Has(s, "f=") && 0 < Tagged(s, "f=") <= 7_500_000_000 && (Has(s, "d=") ==> GoodField(s))
  }

  predicate GivesRange(s: string) {
    && Plain(s) && !Has(s, "f=") && Has(s, "a=") && Has(s, "b=")
    && 0 < Tagged(s, "a=") < Tagged(s, "b=") <= 7_500_000_000 && GoodField(s)
  }

  /** What a range says about its step: nothing or zero, a number from 1 to 9, or another number. */
  function StepNumber(s: string): int { if Has(s, "s=") then Tagged(s, "s=") else 0 }

  /** Which lines give which kind of entry, for every line. */
  lemma KindsExactly(s: string, n: nat)
    ensures var kind := Classify(s, n).kind;
            && (kind == Single <==> GivesSingle(s))
            && (kind == Range <==> GivesRange(s))
            && (kind == Comment <==> Legal(s) && (Has(s, "//") || Has(s, "#")))
  {
    hide Has, AllAcceptable, FieldLength, Behind, Strtoll, DescriptionOf;
    FrequencyCases(s);
    CommentIsUseful(s);
  }

  lemma CommentIsUseful(s: string)
    ensures Has(s, "f=") || Has(s, "a=") || Has(s, "//") || Has(s, "#") ==> Useful(s)
  {
    hide Has;
  }

  /** What the entries hold, for every line. */
  lemma SingleEntry(s: string, n: nat)
    requires GivesSingle(s)
    ensures Classify(s, n) == Entry(Tagged(s, "f="), 0, if Has(s, "d=") then Field(s) else "---", Single, 0)
  {
    hide Has, AllAcceptable, FieldLength, Behind, Strtoll;
    assert LineCase(s) == 2;
  }

  lemma RangeEntry(s: string, n: nat)
    requires GivesRange(s)
    ensures var k := StepNumber(s);
            Classify(s, n) == Entry(Tagged(s, "a="), Tagged(s, "b="),
              if k == 0 then Field(s) else if 1 <= k <= 9 then Field(s) + "-" + ["0123456789"[k]] else Numbered(n, "Step Err"),
              Range, if 0 <= k <= 9 then k else 10)
  {
    hide Has, AllAcceptable, FieldLength, Behind, Strtoll, Padded, Numbered;
    var k := StepNumber(s);
    assert FrequencyCase(s) == 4 && DescriptionCase(s, 4) == 4;
    if 0 <= k <= 9 {
      OneDigit(k);
      assert LineCase(s) == 4;
      assert Field(s) + ("-" + ["0123456789"[k]]) == Field(s) + "-" + ["0123456789"[k]];
      assert Field(s) + "" == Field(s);
    } else {
      assert LineCase(s) == 16;
    }
  }

  lemma OneDigit(k: nat)
    requires k <= 9
    ensures Padded(Mod32(k), 0, ' ') == ["0123456789"[k]]
  {
    DigitOf(k);
    hide Digits, DigitChar;
    assert Mod32(k) == k;
  }

  lemma DigitOf(k: nat)
    requires k <= 9
    ensures Digits(k) == ["0123456789"[k]]
  {
    assert Digits(k) == [DigitChar(k)];
    hide Digits;
    if k < 5 {
      assert k == 0 || k == 1 || k == 2 || k == 3 || k == 4;
    } else {
      assert k == 5 || k == 6 || k == 7 || k == 8 || k == 9;
    }
  }

  lemma OtherEntries(s: string, n: nat)
    requires !GivesSingle(s) && !GivesRange(s)
    ensures var e := Classify(s, n);
            if Legal(s) && (Has(s, "//") || Has(s, "#")) then e == Entry(0, 0, s, Comment, 0)
            else e.kind == Error && e.step == 0 && Numbered(n, "") <= e.description
  {
    KindsExactly(s, n);
    hide Has, AllAcceptable, FieldLength, Behind, Strtoll, Padded, GivesSingle, GivesRange, IllegalText;
    FrequencyCases(s);
    CommentIsUseful(s);
    DescriptionCaseKeeps(s, 2);
    DescriptionCaseKeeps(s, 4);
  }

  // What is wrong with a line

  /** The text of an error for line number n, counting from zero. */
  function Message(n: nat, text: string): string { "[" + Digits(n + 1) + "]:" + text }

  lemma MessageIsNumbered(n: nat, text: string)
    requires n + 1 < 0x1_0000_0000
    ensures Numbered(n, text) == Message(n, text)
  {
    PlainDigits(n + 1);
    hide Digits, Padded;
  }

  /** A line that says nothing of use, or holds an illegal character. */
  lemma UselessLine(s: string, n: nat)
    requires n + 1 < 0x1_0000_0000
    ensures s == "" ==> Classify(s, n) == Entry(0, 0, Message(n, "Empty Line"), Error, 0)
    ensures s != "" && !Useful(s) ==> Classify(s, n) == Entry(0, 0, Message(n, "No Useful Info"), Error, 0)
  {
    MessageIsNumbered(n, "Empty Line");
    MessageIsNumbered(n, "No Useful Info");
    hide Has, Message, Numbered;
  }

  lemma IllegalLine(s: string, n: nat, i: nat)
    requires n + 1 < 0x1_0000_0000 && Useful(s) && i + 1 < 0x1_0000_0000
    requires i < |s| && !Acceptable(s[i]) && forall k :: 0 <= k < i ==> Acceptable(s[k])
    ensures var hex, c := "0123456789ABCDEF", s[i] as int;
            Classify(s, n) == Entry(0, 0,
              Message(n, "CAR:" + ("P:" + Digits(i + 1) + "<" + [s[i]] + "><" + [hex[c / 16 % 16], hex[c % 16]] + ">")), Error, 0)
  {
    assert !AllAcceptable(s);
    hide *;
    FirstIllegalAt(s, i);
    IllegalEntry(s, n);
    IllegalTextIs(i, s[i]);
    MessageIsNumbered(n, "CAR:" + IllegalText(i, s[i]));
  }

  lemma IllegalEntry(s: string, n: nat)
    requires Useful(s) && !AllAcceptable(s)
    ensures Classify(s, n) == Entry(0, 0, Numbered(n, "CAR:" + IllegalText(FirstIllegal(s), s[FirstIllegal(s)])), Error, 0)
  {
    hide Has, IllegalText, Numbered, FirstIllegal, AllAcceptable;
    NothingUsefulInNothing();
    assert LineCase(s) == 22;
  }

  lemma NothingUsefulInNothing()
    ensures !Useful("")
  {
  }

  lemma IllegalTextIs(i: nat, c: char)
    requires i + 1 < 0x1_0000_0000
    ensures var hex := "0123456789ABCDEF";
            IllegalText(i, c) == "P:" + Digits(i + 1) + "<" + [c] + "><" + [hex[c as int / 16 % 16], hex[c as int % 16]] + ">"
  {
    HexDigitIs(c as int / 16 % 16);
    HexDigitIs(c as int % 16);
    PlainDigits(i + 1);
    hide HexDigit, Digits, Padded;
  }

  lemma PlainDigits(n: nat)
    requires n < 0x1_0000_0000
    ensures Padded(Mod32(n), 0, ' ') == Digits(n)
  {
    hide Digits;
    assert Mod32(n) == n;
  }

  lemma HexDigitIs(d: nat)
    requires d < 16
    ensures HexDigit(d) == "0123456789ABCDEF"[d]
  {
    if d < 8 {
      assert d == 0 || d == 1 || d == 2 || d == 3 || d == 4 || d == 5 || d == 6 || d == 7;
    } else {
      assert d == 8 || d == 9 || d == 10 || d == 11 || d == 12 || d == 13 || d == 14 || d == 15;
    }
  }

  /** A frequency that is missing, out of band or out of order. */
  function FrequencyMessage(s: string): string {
    if Has(s, "f=") then "F: out of limit"
    else if !Has(s, "b=") then
      (if !Has(s, "a=") then "No Freq A: & B:" else if InBand(Tagged(s, "a=")) then "No B: but A:" else "A: out of limit")
    else if !InBand(Tagged(s, "b=")) then "B: out of limit"
    else if !Has(s, "a=") then "No A: but B:"
    else if Tagged(s, "a=") < Tagged(s, "b=") then "A: out of limit"
    else "Freq A: > B:"
  }

  predicate FrequenciesGood(s: string) {
    if Has(s, "f=") then InBand(Tagged(s, "f="))
    else Has(s, "a=") && Has(s, "b=") && 0 < Tagged(s, "a=") < Tagged(s, "b=") <= 7_500_000_000
  }

  /** A plain line fails for its frequencies first, and then for its description. */
  lemma PlainLineFails(s: string, n: nat)
    requires n + 1 < 0x1_0000_0000 && Plain(s) && Useful(s) && !GivesSingle(s) && !GivesRange(s)
    ensures var e := Classify(s, n);
            && e.kind == Error && e.step == 0
            && e.description == Message(n,
                 if !FrequenciesGood(s) then FrequencyMessage(s)
                 else if !Has(s, "d=") || FieldLength(Behind(s, "d=")) == 0 then "R w/o Description" else "D too long")
  {
    FrequencyCases(s);
    DescriptionCaseKeeps(s, 2);
    DescriptionCaseKeeps(s, 4);
    PlainCase(s);
    hide Has, AllAcceptable, FieldLength, Behind, Strtoll, Padded, GivesSingle, GivesRange, Message, Numbered, LineCase;
    MessageIsNumbered(n, CaseText(LineCase(s)));
  }

  lemma PlainCase(s: string)
    requires Plain(s) && Useful(s) && !GivesSingle(s) && !GivesRange(s)
    ensures LineCase(s) in {6, 7, 8, 9, 10, 12, 13, 14, 15}
    ensures CaseText(LineCase(s)) == if !FrequenciesGood(s) then FrequencyMessage(s)
              else if !Has(s, "d=") || FieldLength(Behind(s, "d=")) == 0 then "R w/o Description" else "D too long"
  {
    hide Has, AllAcceptable, FieldLength, Behind, Strtoll;
  }

  // A range with a step, as text

  /** What follows the description. */
  function StepPart(k: int, end: string): string { ",s=" + (SignedText(k) + end) }

  lemma SteppedParts(a: int, b: int, desc: string, k: int, end: string)
    ensures var A, B, tail, s := FrequencyText(a), FrequencyText(b), desc + StepPart(k, end), SteppedLine(a, b, desc, k, end);
            && s == RangeHead(a, b) + tail
            && s == "" + ("a=" + (A + (",b=" + B + ",d=" + tail)))
            && s == ("a=" + A + ",") + ("b=" + (B + (",d=" + tail)))
            && s == ("a=" + A + ",b=" + B + ",") + ("d=" + tail)
  {
    var A, B, tail := FrequencyText(a), FrequencyText(b), desc + StepPart(k, end);
    RegroupTail(RangeHead(a, b), desc, SignedText(k), end);
    hide FrequencyText, SignedText;
    FirstTag(A, B, tail);
    SecondTag(A, B, tail);
    LastTag("a=" + A + ",b=" + B, tail);
  }

  lemma RegroupTail(head: string, desc: string, number: string, end: string)
    ensures head + desc + ",s=" + number + end == head + (desc + (",s=" + (number + end)))
  {
  }

  lemma NumberCharacters(k: int)
    ensures forall c <- SignedText(k) :: IsDigit(c) || c == '-'
    ensures SignedText(k) != []
  {
  }

  lemma HeadCharacters(a: int, b: int)
    requires InBand(a) && InBand(b)
    ensures forall c <- RangeHead(a, b) :: IsDigit(c) || c in "ab=,d"
  {
    FrequencyReadsBack(a, []);
    FrequencyReadsBack(b, []);
    hide FrequencyText;
  }

  lemma StepPartCharacters(k: int, end: string)
    requires IsLineEnd(end)
    ensures forall c <- StepPart(k, end) :: IsDigit(c) || c in ",s=-\r"
    ensures StepPart(k, end)[0] == ','
  {
    NumberCharacters(k);
    hide SignedText;
  }

  lemma SteppedIsPlain(a: int, b: int, desc: string, k: int, end: string)
    requires InBand(a) && InBand(b) && PlainDescription(desc) && IsLineEnd(end)
    ensures Plain(SteppedLine(a, b, desc, k, end)) && !Has(SteppedLine(a, b, desc, k, end), "f=")
  {
    hide Has, SteppedLine, RangeHead, StepPart;
    var head, last := RangeHead(a, b), StepPart(k, end);
    var s := SteppedLine(a, b, desc, k, end);
    SteppedParts(a, b, desc, k, end);
    HeadCharacters(a, b);
    StepPartCharacters(k, end);
    TagInFront(desc, last, "//");
    TagInFront(desc, last, "f=");
    TagBehindHead(head, desc + last, "//");
    TagBehindHead(head, desc + last, "f=");
    HasMeansChar(s, '#');
    AllLegal(head, desc, last);
  }

  lemma AllLegal(head: string, desc: string, last: string)
    requires (forall c <- head :: Acceptable(c)) && (forall c <- desc :: Acceptable(c)) && (forall c <- last :: Acceptable(c))
    ensures AllAcceptable(head + (desc + last))
  {
    var s := head + (desc + last);
    forall i | 0 <= i < |s| ensures Acceptable(s[i]) {
      assert s[i] == if i < |head| then head[i] else if i < |head| + |desc| then desc[i - |head|] else last[i - |head| - |desc|];
    }
  }

  lemma SteppedNumbers(a: int, b: int, desc: string, k: int, end: string)
    requires InBand(a) && InBand(b) && PlainDescription(desc) && IsLineEnd(end)
    ensures var s := SteppedLine(a, b, desc, k, end);
            && Has(s, "a=") && Tagged(s, "a=") == a && Has(s, "b=") && Tagged(s, "b=") == b
            && Has(s, "d=") && Behind(s, "d=") == desc + StepPart(k, end)
            && Has(s, "s=") && Tagged(s, "s=") == Clamp64(k)
  {
    hide Has, Behind, FrequencyText, SteppedLine, SignedText, Strtoll, Clamp64;
    var A, B, tail := FrequencyText(a), FrequencyText(b), desc + StepPart(k, end);
    SteppedParts(a, b, desc, k, end);
    HeadCharacters(a, b);
    FrequencyReadsBack(a, ",b=" + B + ",d=" + tail);
    FrequencyReadsBack(b, ",d=" + tail);
    BehindTag("", "a=", A + (",b=" + B + ",d=" + tail));
    BehindTag("a=" + A + ",", "b=", B + (",d=" + tail));
    BehindTag("a=" + A + ",b=" + B + ",", "d=", tail);
    TagInFront(desc, ",", "s=");
    FirstTagBehind(desc + ",", "s=", SignedText(k) + end);
    assert tail == (desc + ",") + ("s=" + (SignedText(k) + end));
    TagBehindHead(RangeHead(a, b), tail, "s=");
    SignedReadsBack(k, end);
  }

  lemma SteppedField(a: int, b: int, desc: string, k: int, end: string)
    requires InBand(a) && InBand(b) && PlainDescription(desc) && IsLineEnd(end)
    ensures var s := SteppedLine(a, b, desc, k, end); GoodField(s) && Field(s) == desc
  {
    hide Has, Behind, SteppedLine, SignedText, FieldLength;
    SteppedNumbers(a, b, desc, k, end);
    var rest := "s=" + (SignedText(k) + end);
    assert desc + StepPart(k, end) == desc + ("," + rest);
    FieldBeforeComma(desc, rest);
  }

  /** A range with a step, for any step number and either line end: its frequencies, its description,
  and the step, which is an error unless it is one of 0 to 9. */
  lemma SteppedRange(a: int, b: int, desc: string, k: int, end: string, n: nat)
    requires InBand(a) && InBand(b) && a < b && PlainDescription(desc) && IsLineEnd(end)
    ensures Classify(SteppedLine(a, b, desc, k, end), n)
         == Entry(a, b,
              if k == 0 then desc else if 1 <= k <= 9 then desc + "-" + ["0123456789"[k]] else Numbered(n, "Step Err"),
              Range, if 0 <= k <= 9 then k else 10)
  {
    hide Has, Behind, SteppedLine, SignedText, FieldLength, Classify, Numbered, Clamp64, Plain, Tagged;
    var s := SteppedLine(a, b, desc, k, end);
    SteppedIsPlain(a, b, desc, k, end);
    SteppedNumbers(a, b, desc, k, end);
    SteppedField(a, b, desc, k, end);
    ClampedStep(k);
    RangeEntry(s, n);
  }

  // A file of 99 lines or more

  /** The hundredth entry only says that there were more lines. */
  lemma FullFile(lines: seq<string>)
    requires |lines| >= 99
    ensures var db := Loaded(lines);
            |db| == 100 && db[..99] == ClassifyAll(lines[..99]) && db[99] == Entry(0, 0, "[99]:Lines >99", Error, db[98].step)
  {
    NinetyNine();
    hide ClassifyAll, Padded;
  }

  lemma NinetyNine()
    ensures Padded(99, 0, ' ') == "99"
  {
    assert Digits(9) == ['9'];
    assert Digits(99) == Digits(9) + ['9'];
  }
}
