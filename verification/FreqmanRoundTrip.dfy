/** Saving a FREQMAN database (`save_freqman_file`) and loading it again. */
module FreqmanRoundTrip {
  import opened Numbers
  import opened FreqmanLines
  import opened FreqmanFile
  import Simd

  // The writer

  /** The 64-bit quotient and remainder, truncated to the 32 bits that the printer takes. */
  function Thousands(f: int): UInt32 { Mod32(Simd.TruncDiv(f, 1000)) }

  function Units(f: int): UInt32 { Mod32(f - 1000 * Simd.TruncDiv(f, 1000)) }

  function FrequencyText(f: int): string {
    Padded(Thousands(f), 0, ' ') + Padded(Units(f), 3, '0')
  }

  function DescriptionField(e: Entry): string {
    if e.description == [] then [] else ",d=" + e.description
  }

  /** Errors and comments are saved as empty lines. */
  function Item(e: Entry): string {
    match e.kind
    case Single => "f=" + FrequencyText(e.a) + DescriptionField(e)
    case Range => "a=" + FrequencyText(e.a) + ",b=" + FrequencyText(e.b) + DescriptionField(e)
    case _ => []
  }

  function Saved(db: Database): string {
    if db == [] then [] else Saved(db[..|db| - 1]) + (Item(db[|db| - 1]) + "\r\n")
  }

  method PrintFrequency(f: int) returns (s: string)
    ensures s == FrequencyText(f)
  {
    var high := ToStringDecUint(Thousands(f), 0, ' ');
    var low := ToStringDecUint(Units(f), 3, '0');
    s := high + low;
  }

  method Save(db: Database, creates: bool) returns (ok: bool, file: string)
    ensures ok == creates
    ensures file == if creates then Saved(db) else []
  {
    hide FrequencyText;
    file := [];
    if !creates { return false, file; }
    for n := 0 to |db|
      invariant file == Saved(db[..n])
    {
      var e := db[n];
      var item := [];
      match e.kind {
        case Single =>
          var a := PrintFrequency(e.a);
          item := "f=" + a;
          if e.description != [] { item := item + (",d=" + e.description); }
          else { assert item == item + []; }
        case Range =>
          var a := PrintFrequency(e.a);
          var b := PrintFrequency(e.b);
          item := "a=" + a;
          item := item + ",b=" + b;
          if e.description != [] { item := item + (",d=" + e.description); }
          else { assert item == item + []; }
        case _ =>
      }
      assert item == Item(e);
      assert db[..n + 1][..n] == db[..n];
      file := file + (item + "\r\n");
    }
    assert db[..|db|] == db;
    ok := true;
  }

  // Searching

  /** A two-character tag. */
  predicate PairAt(s: string, tag: string, k: int)
    requires |tag| == 2
  {
    0 <= k < |s| - 1 && s[k] == tag[0] && s[k + 1] == tag[1]
  }

  lemma {:induction false} PairGivesHas(s: string, tag: string, k: nat)
    requires |tag| == 2 && PairAt(s, tag, k)
    ensures Has(s, tag)
  {
    if k == 0 {
      assert tag == s[..2];
    } else {
      PairGivesHas(s[1..], tag, k - 1);
    }
  }

  lemma {:induction false} HasGivesPair(s: string, tag: string)
    requires |tag| == 2 && Has(s, tag)
    ensures PairAt(s, tag, IndexOf(s, tag))
  {
    if tag <= s {
      assert s[0] == tag[0] && s[1] == tag[1];
    } else {
      HasGivesPair(s[1..], tag);
    }
  }

  lemma {:induction false} HasMeansChar(s: string, c: char)
    ensures Has(s, [c]) <==> c in s
  {
    if s != [] {
      HasMeansChar(s[1..], c);
      assert [c] <= s <==> s[0] == c;
    }
  }

  /** A tag that cannot start in `head` is the first one of `tail`. */
  lemma {:induction false} TagBehindHead(head: string, tail: string, tag: string)
    requires |tag| == 2 && tag[0] !in head
    ensures Has(head + tail, tag) <==> Has(tail, tag)
    ensures Has(tail, tag) ==> Behind(head + tail, tag) == Behind(tail, tag)
  {
    if head == [] {
      assert head + tail == tail;
    } else {
      var s := head + tail;
      assert s[1..] == head[1..] + tail && s[0] == head[0];
      LaterTag(s, tag);
      TagBehindHead(head[1..], tail, tag);
      hide *;
    }
  }

  lemma LaterTag(s: string, tag: string)
    requires |tag| == 2 && s != [] && s[0] != tag[0]
    ensures Has(s, tag) <==> Has(s[1..], tag)
    ensures Has(s, tag) ==> Behind(s, tag) == Behind(s[1..], tag)
  {
    assert !(tag <= s);
    assert IndexOf(s, tag) == 1 + IndexOf(s[1..], tag);
    hide IndexOf;
  }

  /** The text behind the first occurrence of a tag. */
  lemma BehindTag(prefix: string, tag: string, rest: string)
    requires |tag| == 2 && tag[0] !in prefix
    ensures var s := prefix + (tag + rest); Has(s, tag) && Behind(s, tag) == rest
  {
    assert IndexOf(tag + rest, tag) == 0 && (tag + rest)[2..] == rest;
    hide IndexOf;
    TagBehindHead(prefix, tag + rest, tag);
  }

  lemma PairInDescription(head: string, desc: string, tag: string, k: nat)
    requires |tag| == 2 && tag[0] !in head && tag[1] != '\r'
    requires PairAt(head + (desc + "\r"), tag, k)
    ensures k >= |head| && PairAt(desc, tag, k - |head|)
  {
    var s := head + (desc + "\r");
    forall i | 0 <= i < |head| ensures s[i] != tag[0] {
      assert head[i] in head;
    }
  }

  /** A tag occurs in `head + desc + "\r"` only inside `desc`, if `head` lacks its first
      character and its second is not a carriage return. */
  lemma TagOnlyInDescription(head: string, desc: string, tag: string)
    requires |tag| == 2 && tag[0] !in head && tag[1] != '\r'
    ensures Has(head + (desc + "\r"), tag) ==> Has(desc, tag)
  {
    var s := head + (desc + "\r");
    if Has(s, tag) {
      HasGivesPair(s, tag);
      PairInDescription(head, desc, tag, IndexOf(s, tag));
      PairGivesHas(desc, tag, IndexOf(s, tag) - |head|);
    }
  }

  lemma {:induction false} FieldEnds(s: string)
    requires ',' !in s && '\n' !in s
    ensures FieldLength(s) == |s|
  {
    if s != [] {
      assert s[0] in s;
      FieldEnds(s[1..]);
    }
  }

  // Entries that survive

  predicate WellBehaved(desc: string) {
    && 1 <= |desc| && |desc| + 1 < DESC_MAX_LEN
    && (forall c <- desc :: Acceptable(c) && c != ',' && c != '#')
    && !Has(desc, "//")
  }

  /** What stands behind the first "s=", if there is one, reads as zero: the default step. */
  predicate NoStep(text: string) { Has(text, "s=") ==> Tagged(text, "s=") == 0 }

  predicate Survives(e: Entry) {
    match e.kind
    case Single => InBand(e.a) && e.b == 0 && WellBehaved(e.description)
    case Range => InBand(e.a) && InBand(e.b) && e.a < e.b && WellBehaved(e.description)
                  && !Has(e.description, "f=") && NoStep(e.description + "\r")
    case _ => false
  }

  /** The carriage return of the line end becomes part of the description; steps are not saved. */
  function Reloaded(e: Entry): Entry { e.(description := e.description + "\r", step := STEP_DEF) }

  /** The characters of a printed frequency, and what it reads back as. */
  lemma FrequencyReadsBack(f: int, rest: string)
    requires InBand(f)
    requires rest == [] || !IsDigit(rest[0])
    ensures forall c <- FrequencyText(f) :: IsDigit(c)
    ensures 1 <= |FrequencyText(f)| <= 20
    ensures Strtoll(FrequencyText(f) + rest) == f
  {
    hide Digits, Strtoll;
    assert Thousands(f) == f / 1000 && Units(f) == f % 1000;
    assert Padded(f / 1000, 0, ' ') == Digits(f / 1000);
    SplitNumberReadsBack(f, rest);
    TenDigits(f / 1000);
    TenDigits(f % 1000);
  }

  lemma SingleLine(e: Entry, n: nat)
    requires e.kind == Single && Survives(e)
    ensures Classify(Item(e) + "\r", n) == Reloaded(e)
    ensures LineShape(Item(e) + "\r")
  {
    hide FrequencyText, Strtoll, Has, Behind, FieldLength, AllAcceptable, Item;
    var d, tail := FrequencyText(e.a), e.description + "\r";
    var s, head := Item(e) + "\r", "f=" + d + ",d=";
    FrequencyReadsBack(e.a, ",d=" + tail);
    BehindTag("", "f=", d + (",d=" + tail));
    BehindTag("f=" + d + ",", "d=", tail);
    SingleText(e);
    DescriptionTail(e.description, head);
    TagOnlyInDescription(head, e.description, "//");
    ShapeOfParts(head, e.description);
  }

  lemma RangeLine(e: Entry, n: nat)
    requires e.kind == Range && Survives(e)
    ensures Classify(Item(e) + "\r", n) == Reloaded(e)
    ensures LineShape(Item(e) + "\r")
  {
    hide FrequencyText, Strtoll, Has, Behind, FieldLength, AllAcceptable, Item;
    var a, b, tail := FrequencyText(e.a), FrequencyText(e.b), e.description + "\r";
    var s, head := Item(e) + "\r", "a=" + a + ",b=" + b + ",d=";
    RangeText(e);
    FrequencyReadsBack(e.a, ",b=" + b + ",d=" + tail);
    FrequencyReadsBack(e.b, ",d=" + tail);
    BehindTag("", "a=", a + (",b=" + b + ",d=" + tail));
    BehindTag("a=" + a + ",", "b=", b + (",d=" + tail));
    BehindTag("a=" + a + ",b=" + b + ",", "d=", tail);
    DescriptionTail(e.description, head);
    TagOnlyInDescription(head, e.description, "//");
    TagOnlyInDescription(head, e.description, "f=");
    TagBehindHead(head, tail, "s=");
    ShapeOfParts(head, e.description);
  }

  /** The three ways in which the line of a single frequency is taken apart. */
  lemma SingleText(e: Entry)
    requires e.kind == Single && e.description != []
    ensures var d, tail, s := FrequencyText(e.a), e.description + "\r", Item(e) + "\r";
            && s == "" + ("f=" + (d + (",d=" + tail)))
            && s == ("f=" + d + ",") + ("d=" + tail)
            && s == ("f=" + d + ",d=") + tail
  {
    hide FrequencyText;
  }

  /** The four ways in which the line of a range is taken apart. */
  lemma RangeText(e: Entry)
    requires e.kind == Range && e.description != []
    ensures var a, b, tail, s := FrequencyText(e.a), FrequencyText(e.b), e.description + "\r", Item(e) + "\r";
            && s == "" + ("a=" + (a + (",b=" + b + ",d=" + tail)))
            && s == ("a=" + a + ",") + ("b=" + (b + (",d=" + tail)))
            && s == ("a=" + a + ",b=" + b + ",") + ("d=" + tail)
            && s == ("a=" + a + ",b=" + b + ",d=") + tail
  {
    var a, b, tail := FrequencyText(e.a), FrequencyText(e.b), e.description + "\r";
    hide *;
    RangeItem(e);
    FirstTag(a, b, tail);
    SecondTag(a, b, tail);
    LastTag("a=" + a + ",b=" + b, tail);
  }

  lemma RangeItem(e: Entry)
    requires e.kind == Range && e.description != []
    ensures Item(e) + "\r"
         == ("a=" + FrequencyText(e.a) + ",b=" + FrequencyText(e.b) + ",d=") + (e.description + "\r")
  {
    hide FrequencyText;
  }

  lemma FirstTag(a: string, b: string, tail: string)
    ensures ("a=" + a + ",b=" + b + ",d=") + tail == "" + ("a=" + (a + (",b=" + b + ",d=" + tail)))
  {
  }

  lemma SecondTag(a: string, b: string, tail: string)
    ensures ("a=" + a + ",b=" + b + ",d=") + tail == ("a=" + a + ",") + ("b=" + (b + (",d=" + tail)))
  {
  }

  lemma LastTag(head: string, tail: string)
    ensures (head + ",d=") + tail == (head + ",") + ("d=" + tail)
  {
  }

  lemma DescriptionTail(desc: string, head: string)
    requires WellBehaved(desc) && '#' !in head
    ensures FieldLength(desc + "\r") == |desc| + 1
    ensures !Has(head + (desc + "\r"), "#")
  {
    hide FieldLength, Has;
    assert ',' !in desc && '#' !in desc && '\n' !in desc;
    FieldEnds(desc + "\r");
    HasMeansChar(head + (desc + "\r"), '#');
  }

  predicate LineShape(s: string) { |s| < BLOCK && AllAcceptable(s) }

  lemma ShapeOfParts(head: string, desc: string)
    requires WellBehaved(desc) && |head| <= 50 && forall c <- head :: Acceptable(c)
    ensures LineShape(head + (desc + "\r"))
  {
    var s := head + (desc + "\r");
    forall i | 0 <= i < |s| ensures Acceptable(s[i]) {
      if i < |head| { assert s[i] in head; } else if i < |head| + |desc| { assert s[i] in desc; }
    }
  }

  // Whole files

  predicate AllSurvive(db: Database) { forall e <- db :: Survives(e) }

  function ReloadedAll(db: Database): (r: Database)
    ensures |r| == |db|
  {
    seq(|db|, n requires 0 <= n < |db| => Reloaded(db[n]))
  }

  function ItemLines(db: Database): (r: seq<string>)
    ensures |r| == |db|
  {
    seq(|db|, n requires 0 <= n < |db| => Item(db[n]) + "\r")
  }

  lemma LineOf(e: Entry, n: nat)
    requires Survives(e)
    ensures Classify(Item(e) + "\r", n) == Reloaded(e) && LineShape(Item(e) + "\r")
  {
    if e.kind == Single { SingleLine(e, n); } else { RangeLine(e, n); }
  }

  /** Appending one terminated line to terminated lines. */
  lemma {:induction false} AppendLine(s: string, line: string)
    requires Terminated(s) && '\n' !in line
    ensures SplitLines(s + (line + "\n")) == SplitLines(s) + [line]
    decreases |s|
  {
    hide *;
    var more := line + "\n";
    if s == [] {
      assert s + more == more;
      LastLine(line);
    } else {
      var i := IndexOf(s, "\n");
      FirstLineOfLonger(s, more);
      LaterLines(s, more, i);
      RestTerminated(s, i);
      AppendLine(s[i + 1..], line);
      LinesOf(s);
      LinesOf(s + more);
      OneAtEachEnd(s[..i], SplitLines(s[i + 1..]), line);
    }
  }

  lemma FirstLineOfLonger(s: string, more: string)
    requires s != [] && Terminated(s)
    ensures IndexOf(s, "\n") < |s| && IndexOf(s + more, "\n") == IndexOf(s, "\n")
  {
    hide IndexOf;
    FirstNewline(s);
    NewlineAt(s + more, IndexOf(s, "\n"));
  }

  lemma OneAtEachEnd(first: string, lines: seq<string>, last: string)
    ensures [first] + (lines + [last]) == [first] + lines + [last]
  {
  }

  lemma LastLine(line: string)
    requires '\n' !in line
    ensures SplitLines(line + "\n") == [line] && SplitLines([]) == []
  {
    hide SplitLines, IndexOf;
    var t := line + "\n";
    LinesOf(t);
    NewlineAt(t, |line|);
    assert t[..|line|] == line && t[|line| + 1..] == [];
    NoNewline([]);
  }

  lemma LaterLines(s: string, more: string, i: nat)
    requires i < |s|
    ensures (s + more)[..i] == s[..i] && (s + more)[i + 1..] == s[i + 1..] + more
  {
  }

  lemma RestTerminated(s: string, i: nat)
    requires Terminated(s) && i < |s|
    ensures Terminated(s[i + 1..])
  {
  }

  predicate Terminated(s: string) { s == [] || s[|s| - 1] == '\n' }

  lemma {:induction false} FirstNewline(s: string)
    requires s != [] && Terminated(s)
    ensures var i := IndexOf(s, "\n"); i < |s| && s[i] == '\n' && forall k :: 0 <= k < i ==> s[k] != '\n'
  {
    StartsWithNewline(s);
    if s[0] != '\n' {
      FirstNewline(s[1..]);
    }
  }

  lemma {:induction false} SavedLines(db: Database)
    requires AllSurvive(db)
    ensures SplitLines(Saved(db)) == ItemLines(db) && Terminated(Saved(db))
    ensures Clean(Saved(db)) == Saved(db)
  {
    hide Item, SplitLines, Survives, Saved, Clean;
    SavedStep(db);
    if db == [] {
      NoNewline([]);
    } else {
      var init, e := db[..|db| - 1], db[|db| - 1];
      SavedLines(init);
      LineOf(e, 0);
      var line := Item(e) + "\r";
      CleanLine(Saved(init), line);
      AppendLine(Saved(init), line);
      assert ItemLines(db) == ItemLines(init) + [line];
    }
  }

  lemma SavedStep(db: Database)
    ensures db == [] ==> Saved(db) == [] && Clean(Saved(db)) == []
    ensures db != [] ==> Saved(db) == Saved(db[..|db| - 1]) + ((Item(db[|db| - 1]) + "\r") + "\n")
  {
    hide Item;
    if db != [] {
      assert Item(db[|db| - 1]) + "\r\n" == (Item(db[|db| - 1]) + "\r") + "\n";
    }
  }

  lemma CleanLine(s: string, line: string)
    requires Clean(s) == s && AllAcceptable(line)
    ensures Clean(s + (line + "\n")) == s + (line + "\n") && '\n' !in line
  {
    var t := s + (line + "\n");
    forall k | 0 <= k < |t| ensures Clean(t)[k] == t[k] {
      if k < |s| { assert Clean(s)[k] == s[k]; }
    }
  }

  /** Saving fewer than 99 well-formed entries and loading the file gives the entries back, in
      order: kinds, frequencies, and descriptions up to the carriage return of the line end. */
  lemma SaveThenLoad(db: Database)
    requires |db| < MAX_PER_FILE && AllSurvive(db)
    ensures Loaded(KeptLines(SplitLines(Clean(Saved(db))))) == ReloadedAll(db)
  {
    hide Item, SplitLines, Survives, Classify, Reloaded;
    SavedLines(db);
    var lines := ItemLines(db);
    forall n | 0 <= n < |db| ensures KeptPart(lines[n]) == lines[n] && Classify(lines[n], n) == Reloaded(db[n]) {
      assert db[n] in db;
      LineOf(db[n], n);
    }
    assert KeptLines(lines) == lines;
  }

  /** The first 99 lines that the loader sees are the plain lines of the file if and only if
      each of them fits in a block together with its newline. */
  lemma PlainSplitExactlyWhenLinesFit(lines: seq<string>)
    ensures FirstLines(KeptLines(lines)) == FirstLines(lines) <==>
            forall i :: 0 <= i < |FirstLines(lines)| ==> |lines[i]| + 1 <= BLOCK
  {
    var n := |FirstLines(lines)|;
    forall i | 0 <= i < n ensures FirstLines(KeptLines(lines))[i] == FirstLines(lines)[i] <==> |lines[i]| < BLOCK {
      KeptIsShort(lines[i]);
    }
    assert FirstLines(KeptLines(lines)) == FirstLines(lines) <==>
           forall i :: 0 <= i < n ==> FirstLines(KeptLines(lines))[i] == FirstLines(lines)[i];
  }

  function FirstLines(lines: seq<string>): seq<string> {
    if |lines| < MAX_PER_FILE then lines else lines[..MAX_PER_FILE]
  }

  lemma {:induction false} KeptIsShort(line: string)
    ensures |KeptPart(line)| < BLOCK
  {
    if |line| >= BLOCK {
      KeptIsShort(line[BLOCK..]);
    }
  }
}
