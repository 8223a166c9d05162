/** Which entries and which databases come back unchanged from a FREQMAN file: exactly those that
`FreqmanRoundTrip` shows to survive. */
module FreqmanExactness {
  import opened Numbers
  import opened FreqmanLines
  import opened FreqmanFile
  import opened FreqmanRoundTrip

  // One line

  function Line(e: Entry): string { Item(e) + "\r" }

  /** What stands before the description. */
  function Head(e: Entry): string
    requires e.kind == Single || e.kind == Range
  {
    if e.kind == Single then "f=" + FrequencyText(e.a) + ",d="
    else "a=" + FrequencyText(e.a) + ",b=" + FrequencyText(e.b) + ",d="
  }

  predicate FrequenciesFit(e: Entry) {
    match e.kind
    case Single => InBand(e.a) && e.b == 0
    case Range => InBand(e.a) && InBand(e.b) && e.a < e.b
    case _ => false
  }

  /** A tag is nowhere in a text that lacks its first character. */
  lemma {:induction false} NoTag(s: string, tag: string)
    requires |tag| == 2 && tag[0] !in s
    ensures !Has(s, tag)
  {
    if s != [] {
      NoTag(s[1..], tag);
    }
  }

  /** An entry that is neither a frequency nor a range is saved as an empty line, which is an error. */
  lemma EmptyLine(n: nat)
    ensures Classify("\r", n) == Entry(0, 0, Numbered(n, "No Useful Info"), Error, STEP_DEF)
  {
    NoTag("\r", "f=");
    NoTag("\r", "a=");
    NoTag("\r", "b=");
    NoTag("\r", "d=");
    NoTag("\r", "//");
    HasMeansChar("\r", '#');
    hide Has, Numbered;
    assert LineCase("\r") == 0;
  }

  lemma LastCharacter(n: nat, text: string, description: string)
    requires text != [] && text[|text| - 1] != '\r'
    ensures Numbered(n, text) != description + "\r"
  {
    hide Padded;
    var s := Numbered(n, text);
    assert s[|s| - 1] == text[|text| - 1];
  }

  lemma OtherKindsAreLost(e: Entry, n: nat)
    requires e.kind == Error || e.kind == Comment
    ensures Item(e) == [] && Line(e) == "\r" && Classify(Line(e), n) != Reloaded(e)
  {
    hide Classify, Numbered, Item, Line;
    LineOfOthers(e);
    EmptyLine(n);
    LastCharacter(n, "No Useful Info", e.description);
  }

  lemma LineOfOthers(e: Entry)
    requires e.kind == Error || e.kind == Comment
    ensures Item(e) == [] && Line(e) == "\r"
  {
  }

  /** A line without a description: a single frequency is given one, a range is an error. */
  lemma LostWithoutDescription(e: Entry, n: nat)
    requires FrequenciesFit(e) && e.description == []
    ensures Classify(Line(e), n) != Reloaded(e)
  {
    hide FrequencyText;
    FrequencyReadsBack(e.a, []);
    var line := Line(e);
    if e.kind == Single {
      assert line == "f=" + FrequencyText(e.a) + [] + "\r";
    } else {
      FrequencyReadsBack(e.b, []);
      assert line == "a=" + FrequencyText(e.a) + ",b=" + FrequencyText(e.b) + [] + "\r";
    }
    NoTag(line, "d=");
    hide Has, Item, Line, Tagged;
    NotReloaded(e, line, n);
  }

  lemma NotReloaded(e: Entry, line: string, n: nat)
    requires !Has(line, "d=") && FrequenciesFit(e) && e.description == []
    ensures Classify(line, n) != Reloaded(e)
  {
    hide Has, Tagged, AllAcceptable, FrequencyCase;
  }

  // A line with a description

  lemma DescribedLine(e: Entry)
    requires FrequenciesFit(e) && e.description != []
    ensures Line(e) == Head(e) + (e.description + "\r")
    ensures forall c <- Head(e) :: Acceptable(c) && c != 's' && c != '/' && c != '#'
    ensures e.kind == Range ==> 'f' !in Head(e)
    ensures |Head(e)| <= 50
  {
    FrequencyReadsBack(e.a, []);
    if e.kind == Single {
      SingleText(e);
    } else {
      FrequencyReadsBack(e.b, []);
      RangeText(e);
    }
    hide FrequencyText, Item;
  }

  lemma DescriptionBehindHead(e: Entry)
    requires FrequenciesFit(e) && e.description != []
    ensures Has(Line(e), "d=") && Behind(Line(e), "d=") == e.description + "\r"
  {
    FrequencyReadsBack(e.a, []);
    if e.kind == Single {
      SingleText(e);
      hide FrequencyText, Item, Has, Behind;
      BehindTag("f=" + FrequencyText(e.a) + ",", "d=", e.description + "\r");
    } else {
      FrequencyReadsBack(e.b, []);
      RangeText(e);
      hide FrequencyText, Item, Has, Behind;
      BehindTag("a=" + FrequencyText(e.a) + ",b=" + FrequencyText(e.b) + ",", "d=", e.description + "\r");
    }
  }

  /** A tag occurs in the line exactly when it occurs in the description. */
  lemma TagOfDescription(head: string, description: string, tag: string)
    requires |tag| == 2 && tag[0] !in head && tag[1] != '\r'
    ensures Has(head + (description + "\r"), tag) <==> Has(description, tag)
  {
    TagOnlyInDescription(head, description, tag);
    if Has(description, tag) {
      HasGivesPair(description, tag);
      var k := IndexOf(description, tag);
      hide Has, IndexOf;
      assert PairAt(head + (description + "\r"), tag, |head| + k);
      PairGivesHas(head + (description + "\r"), tag, |head| + k);
    }
  }

  /** What the classifier asks of a line with a description, in terms of the description. */
  lemma DescriptionDecides(e: Entry)
    requires FrequenciesFit(e) && e.description != []
    ensures AllAcceptable(Line(e)) <==> AllAcceptable(e.description)
    ensures IsComment(Line(e)) <==> Has(e.description, "//") || '#' in e.description
    ensures e.kind == Range ==> (Has(Line(e), "f=") <==> Has(e.description, "f="))
    ensures NoStep(Line(e)) <==> NoStep(e.description + "\r")
  {
    hide Has, Behind, Head, Line, Item, AllAcceptable, Strtoll;
    var head, tail := Head(e), e.description + "\r";
    DescribedLine(e);
    AcceptableParts(head, e.description);
    TagOfDescription(head, e.description, "//");
    HasMeansChar(Line(e), '#');
    TagBehindHead(head, tail, "s=");
    if e.kind == Range {
      TagOfDescription(head, e.description, "f=");
    }
  }

  lemma AcceptableParts(head: string, description: string)
    requires forall c <- head :: Acceptable(c)
    ensures AllAcceptable(head + (description + "\r")) <==> AllAcceptable(description)
  {
    var s := head + (description + "\r");
    if AllAcceptable(s) {
      forall i | 0 <= i < |description| ensures Acceptable(description[i]) {
        assert s[|head| + i] == description[i];
      }
    }
    if AllAcceptable(description) {
      forall i | 0 <= i < |s| ensures Acceptable(s[i]) {
        if i < |head| { assert s[i] in head; }
      }
    }
  }

  /** What the classifier has found when it returns a frequency or a range with the default step. */
  lemma AcceptedLine(s: string, n: nat)
    requires Has(s, "d=")
    requires var e := Classify(s, n); (e.kind == Single || e.kind == Range) && e.step == STEP_DEF
    ensures AllAcceptable(s) && !IsComment(s)
    ensures Classify(s, n).kind == Range ==> !Has(s, "f=") && NoStep(s)
    ensures var pos := Behind(s, "d="); 1 <= FieldLength(pos) < DESC_MAX_LEN && Classify(s, n).description == pos[..FieldLength(pos)]
  {
    hide Has, AllAcceptable, FieldLength, Strtoll, Behind;
    FrequencyCases(s);
  }

  lemma {:induction false} WholeField(s: string)
    requires FieldLength(s) == |s|
    ensures ',' !in s
  {
    if s != [] {
      WholeField(s[1..]);
      assert s == [s[0]] + s[1..];
    }
  }

  lemma AcceptedSurvives(e: Entry, n: nat)
    requires FrequenciesFit(e) && e.description != [] && Classify(Line(e), n) == Reloaded(e)
    ensures Survives(e)
  {
    hide Has, AllAcceptable, Line, Behind, FieldLength, NoStep;
    DescriptionBehindHead(e);
    AcceptedLine(Line(e), n);
    hide Classify;
    DescriptionDecides(e);
    var tail := e.description + "\r";
    assert |Reloaded(e).description| == |tail|;
    WholeField(tail);
    assert tail[..|tail| - 1] == e.description;
    WellBehavedParts(e.description);
  }

  lemma WellBehavedParts(description: string)
    requires 1 <= |description| && |description| + 1 < DESC_MAX_LEN && ',' !in description + "\r"
    requires AllAcceptable(description) && !Has(description, "//") && '#' !in description
    ensures WellBehaved(description)
  {
    forall c | c in description ensures Acceptable(c) && c != ',' {
      assert c in description + "\r";
    }
  }

  /** A saved line comes back as its entry exactly when the entry survives: for every entry. */
  lemma LineSurvivesExactly(e: Entry, n: nat)
    ensures Classify(Item(e) + "\r", n) == Reloaded(e) <==> Survives(e)
  {
    hide Classify, Item, WellBehaved, NoStep, Has;
    FrequenciesAreSane(Line(e), n);
    if Survives(e) {
      LineOf(e, n);
    } else if e.kind == Error || e.kind == Comment {
      OtherKindsAreLost(e, n);
    } else if Classify(Line(e), n) == Reloaded(e) {
      if e.description == [] { LostWithoutDescription(e, n); } else { AcceptedSurvives(e, n); }
    }
  }

  // Whole files

  function Newlines(s: string): nat {
    if s == [] then 0 else (if s[0] == '\n' then 1 else 0) + Newlines(s[1..])
  }

  lemma {:induction false} NewlinesConcat(a: string, b: string)
    ensures Newlines(a + b) == Newlines(a) + Newlines(b)
  {
    if a == [] {
      assert a + b == b;
    } else {
      assert (a + b)[1..] == a[1..] + b && (a + b)[0] == a[0];
      NewlinesConcat(a[1..], b);
    }
  }

  lemma {:induction false} NoNewlines(s: string)
    ensures Newlines(s) == 0 <==> '\n' !in s
  {
    if s != [] {
      NoNewlines(s[1..]);
      assert s == [s[0]] + s[1..];
    }
  }

  lemma {:induction false} LinesAreNewlines(s: string)
    ensures |SplitLines(s)| == Newlines(s)
    decreases |s|
  {
    hide SplitLines, Newlines;
    var i := IndexOf(s, "\n");
    LinesOf(s);
    if i < |s| {
      FirstOf(s);
      LinesAreNewlines(s[i + 1..]);
      NoNewlines(s[..i]);
      OneNewline();
      NewlinesConcat(s[..i], "\n");
      NewlinesConcat(s[..i] + "\n", s[i + 1..]);
      assert s == (s[..i] + "\n") + s[i + 1..];
    } else {
      NoFirst(s);
      NoNewlines(s);
    }
  }

  lemma OneNewline()
    ensures Newlines("\n") == 1 && Newlines("\r\n") == 1
  {
    assert "\r\n"[1..] == "\n" && "\n"[1..] == "";
  }

  lemma {:induction false} FirstOf(s: string)
    requires IndexOf(s, "\n") < |s|
    ensures var i := IndexOf(s, "\n"); s[i] == '\n' && '\n' !in s[..i]
  {
    StartsWithNewline(s);
    if s[0] != '\n' {
      FirstOf(s[1..]);
      var i := IndexOf(s[1..], "\n");
      assert s[..i + 1] == [s[0]] + s[1..][..i];
    }
  }

  lemma {:induction false} NoFirst(s: string)
    requires IndexOf(s, "\n") == |s|
    ensures '\n' !in s
  {
    if s != [] {
      StartsWithNewline(s);
      NoFirst(s[1..]);
      assert s == [s[0]] + s[1..];
    }
  }

  lemma CleanConcat(a: string, b: string)
    ensures Clean(a + b) == Clean(a) + Clean(b)
  {
  }

  lemma {:induction false} NewlinesOfClean(s: string)
    ensures Newlines(Clean(s)) == Newlines(s)
  {
    if s != [] {
      NewlinesOfClean(s[1..]);
      assert Clean(s)[1..] == Clean(s[1..]);
    }
  }

  predicate WholeLines(db: Database) { forall e <- db :: '\n' !in Item(e) }

  /** Every entry ends one line; there are no others exactly when no line is broken. */
  lemma {:induction false} SavedNewlines(db: Database)
    ensures Newlines(Saved(db)) >= |db|
    ensures Newlines(Saved(db)) == |db| ==> WholeLines(db)
  {
    hide Item, Newlines;
    if db == [] {
      NoNewlines("");
    } else {
      var init, item := db[..|db| - 1], Item(db[|db| - 1]);
      SavedNewlines(init);
      NewlinesConcat(Saved(init), item + "\r\n");
      NewlinesConcat(item, "\r\n");
      OneNewline();
      NoNewlines(item);
      assert db == init + [db[|db| - 1]];
    }
  }

  function CleanLines(db: Database): (lines: seq<string>)
    ensures |lines| == |db|
  {
    seq(|db|, n requires 0 <= n < |db| => Clean(Line(db[n])))
  }

  lemma {:induction false} LinesOfSaved(db: Database)
    requires WholeLines(db)
    ensures SplitLines(Clean(Saved(db))) == CleanLines(db) && Terminated(Clean(Saved(db)))
  {
    hide Item, Line, SplitLines, Saved, Clean;
    SavedStep(db);
    if db == [] {
      NoNewline([]);
    } else {
      var init, e := db[..|db| - 1], db[|db| - 1];
      LinesOfSaved(init);
      CleanConcat(Saved(init), Line(e) + "\n");
      CleanLineEnd(e);
      AppendLine(Clean(Saved(init)), Clean(Line(e)));
      assert CleanLines(db) == CleanLines(init) + [Clean(Line(e))];
    }
  }

  lemma CleanLineEnd(e: Entry)
    requires '\n' !in Item(e)
    ensures Line(e) == Item(e) + "\r"
    ensures Clean(Line(e) + "\n") == Clean(Line(e)) + "\n" && '\n' !in Clean(Line(e))
  {
    hide Item;
    forall k | 0 <= k < |Line(e)| ensures Clean(Line(e))[k] != '\n' {
      if k < |Item(e)| { assert Line(e)[k] in Item(e); }
    }
  }

  lemma LineLength(e: Entry)
    requires FrequenciesFit(e)
    ensures |Line(e)| <= 60 + |e.description|
  {
    FrequencyReadsBack(e.a, []);
    if e.kind == Range { FrequencyReadsBack(e.b, []); }
    hide FrequencyText;
  }

  /** The description that the classifier gives a frequency or a default-step range is short. */
  lemma ShortDescription(s: string, n: nat)
    requires var e := Classify(s, n); (e.kind == Single || e.kind == Range) && e.step == STEP_DEF
    ensures AllAcceptable(s) && |Classify(s, n).description| < DESC_MAX_LEN
  {
    hide Has, AllAcceptable, FieldLength, Strtoll, Behind;
    FrequencyCases(s);
  }

  /** Neither replaced NULs nor dropped blocks turn a line into one that gives the entry back. */
  lemma KeptLineSurvives(e: Entry, n: nat)
    requires Classify(KeptPart(Clean(Line(e))), n) == Reloaded(e)
    ensures Survives(e)
  {
    hide Classify, Item, Survives, AllAcceptable;
    if e.kind == Error || e.kind == Comment {
      OtherKindsAreLost(e, n);
      EmptyLineIsKept();
      assert false;
    } else {
      var kept := KeptPart(Clean(Line(e)));
      FrequenciesAreSane(kept, n);
      ShortDescription(kept, n);
      LineLength(e);
      assert kept == Clean(Line(e));
      CleanAndAcceptable(Line(e));
      LineSurvivesExactly(e, n);
    }
  }

  lemma EmptyLineIsKept()
    ensures KeptPart(Clean("\r")) == "\r"
  {
    assert Clean("\r") == "\r";
  }

  lemma CleanAndAcceptable(s: string)
    requires AllAcceptable(Clean(s))
    ensures Clean(s) == s
  {
    forall i | 0 <= i < |s| ensures Clean(s)[i] == s[i] {
      assert Acceptable(Clean(s)[i]);
    }
  }

  /** The entry that reports too many lines is never that of a saved line. */
  lemma ReportIsNotReloaded(e: Entry)
    ensures TooManyLines().description != Reloaded(e).description
  {
    var many := Padded(MAX_PER_FILE, 0, ' ');
    assert many == Digits(MAX_PER_FILE);
    hide Digits, Padded;
    var s := TooManyText(many);
    assert s[|s| - 1] == many[|many| - 1] && many[|many| - 1] in many;
  }

  /** A database comes back from its file, entry by entry, exactly when it has fewer than 99
  entries and all of them survive: for every database. */
  lemma SaveThenLoadExactly(db: Database)
    ensures Loaded(KeptLines(SplitLines(Clean(Saved(db))))) == ReloadedAll(db) <==> |db| < MAX_PER_FILE && AllSurvive(db)
  {
    if |db| < MAX_PER_FILE && AllSurvive(db) {
      SaveThenLoad(db);
    } else if Loaded(KeptLines(SplitLines(Clean(Saved(db))))) == ReloadedAll(db) {
      hide *;
      LoadedSurvives(db);
    }
  }

  lemma LoadedSurvives(db: Database)
    requires Loaded(KeptLines(FileLines(db))) == ReloadedAll(db)
    ensures |db| < MAX_PER_FILE && AllSurvive(db)
  {
    hide *;
    LinesAtLeast(db);
    LoadedLines(FileLines(db), db);
    KeptLinesSurvive(db);
  }

  /** The lines of the saved file, with NULs replaced. */
  function FileLines(db: Database): seq<string> { SplitLines(Clean(Saved(db))) }

  lemma LinesAtLeast(db: Database)
    ensures |FileLines(db)| >= |db|
    ensures |FileLines(db)| == |db| ==> FileLines(db) == CleanLines(db)
  {
    hide SplitLines, Clean, Saved, CleanLines, WholeLines, Newlines;
    LinesAreNewlines(Clean(Saved(db)));
    NewlinesOfClean(Saved(db));
    SavedNewlines(db);
    if |FileLines(db)| == |db| { LinesOfSaved(db); }
  }

  lemma LoadedLines(lines: seq<string>, db: Database)
    requires Loaded(KeptLines(lines)) == ReloadedAll(db) && |lines| >= |db|
    ensures |lines| == |db| < MAX_PER_FILE && ClassifyAll(KeptLines(lines)) == ReloadedAll(db)
  {
    hide ClassifyAll, KeptLines, TooManyLines, Reloaded;
    if |lines| >= MAX_PER_FILE {
      ReportIsLast(KeptLines(lines));
      ReportIsNotReloaded(db[MAX_PER_FILE]);
      assert false;
    }
  }

  lemma ReportIsLast(lines: seq<string>)
    requires |lines| >= MAX_PER_FILE
    ensures |Loaded(lines)| == MAX_PER_FILE + 1
    ensures Loaded(lines)[MAX_PER_FILE].description == TooManyLines().description
  {
    hide ClassifyAll;
  }

  lemma KeptLinesSurvive(db: Database)
    requires ClassifyAll(KeptLines(CleanLines(db))) == ReloadedAll(db)
    ensures AllSurvive(db)
  {
    hide Classify, Reloaded, Survives, KeptPart, Clean, Line;
    forall n | 0 <= n < |db| ensures Survives(db[n]) {
      assert ClassifyAll(KeptLines(CleanLines(db)))[n] == ReloadedAll(db)[n];
      KeptLineSurvives(db[n], n);
    }
  }
}
