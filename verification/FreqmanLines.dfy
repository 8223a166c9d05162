/** What one line of a FREQMAN file means: the classifier of `load_freqman_file` in
firmware/application/freqman.cpp, with its running case number, against a decision table. */
module FreqmanLines {
  import opened Numbers

  const MAX_FREQUENCY := 7_500_000_000
  const DESC_MAX_LEN: nat := 30

  datatype Kind = Single | Range | Error | Comment

  /** `step` is the index of the step in its enumeration: 0 is the default, 10 an error. */
  datatype Entry = Entry(a: int, b: int, description: string, kind: Kind, step: nat)

  const STEP_DEF: nat := 0
  const ERROR_STEP: nat := 10

  // strstr and strcspn

  /** The first position of `pat`, or |s| if there is none. */
  function IndexOf(s: string, pat: string): (i: nat)
    ensures i <= |s|
    ensures i < |s| ==> pat <= s[i..]
  {
    if s == [] then 0 else if pat <= s then 0 else 1 + IndexOf(s[1..], pat)
  }

  predicate Has(s: string, pat: string) { IndexOf(s, pat) < |s| }

  /** The text behind the first occurrence of a two-character tag. */
  function Behind(s: string, tag: string): string
    requires |tag| == 2 && Has(s, tag)
  {
    s[IndexOf(s, tag) + 2..]
  }

  /** The length of the text before the first comma or line feed. */
  function FieldLength(s: string): (n: nat)
    ensures n <= |s|
  {
    if s == [] || s[0] == ',' || s[0] == '\n' then 0 else 1 + FieldLength(s[1..])
  }

  predicate InBand(f: int) { 0 < f <= MAX_FREQUENCY }

  function Tagged(s: string, tag: string): int
    requires |tag| == 2 && Has(s, tag)
  {
    Strtoll(Behind(s, tag))
  }

  predicate Acceptable(c: char) { ' ' <= c <= '~' || c == '\r' }

  predicate AllAcceptable(s: string) { forall i :: 0 <= i < |s| ==> Acceptable(s[i]) }

  /** The position of the first illegal character. */
  function FirstIllegal(s: string): (i: nat)
    ensures i <= |s| && (i == |s| <==> AllAcceptable(s))
    ensures i < |s| ==> !Acceptable(s[i])
  {
    if s == [] || !Acceptable(s[0]) then 0 else
      var i := FirstIllegal(s[1..]);
      assert AllAcceptable(s) <==> AllAcceptable(s[1..]);
      i + 1
  }

  function HexDigit(d: nat): char
    requires d < 16
  {
    if d > 9 then (d + 55) as char else (d + 48) as char
  }

  /** Where the character stands, counted from one, and its two hexadecimal digits. */
  function IllegalText(i: nat, c: char): string {
    "P:" + Padded(Mod32(i + 1), 0, ' ') + "<" + [c] + "><" + [HexDigit(c as int / 16 % 16), HexDigit(c as int % 16)] + ">"
  }

  // The decision table

  predicate Useful(s: string) {
    Has(s, "f=") || Has(s, "a=") || Has(s, "b=") || Has(s, "d=") || Has(s, "//") || Has(s, "#")
  }

  predicate IsComment(s: string) { Has(s, "//") || Has(s, "#") }

  /** The case number of a line that gives a single frequency or a range with no description
      considered yet. */
  function FrequencyCase(s: string): nat {
    if Has(s, "f=") then (if InBand(Tagged(s, "f=")) then 2 else 12)
    else if !Has(s, "a=") && !Has(s, "b=") then 10
    else if !Has(s, "b=") then (if InBand(Tagged(s, "a=")) then 7 else 13)
    else if !InBand(Tagged(s, "b=")) then 14
    else if !Has(s, "a=") then 6
    else if Tagged(s, "a=") >= Tagged(s, "b=") then 15
    else if !InBand(Tagged(s, "a=")) then 13
    else 4
  }

  /** A description must be shorter than 30 characters and not empty; only ranges need one. */
  function DescriptionCase(s: string, cas: nat): nat {
    if !Has(s, "d=") then (if cas == 4 then 8 else cas)
    else if FieldLength(Behind(s, "d=")) == 0 then 8
    else if FieldLength(Behind(s, "d=")) >= DESC_MAX_LEN then 9
    else cas
  }

  function StepCase(s: string): nat {
    if Has(s, "s=") && !(0 <= Tagged(s, "s=") <= 9) then 16 else 4
  }

  function LineCase(s: string): nat {
    if s == [] then 11
    else if !Useful(s) then 0
    else if !AllAcceptable(s) then 22
    else if IsComment(s) then 21
    else
      var c := FrequencyCase(s);
      if c != 2 && c != 4 then c
      else
        var d := DescriptionCase(s, c);
        if d == 4 then StepCase(s) else d
  }

  function KindOf(cas: nat): Kind {
    match cas
    case 2 => Single
    case 4 => Range
    case 16 => Range
    case 21 => Comment
    case _ => Error
  }

  function StepOf(s: string, cas: nat): nat {
    if cas == 16 then ERROR_STEP
    else if cas == 4 && Has(s, "s=") && 0 <= Tagged(s, "s=") <= 9 then Tagged(s, "s=")
    else STEP_DEF
  }

  function Numbered(n: nat, text: string): string { "[" + Padded(Mod32(n + 1), 0, ' ') + "]:" + text }

  function Mod32(n: int): UInt32 { n % 0x1_0000_0000 }

  function CaseText(cas: nat): string {
    match cas
    case 0 => "No Useful Info"
    case 3 => "No Freq B:"
    case 5 => "No F + D"
    case 6 => "No A: but B:"
    case 7 => "No B: but A:"
    case 8 => "R w/o Description"
    case 9 => "D too long"
    case 10 => "No Freq A: & B:"
    case 11 => "Empty Line"
    case 12 => "F: out of limit"
    case 13 => "A: out of limit"
    case 14 => "B: out of limit"
    case 15 => "Freq A: > B:"
    case 16 => "Step Err"
    case 20 => "UNKNOWN"
    case 22 => "CAR:"
    case _ => "ERROR"
  }

  function Described(s: string): string {
    if Has(s, "d=") then Behind(s, "d=")[..FieldLength(Behind(s, "d="))] else "---"
  }

  function DescriptionOf(s: string, n: nat, cas: nat): string {
    if cas == 2 then Described(s)
    else if cas == 4 then
      Described(s) + (if StepOf(s, cas) == STEP_DEF then "" else "-" + Padded(Mod32(StepOf(s, cas)), 0, ' '))
    else if cas == 21 then s
    else if cas == 22 && !AllAcceptable(s) then Numbered(n, CaseText(cas) + IllegalText(FirstIllegal(s), s[FirstIllegal(s)]))
    else Numbered(n, CaseText(cas))
  }

  /** Frequencies found out of limit or out of order are zeroed; a range keeps the others. */
  function FirstFrequency(s: string, cas: nat): int {
    if cas == 0 || cas == 11 || cas == 21 || cas == 22 || cas == 12 || cas == 13 || cas == 15 then 0
    else if Has(s, "f=") then Tagged(s, "f=")
    else if Has(s, "a=") then Tagged(s, "a=") else 0
  }

  function SecondFrequency(s: string, cas: nat): int {
    if cas == 0 || cas == 11 || cas == 21 || cas == 22 || cas == 14 || cas == 15 then 0
    else if !Has(s, "f=") && Has(s, "b=") then Tagged(s, "b=") else 0
  }

  /** The entry for line number `n` (counting from zero). */
  function Classify(s: string, n: nat): Entry {
    var cas := LineCase(s);
    Entry(FirstFrequency(s, cas), SecondFrequency(s, cas), DescriptionOf(s, n, cas), KindOf(cas), StepOf(s, cas))
  }

  /** Every single entry lies in the band and every range is an ordered pair in the band. */
  lemma FrequenciesAreSane(s: string, n: nat)
    ensures var e := Classify(s, n);
            && (e.kind == Single ==> InBand(e.a) && e.b == 0)
            && (e.kind == Range ==> InBand(e.a) && InBand(e.b) && e.a < e.b)
  {
    hide Tagged, Has, DescriptionOf, StepOf, AllAcceptable, DescriptionCase;
    DescriptionCaseKeeps(s, FrequencyCase(s));
  }

  lemma DescriptionCaseKeeps(s: string, cas: nat)
    ensures DescriptionCase(s, cas) == cas || DescriptionCase(s, cas) == 8 || DescriptionCase(s, cas) == 9
  {
  }

  // The classifier, as it runs

  method ReadFrequencies(s: string) returns (a: int, b: int, cas: nat, kind: Kind)
    ensures cas == FrequencyCase(s)
    ensures cas == 2 ==> kind == Single
    ensures cas == 4 ==> kind == Range
    ensures a == (if Has(s, "f=") then Tagged(s, "f=") else if Has(s, "a=") then Tagged(s, "a=") else 0)
    ensures b == (if !Has(s, "f=") && Has(s, "b=") then Tagged(s, "b=") else 0)
  {
    hide Tagged, Has;
    a, b, cas, kind := 0, 0, 20, Error;
    if Has(s, "f=") {
      a := Tagged(s, "f=");
      cas, kind := 2, Single;
      if a <= 0 || a > MAX_FREQUENCY { cas, kind := 12, Error; }
    } else {
      if Has(s, "a=") {
        a := Tagged(s, "a=");
        cas, kind := 3, Range;
        if a <= 0 || a > MAX_FREQUENCY { cas, kind := 13, Error; }
      } else {
        cas := 7;
      }
      if Has(s, "b=") {
        b := Tagged(s, "b=");
        kind := Range;
        if b <= 0 || b > MAX_FREQUENCY {
          cas, kind := 14, Error;
        } else if a >= b {
          cas, kind := 15, Error;
        }
        if cas == 3 {
          cas := 4;
        } else if cas != 13 && cas != 14 && cas != 15 {
          cas, kind := 6, Error;
        }
      } else if cas == 3 {
        cas, kind := 7, Error;
      } else if cas != 13 {
        cas, kind := 10, Error;
      }
    }
  }

  method ReadDescription(s: string, cas0: nat, kind0: Kind) returns (cas: nat, kind: Kind, description: string)
    requires cas0 == 2 || cas0 == 4
    ensures cas == DescriptionCase(s, cas0)
    ensures kind == if cas == cas0 then kind0 else Error
    ensures cas == cas0 ==> description == Described(s)
  {
    hide Has;
    cas, kind, description := cas0, kind0, "";
    if Has(s, "d=") {
      var pos := Behind(s, "d=");
      var length := FieldLength(pos);
      if length < DESC_MAX_LEN {
        description := pos[..length];
      } else {
        cas, kind := 9, Error;
      }
      if length == 0 { cas, kind := 8, Error; }
    } else if cas == 4 {
      cas, kind := 8, Error;
    } else {
      description := "---";
    }
  }

  method IllegalCharacter(s: string) returns (found: bool, description: string)
    ensures found == !AllAcceptable(s)
    ensures found ==> description == IllegalText(FirstIllegal(s), s[FirstIllegal(s)])
  {
    hide IllegalText, Padded;
    found, description := false, "";
    var i := 0;
    while i < |s|
      invariant i <= |s| && forall k :: 0 <= k < i ==> Acceptable(s[k])
    {
      if (s[i] > 31 as char && s[i] < 127 as char) || s[i] == 13 as char { i := i + 1; continue; }
      found := true;
      FirstIllegalAt(s, i);
      description := DescribeCharacter(i, s[i]);
      break;
    }
  }

  lemma {:induction false} FirstIllegalAt(s: string, i: nat)
    requires i < |s| && !Acceptable(s[i]) && forall k :: 0 <= k < i ==> Acceptable(s[k])
    ensures FirstIllegal(s) == i
  {
    if i > 0 {
      FirstIllegalAt(s[1..], i - 1);
    }
  }

  method DescribeCharacter(i: nat, c: char) returns (description: string)
    ensures description == IllegalText(i, c)
  {
    hide Padded;
    var d := c as int % 16;
    var low := if d > 9 then (d + 55) as char else (d + 48) as char;
    d := c as int / 16 % 16;
    var high := if d > 9 then (d + 55) as char else (d + 48) as char;
    var position := ToStringDecUint(Mod32(i + 1), 0, ' ');
    description := "P:" + position + "<" + [c] + "><" + [high, low] + ">";
  }

  method NumberedText(n: nat, text: string) returns (r: string)
    ensures r == Numbered(n, text)
  {
    var digits := ToStringDecUint(Mod32(n + 1), 0, ' ');
    r := "[" + digits + "]:" + text;
  }

  method ClassifyLine(s: string, n: nat) returns (e: Entry)
    ensures e == Classify(s, n)
  {
    hide Tagged, Has, AllAcceptable, FrequencyCase, DescriptionCase, Described, Padded, FirstIllegal, IllegalText, Numbered;
    var a, b, kind, cas, step, description := 0, 0, Error, 20, STEP_DEF, "";
    if s != [] {
      if Useful(s) {
        var illegal, found := IllegalCharacter(s);
        if illegal { cas, description := 22, found; }
        if cas == 20 {
          if !Has(s, "//") && !Has(s, "#") {
            a, b, cas, kind := ReadFrequencies(s);
            if cas == 2 || cas == 4 {
              DescriptionCaseKeeps(s, cas);
              cas, kind, description := ReadDescription(s, cas, kind);
            } else {
              kind := Error;
            }
            // Step only for ranges
            if cas == 4 && Has(s, "s=") {
              var value := Tagged(s, "s=");
              if value == 0 {
                step := STEP_DEF;
              } else if 1 <= value <= 9 {
                step := value;
                var suffix := ToStringDecUint(Mod32(step), 0, ' ');
                description := description + ("-" + suffix);
              } else {
                step, cas := ERROR_STEP, 16;
              }
            }
          } else {
            cas, kind := 21, Comment;
          }
        } else {
          cas := 22;
        }
      } else {
        cas := 0;
      }
    } else {
      cas, kind := 11, Error;
    }
    FrequencyCases(s);
    if cas == 12 || cas == 13 || cas == 15 { a := 0; }
    if cas == 14 || cas == 15 { b := 0; }
    if cas == 21 {
      description := s;
    } else if cas == 22 {
      description := NumberedText(n, CaseText(cas) + description);
    } else if cas != 2 && cas != 4 {
      description := NumberedText(n, CaseText(cas));
    }
    e := Entry(a, b, description, kind, step);
  }

  lemma FrequencyCases(s: string)
    ensures FrequencyCase(s) in {2, 4, 6, 7, 10, 12, 13, 14, 15}
  {
  }
}
