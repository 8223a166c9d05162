/** Reading and writing a FREQMAN file: `load_freqman_file` and `save_freqman_file`.  A file is
its contents; reading at a position past the end returns nothing. */
module FreqmanFile {
  import opened Numbers
  import opened FreqmanLines

  const BLOCK: nat := 256
  const MAX_PER_FILE: nat := 99

  type Database = seq<Entry>

  // The plain meaning of a file

  /** The loader replaces every NUL character. */
  function CleanChar(c: char): char { if c == '\0' then 219 as char else c }

  function Clean(s: string): (r: string)
    ensures |r| == |s|
  {
    seq(|s|, i requires 0 <= i < |s| => CleanChar(s[i]))
  }

  /** The newline-terminated lines; text after the last newline is not a line. */
  function SplitLines(s: string): seq<string> {
    var i := IndexOf(s, "\n");
    if i == |s| then [] else [s[..i]] + SplitLines(s[i + 1..])
  }

  /** A line that does not fit in a block with its newline loses whole blocks at its start. */
  function KeptPart(line: string): string {
    if |line| < BLOCK then line else KeptPart(line[BLOCK..])
  }

  function KeptLines(lines: seq<string>): (r: seq<string>)
    ensures |r| == |lines|
  {
    seq(|lines|, i requires 0 <= i < |lines| => KeptPart(lines[i]))
  }

  function ClassifyAll(lines: seq<string>): (db: Database)
    ensures |db| == |lines|
  {
    seq(|lines|, n requires 0 <= n < |lines| => Classify(lines[n], n))
  }

  function TooManyLines(): Entry {
    Entry(0, 0, TooManyText(Padded(MAX_PER_FILE, 0, ' ')), Error, STEP_DEF)
  }

  function TooManyText(many: string): string { "[" + many + "]:" + "Lines >" + many }

  /** At most 99 lines are read; a file with that many gets one more entry that says so.  That
      entry carries the step of the last line. */
  function Loaded(lines: seq<string>): Database {
    if |lines| < MAX_PER_FILE then ClassifyAll(lines)
    else
      var db := ClassifyAll(lines[..MAX_PER_FILE]);
      db + [TooManyLines().(step := db[MAX_PER_FILE - 1].step)]
  }

  // Lemmas about lines

  lemma StartsWithNewline(s: string)
    ensures "\n" <= s <==> s != [] && s[0] == '\n'
  {
  }

  lemma {:induction false} NewlineAt(s: string, i: nat)
    requires i < |s| && s[i] == '\n' && forall k :: 0 <= k < i ==> s[k] != '\n'
    ensures IndexOf(s, "\n") == i
  {
    StartsWithNewline(s);
    if i > 0 {
      NewlineAt(s[1..], i - 1);
    }
  }

  lemma {:induction false} NoNewline(s: string)
    requires forall k :: 0 <= k < |s| ==> s[k] != '\n'
    ensures IndexOf(s, "\n") == |s| && SplitLines(s) == []
  {
    if s != [] {
      StartsWithNewline(s);
      NoNewline(s[1..]);
    }
  }

  lemma {:induction false} LaterNewline(s: string, k: nat)
    requires k <= |s| && forall j :: 0 <= j < k ==> s[j] != '\n'
    ensures IndexOf(s, "\n") == k + IndexOf(s[k..], "\n")
  {
    if k == 0 {
      assert s[0..] == s;
    } else {
      StartsWithNewline(s);
      LaterNewline(s[1..], k - 1);
      assert s[1..][k - 1..] == s[k..];
    }
  }

  /** A block without a newline can be dropped without changing the kept lines. */
  lemma DropBlock(s: string)
    requires |s| >= BLOCK && forall k :: 0 <= k < BLOCK ==> s[k] != '\n'
    ensures KeptLines(SplitLines(s)) == KeptLines(SplitLines(s[BLOCK..]))
  {
    hide IndexOf, KeptLines, SplitLines, KeptPart;
    var i, t := IndexOf(s, "\n"), s[BLOCK..];
    LaterNewline(s, BLOCK);
    if i < |s| {
      LinesOf(s);
      LinesOf(t);
      assert s[..i][BLOCK..] == t[..i - BLOCK];
      assert s[i + 1..] == t[i - BLOCK + 1..];
      KeptFirst(s[..i], SplitLines(s[i + 1..]));
      KeptFirst(t[..i - BLOCK], SplitLines(s[i + 1..]));
      KeptLonger(s[..i]);
    } else {
      LinesOf(s);
      LinesOf(t);
    }
  }

  lemma KeptLonger(line: string)
    requires |line| >= BLOCK
    ensures KeptPart(line) == KeptPart(line[BLOCK..])
  {
  }

  lemma LinesOf(s: string)
    ensures var i := IndexOf(s, "\n"); SplitLines(s) == if i == |s| then [] else [s[..i]] + SplitLines(s[i + 1..])
  {
    hide IndexOf;
  }

  lemma KeptFirst(line: string, lines: seq<string>)
    ensures KeptLines([line] + lines) == [KeptPart(line)] + KeptLines(lines)
  {
  }

  /** One short line taken from the front. */
  lemma TakeLine(s: string, i: nat)
    requires i < |s| && i < BLOCK && s[i] == '\n' && forall k :: 0 <= k < i ==> s[k] != '\n'
    ensures KeptLines(SplitLines(s)) == [s[..i]] + KeptLines(SplitLines(s[i + 1..]))
  {
    hide KeptLines, SplitLines, IndexOf;
    NewlineAt(s, i);
    LinesOf(s);
    KeptFirst(s[..i], SplitLines(s[i + 1..]));
  }

  // The loader

  /** Reads up to 256 characters into the buffer, pads with terminators and replaces NULs. */
  method ReadBlock(file: string, position: nat, fileData: array<char>) returns (readSize: nat)
    requires position <= |file| && fileData.Length == BLOCK + 1
    modifies fileData
    ensures readSize == if |file| - position < BLOCK then |file| - position else BLOCK
    ensures fileData[..readSize] == Clean(file)[position..position + readSize]
    ensures forall k :: 0 <= k < readSize ==>
              fileData[k] == if file[position + k] == '\0' then 219 as char else file[position + k]
    ensures forall k :: readSize <= k < fileData.Length ==> fileData[k] == '\0'
  {
    readSize := if |file| - position < BLOCK then |file| - position else BLOCK;
    forall k | 0 <= k < fileData.Length {
      fileData[k] := if k < readSize then file[position + k] else '\0';
    }
    for i := 0 to readSize
      invariant forall k :: 0 <= k < i ==> fileData[k] == CleanChar(file[position + k])
      invariant forall k :: i <= k < readSize ==> fileData[k] == file[position + k]
      invariant forall k :: readSize <= k < fileData.Length ==> fileData[k] == '\0'
    {
      if fileData[i] == '\0' { fileData[i] := 219 as char; }
    }
  }

  /** The next newline in the terminated text of the buffer. */
  method FindNewline(fileData: array<char>, start: nat, ghost readSize: nat) returns (found: bool, at: nat)
    requires start <= readSize < fileData.Length && fileData[readSize] == '\0'
    requires forall k :: 0 <= k < readSize ==> fileData[k] != '\0'
    ensures found ==> start <= at < readSize && fileData[at] == '\n'
    ensures forall k :: start <= k < (if found then at else readSize) ==> fileData[k] != '\n'
  {
    at := start;
    while fileData[at] != '\0'
      invariant start <= at <= readSize
      invariant forall k :: start <= k < at ==> fileData[k] != '\n'
      decreases readSize - at
    {
      if fileData[at] == '\n' { return true, at; }
      at := at + 1;
    }
    found := false;
  }

  /** Classifies the complete lines of one block. */
  method LoadLinesOfBlock(fileData: array<char>, readSize: nat, ghost text: string, db0: Database, ghost lines0: seq<string>)
    returns (db: Database, lineStart: nat, full: bool, ghost lines: seq<string>)
    requires fileData.Length == BLOCK + 1 && readSize <= BLOCK && readSize <= |text|
    requires fileData[..readSize] == text[..readSize] && fileData[readSize] == '\0'
    requires forall k :: 0 <= k < readSize ==> text[k] != '\0'
    requires db0 == ClassifyAll(lines0) && |lines0| < MAX_PER_FILE
    ensures lineStart <= readSize
    ensures lines0 + KeptLines(SplitLines(text)) == lines + KeptLines(SplitLines(text[lineStart..]))
    ensures full ==> |lines| == MAX_PER_FILE && db == Loaded(lines)
    ensures !full ==> |lines| < MAX_PER_FILE && db == ClassifyAll(lines)
    ensures !full ==> forall k :: lineStart <= k < readSize ==> text[k] != '\n'
  {
    hide SplitLines, KeptLines, Classify, Padded, IndexOf;
    db, lineStart, full, lines := db0, 0, false, lines0;
    assert text[0..] == text;
    var found, lineEnd := FindNewline(fileData, lineStart, readSize);
    while found
      invariant lineStart <= readSize && |lines| < MAX_PER_FILE && db == ClassifyAll(lines)
      invariant lines0 + KeptLines(SplitLines(text)) == lines + KeptLines(SplitLines(text[lineStart..]))
      invariant found ==> lineStart <= lineEnd < readSize && fileData[lineEnd] == '\n'
      invariant forall k :: lineStart <= k < (if found then lineEnd else readSize) ==> fileData[k] != '\n'
      decreases readSize - lineStart, found
    {
      var line := fileData[lineStart..lineEnd];
      LineOfBlock(text, fileData[..], readSize, lineStart, lineEnd);
      var entry := ClassifyLine(line, |db|);
      db := db + [entry];
      ghost var rest := KeptLines(SplitLines(text[lineEnd + 1..]));
      assert lines + ([line] + rest) == (lines + [line]) + rest;
      lines := lines + [line];
      if |db| >= MAX_PER_FILE {
        var many := ToStringDecUint(MAX_PER_FILE, 0, ' ');
        db := db + [Entry(0, 0, TooManyText(many), Error, entry.step)];
        lineStart, full := lineEnd + 1, true;
        LoadedFull(lines);
        return;
      }
      lineStart := lineEnd + 1;
      found, lineEnd := FindNewline(fileData, lineStart, readSize);
    }
  }

  lemma LineOfBlock(text: string, fileData: string, readSize: nat, lineStart: nat, lineEnd: nat)
    requires readSize <= BLOCK && readSize <= |text| && readSize <= |fileData|
    requires fileData[..readSize] == text[..readSize]
    requires lineStart <= lineEnd < readSize && fileData[lineEnd] == '\n'
    requires forall k :: lineStart <= k < lineEnd ==> fileData[k] != '\n'
    ensures KeptLines(SplitLines(text[lineStart..]))
         == [fileData[lineStart..lineEnd]] + KeptLines(SplitLines(text[lineEnd + 1..]))
  {
    hide KeptLines, SplitLines;
    var s, i := text[lineStart..], lineEnd - lineStart;
    assert forall k :: lineStart <= k <= lineEnd ==> fileData[k] == fileData[..readSize][k] == text[k] == s[k - lineStart];
    TakeLine(s, i);
    assert s[..i] == fileData[lineStart..lineEnd];
    assert s[i + 1..] == text[lineEnd + 1..];
  }

  /** The loader: the entries are those of the plain lines of the file, however the blocks fall. */
  method Load(file: string, opens: bool) returns (ok: bool, db: Database)
    ensures ok == opens
    ensures ok ==> db == Loaded(KeptLines(SplitLines(Clean(file))))
    ensures !ok ==> db == []
  {
    hide SplitLines, KeptLines, Classify, Loaded, IndexOf;
    db := [];
    if !opens { return false, db; }
    var fileData := new char[BLOCK + 1];
    var position: nat := 0;
    ghost var lines: seq<string>, text := [], Clean(file);
    assert text[0..] == text;
    while true
      invariant position <= |file| && |lines| < MAX_PER_FILE && db == ClassifyAll(lines)
      invariant KeptLines(SplitLines(text)) == lines + KeptLines(SplitLines(text[position..]))
      decreases |file| - position
    {
      var readSize := ReadBlock(file, position, fileData);
      var lineStart, full;
      ghost var rest := text[position..];
      db, lineStart, full, lines := LoadLinesOfBlock(fileData, readSize, rest, db, lines);
      assert rest[lineStart..] == text[position + lineStart..];
      if full {
        FullDatabase(lines, KeptLines(SplitLines(rest[lineStart..])));
        return true, db;
      }
      if readSize != BLOCK {
        NoNewline(rest[lineStart..]);
        NothingKept();
        assert lines + [] == lines;
        LoadedFew(lines);
        return true, db;
      }
      if lineStart == 0 {
        DropBlock(rest);
      }
      // Restart at the beginning of the last incomplete line, if the block holds a complete one.
      position := if lineStart != 0 then position + lineStart else position + BLOCK;
    }
  }

  lemma NothingKept()
    ensures KeptLines([]) == []
  {
  }

  lemma LoadedFew(lines: seq<string>)
    requires |lines| < MAX_PER_FILE
    ensures Loaded(lines) == ClassifyAll(lines)
  {
  }

  lemma LoadedFull(lines: seq<string>)
    requires |lines| == MAX_PER_FILE
    ensures Loaded(lines) == ClassifyAll(lines) + [TooManyLines().(step := ClassifyAll(lines)[MAX_PER_FILE - 1].step)]
  {
    assert lines[..MAX_PER_FILE] == lines;
  }

  lemma FullDatabase(lines: seq<string>, rest: seq<string>)
    requires |lines| == MAX_PER_FILE
    ensures Loaded(lines + rest) == Loaded(lines)
  {
    assert (lines + rest)[..MAX_PER_FILE] == lines == lines[..MAX_PER_FILE];
  }
}
