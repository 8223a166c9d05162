/** Opening a WAV file: the header fields, and the scan for the title tag. */
module WaveReader {

  import opened WaveFile
  import opened Wrappers

  const SEARCH_LIMIT := 256

  /** The loop reads one byte more than the limit. */
  const SCANNED := 257

  const TITLE_MAX := 32

  // The scan for the tag

  function Letter(i: nat): char { if i == 0 then 'I' else if i == 1 then 'N' else if i == 2 then 'A' else 'M' }

  /** The tag starts at position k. */
  predicate TagAt(s: Bytes, k: nat) { k + 4 <= |s| && forall i :: 0 <= i < 4 ==> s[k + i] == Letter(i) }

  /** The first start of the tag, if one ends within `limit` bytes. */
  ghost predicate FirstTag(s: Bytes, limit: nat, k: nat) {
    TagAt(s, k) && k + 4 <= limit && forall j :: 0 <= j < k ==> !TagAt(s, j)
  }

  ghost predicate NoTag(s: Bytes, limit: nat) { forall k :: 0 <= k && k + 4 <= limit ==> !TagAt(s, k) }

  /** The text ends with the first j letters of the tag. */
  predicate EndsWithTag(s: Bytes, j: nat) {
    j == 0 || (s != [] && s[|s| - 1] == Letter(j - 1) && EndsWithTag(s[..|s| - 1], j - 1))
  }

  /** What the scanner remembers: the longest incomplete start of the tag at the end of the text. */
  ghost predicate Remembers(s: Bytes, i: nat) {
    && i < 4 && EndsWithTag(s, i)
    && (i < 3 ==> !EndsWithTag(s, 3)) && (i < 2 ==> !EndsWithTag(s, 2)) && (i < 1 ==> !EndsWithTag(s, 1))
  }

  lemma EndsOneMore(s: Bytes, c: char, j: nat)
    ensures EndsWithTag(s + [c], j + 1) <==> EndsWithTag(s, j) && c == Letter(j)
  {
    assert (s + [c])[..|s|] == s;
  }

  lemma {:induction false} EndsLength(s: Bytes, j: nat)
    ensures EndsWithTag(s, j) ==> |s| >= j
  {
    if j > 0 && s != [] {
      EndsLength(s[..|s| - 1], j - 1);
    }
  }

  /** One character: the scanner's reaction is right, and the tag is complete exactly after its last letter. */
  lemma ScanStep(s: Bytes, i: nat, c: char)
    requires Remembers(s, i)
    ensures EndsWithTag(s + [c], 4) <==> i == 3 && c == Letter(3)
    ensures !(i == 3 && c == Letter(3)) ==> Remembers(s + [c], if c == Letter(i) then i + 1 else if c == Letter(0) then 1 else 0)
  {
    EndsOneMore(s, c, 0);
    EndsOneMore(s, c, 1);
    EndsOneMore(s, c, 2);
    EndsOneMore(s, c, 3);
    OnlyRemembered(s, i, 1);
    OnlyRemembered(s, i, 2);
    OnlyRemembered(s, i, 3);
    hide EndsWithTag;
  }

  lemma OnlyRemembered(s: Bytes, i: nat, j: nat)
    requires Remembers(s, i) && 1 <= j < 4
    ensures EndsWithTag(s, j) ==> j == i
  {
  }

  lemma TagEnds(s: Bytes, k: nat)
    requires k + 4 <= |s|
    ensures TagAt(s, k) <==> EndsWithTag(s[..k + 4], 4)
  {
    var a0, a1, a2, a3 := s[..k], s[..k + 1], s[..k + 2], s[..k + 3];
    assert a1 == a0 + [s[k]] && a2 == a1 + [s[k + 1]] && a3 == a2 + [s[k + 2]] && s[..k + 4] == a3 + [s[k + 3]];
    EndsOneMore(a0, s[k], 0);
    EndsOneMore(a1, s[k + 1], 1);
    EndsOneMore(a2, s[k + 2], 2);
    EndsOneMore(a3, s[k + 3], 3);
    assert TagAt(s, k) <==> s[k + 0] == 'I' && s[k + 1] == 'N' && s[k + 2] == 'A' && s[k + 3] == 'M';
    assert EndsWithTag(a0, 0);
    hide EndsWithTag, TagAt;
  }

  /** After n characters without a complete tag; past the end nothing is left to remember. */
  ghost predicate Scanning(s: Bytes, n: nat, i: nat) {
    (n <= |s| ==> Remembers(s[..n], i)) && forall k :: 0 <= k && k + 4 <= n ==> !TagAt(s, k)
  }

  lemma ScanAdvances(s: Bytes, n: nat, i: nat, c: char)
    requires Scanning(s, n, i) && n < |s| && c == s[n] && i < 4
    ensures i == 3 && c == Letter(i) ==> n >= 3 && FirstTag(s, n + 1, n - 3)
    ensures !(i == 3 && c == Letter(i)) ==> Scanning(s, n + 1, if c == Letter(i) then i + 1 else if c == Letter(0) then 1 else 0)
  {
    assert s[..n + 1] == s[..n] + [c];
    ScanStep(s[..n], i, c);
    EndsLength(s[..n + 1], 4);
    if n + 1 >= 4 {
      TagEnds(s, n + 1 - 4);
    }
    hide TagAt, Remembers;
  }

  /** Reads bytes until the tag is complete or the search limit is reached.  Past the end of the file
  reading succeeds without changing the character; `ch` is what it holds at first. */
  method Scan(file: File, ch: char) returns (found: bool)
    requires file.Valid()
    modifies file`pos
    ensures file.Valid()
    ensures found ==> file.pos >= old(file.pos) + 4 &&
                      FirstTag(file.bytes[old(file.pos)..], SCANNED, file.pos - 4 - old(file.pos))
    ensures !found ==> NoTag(file.bytes[old(file.pos)..], SCANNED)
  {
    var i, c, searchLimit := 0, ch, 0;
    found := false;
    ghost var start, s := file.pos, file.bytes[file.pos..];
    assert Scanning(s, 0, 0) by { assert s[..0] == []; }
    hide Scanning, FirstTag;
    while true
      invariant file.Valid() && searchLimit <= SEARCH_LIMIT && i < 4
      invariant file.pos == start + if searchLimit <= |s| then searchLimit else |s|
      invariant Scanning(s, searchLimit, i)
      invariant i > 0 ==> c == Letter(i - 1)
      decreases SEARCH_LIMIT - searchLimit
    {
      var data := file.Read(1);
      if data != [] {
        assert data == [s[searchLimit]];
        c := data[0];
        ScanAdvances(s, searchLimit, i, c);
      } else {
        NothingToRead(s, searchLimit, i, c, if c == Letter(i) then i + 1 else if c == Letter(0) then 1 else 0);
      }
      if c == Letter(i) {
        i := i + 1;
        if i == 4 {
          found := true;
          break;
        }
      } else {
        i := if c == Letter(0) then 1 else 0;
      }
      if searchLimit == SEARCH_LIMIT {
        NotFound(s, SCANNED, i);
        break;
      }
      searchLimit := searchLimit + 1;
    }
  }

  lemma NothingToRead(s: Bytes, n: nat, i: nat, c: char, i': nat)
    requires Scanning(s, n, i) && n >= |s| && i < 4
    requires i > 0 ==> c == Letter(i - 1)
    ensures c == Letter(i) ==> i == 0
    ensures Scanning(s, n + 1, i')
  {
  }

  lemma NotFound(s: Bytes, n: nat, i: nat)
    requires Scanning(s, n, i)
    ensures NoTag(s, n)
  {
  }

  // Opening a file

  /** `Undefined`: the source then reads memory that nothing has written. */
  datatype Title = NoTitle | Title(text: Bytes) | Undefined

  function Min(a: nat, b: nat): nat { if a <= b then a else b }

  /** The text up to the terminating zero, if there is one. */
  function CString(s: Bytes): Title {
    if s == [] then Undefined
    else if s[0] == '\0' then Title([])
    else match CString(s[1..])
      case Title(text) => Title([s[0]] + text)
      case other => other
  }

  /** What is read behind the tag: a size, cut to 32, and that many bytes of text. */
  function TitleBehindTag(rest: Bytes): Title {
    if |rest| < 4 then Undefined
    else CString(rest[4..Min(|rest|, 4 + Min(Field32(rest, 0), TITLE_MAX))])
  }

  /** The 44 header bytes; a short file leaves the rest as it was. */
  function HeaderRead(content: Bytes, before: Bytes): (h: Bytes)
    requires |before| == HEADER_SIZE
    ensures |h| == HEADER_SIZE
  {
    var n := Min(|content|, HEADER_SIZE);
    content[..n] + before[n..]
  }

  function DataStart(h: Bytes): nat
    requires |h| == HEADER_SIZE
  {
    (Field32(h, 16) + 28) % WORD
  }

  function DataSize(h: Bytes): nat
    requires |h| == HEADER_SIZE
  {
    Field32(h, 40)
  }

  function RiffSize(h: Bytes): nat
    requires |h| == HEADER_SIZE
  {
    (Field32(h, 4) + 8) % WORD
  }

  /** One byte behind the data: a data chunk of odd size would be padded. */
  function DataEnd(h: Bytes): nat
    requires |h| == HEADER_SIZE
  {
    (DataStart(h) + DataSize(h) + 1) % WORD
  }

  /** Where the search for the title begins. */
  function SearchStart(content: Bytes, h: Bytes): nat
    requires |h| == HEADER_SIZE
  {
    Min(DataEnd(h), |content|)
  }

  /** The title that opening the file gives. */
  ghost predicate FindsTitle(content: Bytes, h: Bytes, before: Title, title: Title)
    requires |h| == HEADER_SIZE
  {
    var s := content[SearchStart(content, h)..];
    if DataEnd(h) >= RiffSize(h) then title == before
    else
      && (NoTag(s, 257) ==> title == before)
      && (forall k :: FirstTag(s, 257, k) ==> title == TitleBehindTag(s[k + 4..]))
  }

  class WAVFileReader {
    var file: File
    var header: Bytes
    var dataStart: nat
    var dataSize: nat
    var sampleRate: nat
    var bytesPerSample: nat
    var title: Title
    var lastPath: Bytes

    ghost predicate Valid()
      reads this, file
    {
      |header| == HEADER_SIZE && file.Valid()
    }

    constructor ()
      ensures Valid() && fresh(file) && lastPath == [] && title == NoTitle && header == Nuls(HEADER_SIZE)
    {
      file := new File([]);
      header := Nuls(HEADER_SIZE);
      dataStart, dataSize, sampleRate, bytesPerSample, title, lastPath := 0, 0, 0, 0, NoTitle, [];
    }

    method Rewind()
      requires Valid()
      modifies file`pos
      ensures Valid() && file.pos == Min(dataStart, |file.bytes|)
    {
      var _ := file.Seek(dataStart);
    }

    /** A second read of `n` characters, behind one of four. */
    static lemma ReadsOn(all: Bytes, start: nat, n: nat)
      requires start + 4 <= |all|
      ensures var rest, end := all[start..], if start + 4 + n <= |all| then start + 4 + n else |all|;
              all[start + 4..end] == rest[4..Min(|rest|, 4 + n)]
    {
    }

    /** Reads the title behind a tag that has just been found. */
    method ReadTitle()
      requires Valid()
      modifies this`title, file`pos
      ensures Valid() && title == TitleBehindTag(old(file.bytes[file.pos..]))
    {
      ghost var all, start := file.bytes, file.pos;
      ghost var rest := all[start..];
      var size := file.Read(4);
      if |size| < 4 {
        title := Undefined;
      } else {
        assert size == At(rest, 0, 4);
        var titleSize := FromLe(size);
        if titleSize > TITLE_MAX {
          titleSize := TITLE_MAX;
        }
        ReadsOn(all, start, titleSize);
        var buffer := file.Read(titleSize);
        title := CString(buffer);
      }
    }

    /** `content` is what the path names, if it can be opened; `ch` an uninitialised character. */
    method Open(path: Bytes, content: Option<Bytes>, ch: char) returns (ok: bool)
      requires Valid()
      modifies this, file
      ensures ok <==> path == old(lastPath) || content.Some?
      ensures ok ==> Valid() && lastPath == path && file.pos == Min(dataStart, |file.bytes|)
      ensures path == old(lastPath) ==> file == old(file) && file.bytes == old(file.bytes) && title == old(title) &&
                                        header == old(header) && dataSize == old(dataSize) && sampleRate == old(sampleRate)
      ensures path != old(lastPath) && content.Some? ==>
        && file.bytes == content.value && header == HeaderRead(content.value, old(header))
        && dataStart == DataStart(header) && dataSize == DataSize(header)
        && sampleRate == Field32(header, 24) && bytesPerSample == FromLe(At(header, 34, 2)) / 8
        && FindsTitle(content.value, header, old(title), title)
    {
      if path == lastPath {
        Rewind();
        return true;
      }
      if content.None? {
        return false;
      }
      file := new File(content.value);
      var data := file.Read(HEADER_SIZE);
      header := data + header[|data|..];
      dataStart := DataStart(header);
      dataSize := DataSize(header);
      FindTitle(ch);
      sampleRate := Field32(header, 24);
      bytesPerSample := FromLe(At(header, 34, 2)) / 8;
      Rewind();
      lastPath := path;
      return true;
    }

    /** The part of `open` that looks for the title. */
    method FindTitle(ch: char)
      requires Valid() && dataStart == DataStart(header) && dataSize == DataSize(header)
      modifies this`title, file`pos
      ensures Valid() && FindsTitle(file.bytes, header, old(title), title)
    {
      hide FirstTag, NoTag, TitleBehindTag, Field32;
      var riffSize := (Field32(header, 4) + 8) % WORD;
      var dataEnd := (dataStart + dataSize + 1) % WORD;
      if dataEnd < riffSize {
        var _ := file.Seek(dataEnd);
        ghost var s := file.bytes[file.pos..];
        var found := Scan(file, ch);
        if found {
          ghost var k := file.pos - 4 - SearchStart(file.bytes, header);
          assert s[k + 4..] == file.bytes[file.pos..];
          ReadTitle();
          FirstTagIsUnique(s, SCANNED, k);
        } else {
          NoTagNoFirst(s, SCANNED);
        }
      }
    }
  }

  lemma FirstTagIsUnique(s: Bytes, limit: nat, k: nat)
    requires FirstTag(s, limit, k)
    ensures !NoTag(s, limit) && forall j :: FirstTag(s, limit, j) ==> j == k
  {
  }

  lemma NoTagNoFirst(s: Bytes, limit: nat)
    requires NoTag(s, limit)
    ensures forall j :: !FirstTag(s, limit, j)
  {
  }

  // Reading a recording back

  lemma {:induction false} CStringReadsBack(text: Bytes, tail: Bytes)
    requires '\0' !in text && tail != [] && tail[0] == '\0'
    ensures CString(text + tail) == Title(text)
  {
    if text == [] {
      assert text + tail == tail;
    } else {
      assert (text + tail)[1..] == text[1..] + tail;
      CStringReadsBack(text[1..], tail);
      assert text == [text[0]] + text[1..];
    }
  }

  /** Behind the first byte of the tags the title tag comes first at byte 31. */
  lemma TagsHoldTheTag(title: Bytes)
    requires |title| < 64
    ensures FirstTag(Tags(title)[1..], SCANNED, 31) && Tags(title)[1..][35..] == TitleChunk(title)[4..]
  {
    var s := Tags(title)[1..];
    TitleChunkStarts(title);
    HeadHasNoTag();
    hide TitleChunk, TagsHead;
    var head, chunk := TagsHead(), TitleChunk(title);
    assert forall i :: 0 <= i < 4 ==> s[31 + i] == chunk[i];
    forall j | 0 <= j < 31 ensures !TagAt(s, j) {
      NoTagAt(s, head, j);
    }
  }

  lemma TitleChunkStarts(title: Bytes)
    requires |title| < 64
    ensures forall i :: 0 <= i < 4 ==> TitleChunk(title)[i] == Letter(i)
    ensures TitleChunk(title)[4..] == Le(64, 4) + (title + Nuls(64 - |title|))
  {
    hide Le, Nuls;
    assert TitleChunk(title)[..4] == "INAM";
  }

  /** An 'I' that does not start the title tag. */
  predicate OtherTag(head: Bytes, j: nat) {
    j < |head| && (head[j] == 'I' ==> j + 2 < |head| && (head[j + 1] != 'N' || head[j + 2] != 'A'))
  }

  lemma NoTagAt(s: Bytes, head: Bytes, j: nat)
    requires |head| == 32 && |s| > 34 && s[..31] == head[1..] && j < 31 && OtherTag(head, j + 1)
    ensures !TagAt(s, j)
  {
    assert s[j] == s[..31][j] == head[j + 1];
    if head[j + 1] != 'I' {
      assert s[j + 0] != Letter(0);
    } else {
      assert s[j + 1] == s[..31][j + 1] == head[j + 2] && s[j + 2] == s[..31][j + 2] == head[j + 3];
      if head[j + 2] != 'N' {
        assert s[j + 1] != Letter(1);
      } else {
        assert s[j + 2] != Letter(2);
      }
    }
  }

  lemma HeadHasNoTag()
    ensures forall j :: 1 <= j < 32 ==> OtherTag(TagsHead(), j)
  {
    var head := TagsHead();
    var size, length := Le(96, 4), Le(12, 4);
    assert size == [96 as char, '\0', '\0', '\0'] && length == [12 as char, '\0', '\0', '\0'];
    hide Le;
    assert head[0..8] == "LIST" + size;
    assert head[8..16] == "INFO" + "IART";
    assert head[16..32] == length + "PortaPack" + Nuls(3);
  }

  lemma {:induction false} CStringWithoutZero(text: Bytes)
    requires '\0' !in text
    ensures CString(text) == Undefined
  {
    if text != [] {
      CStringWithoutZero(text[1..]);
    }
  }

  /** A title that fills the reader's buffer has no terminating zero there. */
  lemma TitleReadsBack(title: Bytes)
    requires |title| < 64 && '\0' !in title
    ensures TitleBehindTag(TitleChunk(title)[4..]) == if |title| < TITLE_MAX then Title(title) else Undefined
  {
    hide Le, TitleChunk, TitleBehindTag, CString, Nuls;
    var tail := Nuls(64 - |title|);
    TitleChunkStarts(title);
    TitleBehindLength(title + tail);
    if |title| < TITLE_MAX {
      PaddedStart(title, tail, TITLE_MAX);
      CStringReadsBack(title, tail[..TITLE_MAX - |title|]);
    } else {
      PaddedStart(title, tail, TITLE_MAX);
      CStringWithoutZero(title[..TITLE_MAX]);
    }
  }

  lemma TitleBehindLength(field: Bytes)
    requires |field| == 64
    ensures TitleBehindTag(Le(64, 4) + field) == CString(field[..TITLE_MAX])
  {
    var rest := Le(64, 4) + field;
    assert Power256(4) == WORD;
    LeReadsBack(64, 4);
    assert At(rest, 0, 4) == Le(64, 4);
    hide Le, CString;
    assert rest[4..4 + TITLE_MAX] == field[..TITLE_MAX];
  }

  lemma PaddedStart(title: Bytes, tail: Bytes, n: nat)
    requires n <= |title| + |tail|
    ensures (title + tail)[..n] == if n <= |title| then title[..n] else title + tail[..n - |title|]
  {
  }

  /** Whatever was written, opening a finished recording of at least 44 bytes gives back its sampling
  rate, its data behind the first 44 bytes, and its title exactly when it is shorter than 32. */
  lemma RecordingReadsBack(rate: nat, title: Bytes, data: Bytes, headerBefore: Bytes, titleBefore: Title, found: Title)
    requires rate < WORD && |data| + TAGS_SIZE < WORD && |data| >= HEADER_SIZE
    requires |title| < 64 && '\0' !in title && |headerBefore| == HEADER_SIZE
    requires FindsTitle(Recording(rate, title, data), HeaderRead(Recording(rate, title, data), headerBefore), titleBefore, found)
    ensures var f := Recording(rate, title, data);
            var h := HeaderRead(f, headerBefore);
            && Field32(h, 24) == rate && FromLe(At(h, 34, 2)) / 8 == 2
            && DataStart(h) == HEADER_SIZE && DataSize(h) == |data| - HEADER_SIZE
            && f[DataStart(h)..DataStart(h) + DataSize(h)] == data[HEADER_SIZE..]
            && (found == Title(title) <==> |title| < 32)
  {
    var f := Recording(rate, title, data);
    var h := HeaderRead(f, headerBefore);
    LayoutOfRecording(rate, title, data);
    assert h == f[..HEADER_SIZE];
    HeaderOfFile(f, h);
    hide Recording, Header, FromLe, At;
    ReaderPositions(h, |data|);
    TitleOfTags(f, h, title, titleBefore, found);
    hide *;
  }

  lemma ReaderPositions(h: Bytes, n: nat)
    requires |h| == HEADER_SIZE <= n && n + TAGS_SIZE < WORD
    requires Field32(h, 4) == n + TAGS_SIZE - 8 && Field32(h, 16) == 16 && Field32(h, 40) == n - HEADER_SIZE
    ensures DataStart(h) == HEADER_SIZE && DataSize(h) == n - HEADER_SIZE
    ensures DataEnd(h) == n + 1 && RiffSize(h) == n + TAGS_SIZE
  {
    hide FromLe, At;
  }

  lemma TitleOfTags(f: Bytes, h: Bytes, title: Bytes, titleBefore: Title, found: Title)
    requires |h| == HEADER_SIZE && |title| < 64 && '\0' !in title
    requires 1 <= DataEnd(h) < RiffSize(h) && DataEnd(h) <= |f| && f[DataEnd(h) - 1..] == Tags(title)
    requires FindsTitle(f, h, titleBefore, found)
    ensures found == if |title| < TITLE_MAX then Title(title) else Undefined
  {
    hide DataEnd, RiffSize;
    var s := f[SearchStart(f, h)..];
    assert s == Tags(title)[1..];
    TagsHoldTheTag(title);
    hide Tags, TitleChunk, FirstTag;
    TitleReadsBack(title);
    assert s[31 + 4..] == TitleChunk(title)[4..];
    hide TitleBehindTag;
  }

  lemma HeaderOfFile(f: Bytes, h: Bytes)
    requires |f| >= HEADER_SIZE && h == f[..HEADER_SIZE]
    ensures Field32(h, 4) == Field32(f, 4) && Field32(h, 16) == Field32(f, 16) && Field32(h, 24) == Field32(f, 24)
    ensures At(h, 34, 2) == At(f, 34, 2) && Field32(h, 40) == Field32(f, 40)
  {
    assert f == h + f[HEADER_SIZE..];
    SameField(f, h, f[HEADER_SIZE..], 4, 4);
    SameField(f, h, f[HEADER_SIZE..], 16, 4);
    SameField(f, h, f[HEADER_SIZE..], 24, 4);
    SameField(f, h, f[HEADER_SIZE..], 34, 2);
    SameField(f, h, f[HEADER_SIZE..], 40, 4);
  }
}
