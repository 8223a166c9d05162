/** WAV recordings: the layout that the writer leaves, and what the reader finds in a file.

A file is a sequence of bytes, each a `char` below 256, and a position.
 */
module WaveFile {

  type Bytes = seq<char>

  const WORD := 0x1_0000_0000

  const HEADER_SIZE := 44
  const TAGS_SIZE := 104

  // Little-endian numbers

  function Le(v: nat, count: nat): (s: Bytes)
    ensures |s| == count
  {
    if count == 0 then [] else [(v % 256) as char] + Le(v / 256, count - 1)
  }

  function FromLe(s: Bytes): nat { if s == [] then 0 else s[0] as int + 256 * FromLe(s[1..]) }

  function Power256(count: nat): nat { if count == 0 then 1 else 256 * Power256(count - 1) }

  lemma {:induction false} LeReadsBack(v: nat, count: nat)
    requires v < Power256(count)
    ensures FromLe(Le(v, count)) == v
  {
    if count > 0 {
      LeReadsBack(v / 256, count - 1);
      assert Le(v, count)[1..] == Le(v / 256, count - 1);
    }
  }

  function At(s: Bytes, start: nat, count: nat): Bytes
    requires start + count <= |s|
  {
    s[start..start + count]
  }

  /** A 32-bit little-endian field. */
  function Field32(s: Bytes, start: nat): nat
    requires start + 4 <= |s|
  {
    FromLe(At(s, start, 4))
  }

  // What is written

  /** Chunk name, chunk size 16, format tag 1 and one channel; rates; block size 2 and 16 bits. */
  function FormatChunk(rate: nat): (s: Bytes)
    ensures |s| == 24
  {
    ("fmt " + Le(16, 4) + (Le(1, 2) + Le(1, 2))) + (Le(rate, 4) + Le(rate * 2 % WORD, 4)) + (Le(2, 2) + Le(16, 2))
  }

  /** The sizes are 32-bit unsigned, as in the source's constructors. */
  function Header(rate: nat, dataSize: nat, infoSize: nat): (s: Bytes)
    ensures |s| == HEADER_SIZE
  {
    ("RIFF" + Le((HEADER_SIZE + dataSize + infoSize - 8) % WORD, 4) + "WAVE") + FormatChunk(rate) + ("data" + Le(dataSize, 4))
  }

  function Nuls(n: nat): (s: Bytes)
    ensures |s| == n && forall i :: 0 <= i < n ==> s[i] == '\0'
  {
    seq(n, _ => '\0')
  }

  /** The list header and the artist chunk, up to the title chunk. */
  function TagsHead(): (s: Bytes)
    ensures |s| == 32
  {
    "LIST" + Le(TAGS_SIZE - 8, 4) + "INFO" + "IART" + Le(12, 4) + "PortaPack" + Nuls(3)
  }

  /** The title is copied into a field of 64 bytes with its terminating zero. */
  function TitleChunk(title: Bytes): (s: Bytes)
    requires |title| < 64
    ensures |s| == 72
  {
    ("INAM" + Le(64, 4)) + (title + Nuls(64 - |title|))
  }

  function Tags(title: Bytes): (s: Bytes)
    requires |title| < 64
    ensures |s| == TAGS_SIZE
  {
    TagsHead() + TitleChunk(title)
  }

  /** Writing at a position overwrites what is there and extends the file. */
  function Overwritten(bytes: Bytes, pos: nat, data: Bytes): Bytes
    requires pos <= |bytes|
  {
    bytes[..pos] + data + if pos + |data| < |bytes| then bytes[pos + |data|..] else []
  }

  class File {
    var bytes: Bytes
    var pos: nat

    ghost predicate Valid()
      reads this
    {
      pos <= |bytes|
    }

    constructor (bytes: Bytes)
      ensures this.bytes == bytes && pos == 0
    {
      this.bytes, pos := bytes, 0;
    }

    /** Returns the old position.  A position past the end is cut to the end. */
    method Seek(newPosition: nat) returns (oldPosition: nat)
      modifies this`pos
      ensures oldPosition == old(pos) && Valid()
      ensures pos == if newPosition <= |bytes| then newPosition else |bytes|
    {
      oldPosition := pos;
      pos := if newPosition <= |bytes| then newPosition else |bytes|;
    }

    method Write(data: Bytes)
      requires Valid()
      modifies this
      ensures bytes == Overwritten(old(bytes), old(pos), data)
      ensures pos == old(pos) + |data| && Valid()
    {
      bytes := bytes[..pos] + data + if pos + |data| < |bytes| then bytes[pos + |data|..] else [];
      pos := pos + |data|;
    }

    /** Returns fewer bytes at the end of the file. */
    method Read(count: nat) returns (data: Bytes)
      requires Valid()
      modifies this`pos
      ensures Valid() && data == old(bytes[pos..if pos + count <= |bytes| then pos + count else |bytes|])
      ensures pos == old(pos) + |data|
    {
      var end := if pos + count <= |bytes| then pos + count else |bytes|;
      data := bytes[pos..end];
      pos := end;
    }
  }

  /** What a recording of `data` leaves in its file.  Creating the file writes a header and goes back
  to the start, so the first 44 bytes of data overwrite it, and closing overwrites them in turn. */
  function Recording(rate: nat, title: Bytes, data: Bytes): (s: Bytes)
    requires |title| < 64
    ensures |s| == |data| + TAGS_SIZE
  {
    Header(rate, (|data| - HEADER_SIZE) % WORD, TAGS_SIZE) + (data + Tags(title))[HEADER_SIZE..]
  }

  class WAVFileWriter {
    const file: File
    var bytesWritten: nat
    var samplingRate: nat
    var infoChunkSize: nat
    var title: Bytes

    /** The data written so far starts at the beginning of the file; the position is behind it. */
    ghost predicate Holds(data: Bytes)
      reads this, file
    {
      && file.Valid() && file.pos == bytesWritten == |data|
      && data <= file.bytes && HEADER_SIZE <= |file.bytes|
      && (|data| >= HEADER_SIZE ==> file.bytes == data)
      && (|data| < HEADER_SIZE ==> |file.bytes| == HEADER_SIZE)
    }

    constructor (file: File)
      requires file.bytes == [] && file.pos == 0
      ensures this.file == file && file.Valid() && bytesWritten == infoChunkSize == 0
    {
      this.file := file;
      bytesWritten, samplingRate, infoChunkSize, title := 0, 0, 0, [];
    }

    method UpdateHeader()
      requires file.Valid()
      modifies file
      ensures file.bytes ==
        Overwritten(old(file.bytes), 0, Header(samplingRate, (bytesWritten - HEADER_SIZE) % WORD, infoChunkSize))
      ensures file.pos == old(file.pos) && file.Valid()
    {
      hide Header;
      var header := Header(samplingRate, (bytesWritten - HEADER_SIZE) % WORD, infoChunkSize);
      var oldPosition := file.Seek(0);
      file.Write(header);
      var _ := file.Seek(oldPosition);
    }

    method Create(samplingRateSet: nat, titleSet: Bytes)
      requires file.bytes == [] && file.pos == 0 && bytesWritten == infoChunkSize == 0
      modifies this, file
      ensures Holds([]) && infoChunkSize == 0 && samplingRate == samplingRateSet && title == titleSet
    {
      samplingRate := samplingRateSet;
      title := titleSet;
      UpdateHeader();
    }

    method Write(block: Bytes, ghost data: Bytes)
      requires Holds(data)
      modifies this`bytesWritten, file
      ensures Holds(data + block)
    {
      file.Write(block);
      bytesWritten := bytesWritten + |block|;
    }

    method WriteTags()
      requires file.Valid() && |title| < 64
      modifies this`infoChunkSize, file
      ensures infoChunkSize == TAGS_SIZE
      ensures file.bytes == Overwritten(old(file.bytes), old(file.pos), Tags(title))
      ensures file.pos == old(file.pos) + TAGS_SIZE && file.Valid()
    {
      file.Write(Tags(title));
      infoChunkSize := TAGS_SIZE;
    }

    /** What the destructor does. */
    method Close(ghost data: Bytes)
      requires Holds(data) && |title| < 64
      modifies this`infoChunkSize, file
      ensures file.bytes == Recording(samplingRate, title, data)
    {
      hide Header, Tags, Overwritten;
      assert file.bytes[..file.pos] == data;
      TagsBehindData(file.bytes, data, Tags(title));
      WriteTags();
      HeaderInFront(data + Tags(title), Header(samplingRate, (bytesWritten - HEADER_SIZE) % WORD, infoChunkSize));
      UpdateHeader();
    }
  }

  lemma TagsBehindData(bytes: Bytes, data: Bytes, tags: Bytes)
    requires data <= bytes && |bytes| <= |data| + |tags|
    ensures Overwritten(bytes, |data|, tags) == data + tags
  {
  }

  lemma HeaderInFront(bytes: Bytes, header: Bytes)
    requires |header| <= |bytes|
    ensures Overwritten(bytes, 0, header) == header + bytes[|header|..]
  {
  }

  function Joined(blocks: seq<Bytes>): Bytes {
    if blocks == [] then [] else Joined(blocks[..|blocks| - 1]) + blocks[|blocks| - 1]
  }

  /** A whole recording, however the data is cut into blocks. */
  method Record(file: File, rate: nat, title: Bytes, blocks: seq<Bytes>)
    requires file.bytes == [] && file.pos == 0 && |title| < 64
    modifies file
    ensures file.bytes == Recording(rate, title, Joined(blocks))
  {
    var writer := new WAVFileWriter(file);
    writer.Create(rate, title);
    for i := 0 to |blocks|
      invariant writer.Holds(Joined(blocks[..i]))
      invariant writer.samplingRate == rate && writer.title == title
      invariant fresh(writer) && writer.file == file
    {
      assert blocks[..i + 1][..i] == blocks[..i];
      writer.Write(blocks[i], Joined(blocks[..i]));
    }
    assert blocks[..|blocks|] == blocks;
    writer.Close(Joined(blocks));
  }

  // The layout of a recording

  /** A field of a concatenation is a field of the part it lies in. */
  lemma InPart(a: Bytes, b: Bytes, c: Bytes, start: nat, count: nat)
    requires start + count <= |a| + |b| + |c|
    ensures start + count <= |a| ==> At(a + b + c, start, count) == At(a, start, count)
    ensures start >= |a| && start + count <= |a| + |b| ==> At(a + b + c, start, count) == At(b, start - |a|, count)
    ensures start >= |a| + |b| ==> At(a + b + c, start, count) == At(c, start - |a| - |b|, count)
  {
  }

  lemma WholePart(a: Bytes)
    ensures At(a, 0, |a|) == a
  {
  }

  lemma InHalf(a: Bytes, b: Bytes)
    ensures At(a + b, 0, |a|) == a && At(a + b, |a|, |b|) == b
  {
  }

  lemma FormatFields(rate: nat)
    requires rate < WORD
    ensures var f := FormatChunk(rate);
      At(f, 0, 4) == "fmt " && Field32(f, 4) == 16 && Field32(f, 12) == rate && FromLe(At(f, 22, 2)) == 16
  {
    assert Power256(4) == WORD && Power256(2) == 0x1_0000;
    LeReadsBack(16, 4);
    LeReadsBack(rate, 4);
    LeReadsBack(16, 2);
    hide Le, FromLe, At;
    var head, rates, sizes := "fmt " + Le(16, 4) + (Le(1, 2) + Le(1, 2)), Le(rate, 4) + Le(rate * 2 % WORD, 4), Le(2, 2) + Le(16, 2);
    InPart(head, rates, sizes, 0, 4);
    InPart("fmt ", Le(16, 4), (Le(1, 2) + Le(1, 2)), 0, 4);
    WholePart("fmt ");
    InPart(head, rates, sizes, 4, 4);
    InPart("fmt ", Le(16, 4), (Le(1, 2) + Le(1, 2)), 4, 4);
    WholePart(Le(16, 4));
    InPart(head, rates, sizes, 12, 4);
    InHalf(Le(rate, 4), Le(rate * 2 % WORD, 4));
    InPart(head, rates, sizes, 22, 2);
    InHalf(Le(2, 2), Le(16, 2));
  }

  lemma FormatNumbers(rate: nat)
    requires rate < WORD
    ensures var f := FormatChunk(rate);
      && FromLe(At(f, 8, 2)) == 1 && FromLe(At(f, 10, 2)) == 1
      && Field32(f, 16) == rate * 2 % WORD && FromLe(At(f, 20, 2)) == 2
  {
    assert Power256(4) == WORD && Power256(2) == 0x1_0000;
    LeReadsBack(1, 2);
    LeReadsBack(2, 2);
    LeReadsBack(rate * 2 % WORD, 4);
    hide Le, FromLe, At;
    var head, rates, sizes := "fmt " + Le(16, 4) + (Le(1, 2) + Le(1, 2)), Le(rate, 4) + Le(rate * 2 % WORD, 4), Le(2, 2) + Le(16, 2);
    InPart(head, rates, sizes, 8, 2);
    InPart("fmt ", Le(16, 4), (Le(1, 2) + Le(1, 2)), 8, 2);
    InPart(head, rates, sizes, 10, 2);
    InPart("fmt ", Le(16, 4), (Le(1, 2) + Le(1, 2)), 10, 2);
    InHalf(Le(1, 2), Le(1, 2));
    InPart(head, rates, sizes, 16, 4);
    InHalf(Le(rate, 4), Le(rate * 2 % WORD, 4));
    InPart(head, rates, sizes, 20, 2);
    InHalf(Le(2, 2), Le(16, 2));
  }

  lemma HeaderFields(rate: nat, dataSize: nat, infoSize: nat)
    requires rate < WORD && dataSize < WORD
    ensures var h := Header(rate, dataSize, infoSize);
      && At(h, 0, 4) == "RIFF" && Field32(h, 4) == (HEADER_SIZE + dataSize + infoSize - 8) % WORD && At(h, 8, 4) == "WAVE"
      && At(h, 12, 4) == "fmt " && Field32(h, 16) == 16 && Field32(h, 24) == rate && FromLe(At(h, 34, 2)) == 16
      && At(h, 36, 4) == "data" && Field32(h, 40) == dataSize
  {
    var size := (HEADER_SIZE + dataSize + infoSize - 8) % WORD;
    assert Power256(4) == WORD;
    LeReadsBack(size, 4);
    LeReadsBack(dataSize, 4);
    FormatFields(rate);
    hide Le, FromLe, FormatChunk, At;
    RiffFields(Le(size, 4), FormatChunk(rate), Le(dataSize, 4));
    var front, format, back := "RIFF" + Le(size, 4) + "WAVE", FormatChunk(rate), "data" + Le(dataSize, 4);
    InPart(front, format, back, 12, 4);
    InPart(front, format, back, 16, 4);
    InPart(front, format, back, 24, 4);
    InPart(front, format, back, 34, 2);
  }

  lemma RiffFields(size: Bytes, format: Bytes, dataSize: Bytes)
    requires |size| == |dataSize| == 4 && |format| == 24
    ensures var h := ("RIFF" + size + "WAVE") + format + ("data" + dataSize);
      At(h, 0, 4) == "RIFF" && At(h, 4, 4) == size && At(h, 8, 4) == "WAVE" && At(h, 36, 4) == "data" && At(h, 40, 4) == dataSize
  {
    hide At;
    var front, back := "RIFF" + size + "WAVE", "data" + dataSize;
    InPart(front, format, back, 0, 4);
    InPart(front, format, back, 4, 4);
    InPart(front, format, back, 8, 4);
    InPart("RIFF", size, "WAVE", 0, 4);
    InPart("RIFF", size, "WAVE", 4, 4);
    InPart("RIFF", size, "WAVE", 8, 4);
    WholePart("RIFF");
    WholePart(size);
    WholePart("WAVE");
    InPart(front, format, back, 36, 4);
    InPart(front, format, back, 40, 4);
    InHalf("data", dataSize);
  }

  lemma SizeFields(total: nat)
    requires total + TAGS_SIZE < WORD
    ensures var size := (total - HEADER_SIZE) % WORD;
      && (HEADER_SIZE + size + TAGS_SIZE - 8) % WORD == total + TAGS_SIZE - 8
      && (if total >= HEADER_SIZE then size == total - HEADER_SIZE else size == total - HEADER_SIZE + WORD)
  {
  }

  /** The other numbers of the format: uncompressed samples, one channel, a block of two bytes, and so
  many bytes a second as blocks are sampled. */
  lemma RecordingIsMonoPcm(rate: nat, title: Bytes, data: Bytes)
    requires rate < WORD && |title| < 64
    ensures var f := Recording(rate, title, data);
      && |f| >= HEADER_SIZE
      && At(f, 0, 4) == "RIFF" && At(f, 8, 4) == "WAVE" && At(f, 12, 4) == "fmt " && At(f, 36, 4) == "data"
      && FromLe(At(f, 20, 2)) == 1 && FromLe(At(f, 22, 2)) == 1
      && FromLe(At(f, 32, 2)) * 8 == FromLe(At(f, 22, 2)) * FromLe(At(f, 34, 2))
      && Field32(f, 28) == Field32(f, 24) * FromLe(At(f, 32, 2)) % WORD
  {
    var size := (|data| - HEADER_SIZE) % WORD;
    var h, body := Header(rate, size, TAGS_SIZE), (data + Tags(title))[HEADER_SIZE..];
    HeaderFields(rate, size, TAGS_SIZE);
    PcmFields(rate, size, TAGS_SIZE);
    assert Recording(rate, title, data) == h + body;
    hide Header, Tags, FromLe, At, Recording;
    SameFields(h + body, h, body);
  }

  lemma PcmFields(rate: nat, dataSize: nat, infoSize: nat)
    requires rate < WORD && dataSize < WORD
    ensures var h := Header(rate, dataSize, infoSize);
      && FromLe(At(h, 20, 2)) == 1 && FromLe(At(h, 22, 2)) == 1
      && Field32(h, 28) == rate * 2 % WORD && FromLe(At(h, 32, 2)) == 2
  {
    FormatNumbers(rate);
    hide Le, FromLe, FormatChunk, At;
    var size := (HEADER_SIZE + dataSize + infoSize - 8) % WORD;
    var front, format, back := "RIFF" + Le(size, 4) + "WAVE", FormatChunk(rate), "data" + Le(dataSize, 4);
    InPart(front, format, back, 20, 2);
    InPart(front, format, back, 22, 2);
    InPart(front, format, back, 28, 4);
    InPart(front, format, back, 32, 2);
  }

  lemma SameFields(f: Bytes, h: Bytes, body: Bytes)
    requires f == h + body && |h| == HEADER_SIZE
    ensures At(f, 0, 4) == At(h, 0, 4) && At(f, 8, 4) == At(h, 8, 4) && At(f, 12, 4) == At(h, 12, 4)
    ensures At(f, 20, 2) == At(h, 20, 2) && At(f, 22, 2) == At(h, 22, 2) && At(f, 24, 4) == At(h, 24, 4)
    ensures At(f, 28, 4) == At(h, 28, 4) && At(f, 32, 2) == At(h, 32, 2) && At(f, 34, 2) == At(h, 34, 2)
    ensures At(f, 36, 4) == At(h, 36, 4)
  {
    hide At;
    SameField(f, h, body, 0, 4);
    SameField(f, h, body, 8, 4);
    SameField(f, h, body, 12, 4);
    SameField(f, h, body, 20, 2);
    SameField(f, h, body, 22, 2);
    SameField(f, h, body, 24, 4);
    SameField(f, h, body, 28, 4);
    SameField(f, h, body, 32, 2);
    SameField(f, h, body, 34, 2);
    SameField(f, h, body, 36, 4);
  }

  /** The tags behind the data: the size of their list, the artist and the title, with its zeros. */
  lemma TagsFields(title: Bytes)
    requires |title| < 64
    ensures var t := Tags(title);
      && At(t, 0, 4) == "LIST" && Field32(t, 4) == |t| - 8 && At(t, 8, 4) == "INFO"
      && At(t, 12, 4) == "IART" && Field32(t, 16) == 12 && At(t, 20, 9) == "PortaPack" && t[29] == t[30] == t[31] == '\0'
      && At(t, 32, 4) == "INAM" && Field32(t, 36) == 64
      && At(t, 40, |title|) == title && forall i :: 40 + |title| <= i < |t| ==> t[i] == '\0'
  {
    HeadFields();
    TitleFields(title);
    hide TagsHead, TitleChunk, FromLe;
    var head, chunk := TagsHead(), TitleChunk(title);
    SecondHalf(head, chunk);
    hide Tags;
  }

  lemma HeadFields()
    ensures var t := TagsHead();
      && At(t, 0, 4) == "LIST" && Field32(t, 4) == TAGS_SIZE - 8 && At(t, 8, 4) == "INFO"
      && At(t, 12, 4) == "IART" && Field32(t, 16) == 12 && At(t, 20, 9) == "PortaPack" && t[29] == t[30] == t[31] == '\0'
  {
    assert Power256(4) == WORD;
    LeReadsBack(TAGS_SIZE - 8, 4);
    LeReadsBack(12, 4);
    hide Le, FromLe;
    assert TagsHead()[4..8] == Le(TAGS_SIZE - 8, 4);
    assert TagsHead()[16..20] == Le(12, 4);
  }

  lemma TitleFields(title: Bytes)
    requires |title| < 64
    ensures var c := TitleChunk(title);
      && At(c, 0, 4) == "INAM" && Field32(c, 4) == 64
      && At(c, 8, |title|) == title && forall i :: 8 + |title| <= i < |c| ==> c[i] == '\0'
  {
    assert Power256(4) == WORD;
    LeReadsBack(64, 4);
    hide Le, FromLe;
    assert TitleChunk(title)[4..8] == Le(64, 4);
  }

  /** A field of two parts lies in the first or in the second. */
  lemma SecondHalf(a: Bytes, b: Bytes)
    ensures forall i, n :: 0 <= i && 0 <= n && i + n <= |a| ==> At(a + b, i, n) == At(a, i, n)
    ensures forall i, n :: 0 <= n && |a| <= i && i + n <= |a| + |b| ==> At(a + b, i, n) == At(b, i - |a|, n)
    ensures forall i :: 0 <= i < |a| ==> (a + b)[i] == a[i]
    ensures forall i :: |a| <= i < |a| + |b| ==> (a + b)[i] == b[i - |a|]
  {
    forall i, n | 0 <= i && 0 <= n && i + n <= |a| ensures At(a + b, i, n) == At(a, i, n) {
      InPart(a, b, [], i, n);
      assert a + b + [] == a + b;
    }
    forall i, n | 0 <= n && |a| <= i && i + n <= |a| + |b| ensures At(a + b, i, n) == At(b, i - |a|, n) {
      InPart(a, b, [], i, n);
      assert a + b + [] == a + b;
    }
  }

  /** The RIFF size is always the file length less 8; the data chunk describes the data behind the
  header, with the tags directly after it, exactly when there are at least 44 bytes of data. */
  lemma LayoutOfRecording(rate: nat, title: Bytes, data: Bytes)
    requires rate < WORD && |title| < 64 && |data| + TAGS_SIZE < WORD
    ensures var f := Recording(rate, title, data);
      && |f| == |data| + TAGS_SIZE
      && Field32(f, 4) == |f| - 8 && Field32(f, 16) == 16 && Field32(f, 24) == rate && FromLe(At(f, 34, 2)) == 16
      && (Field32(f, 40) + HEADER_SIZE <= |f| <==> |data| >= HEADER_SIZE)
      && (|data| >= HEADER_SIZE ==>
            Field32(f, 40) == |data| - HEADER_SIZE && f[HEADER_SIZE..|data|] == data[HEADER_SIZE..] && f[|data|..] == Tags(title))
  {
    var size := (|data| - HEADER_SIZE) % WORD;
    HeaderFields(rate, size, TAGS_SIZE);
    SizeFields(|data|);
    RecordingParts(rate, title, data, size);
    hide *;
  }

  lemma RecordingParts(rate: nat, title: Bytes, data: Bytes, size: nat)
    requires |title| < 64 && size == (|data| - HEADER_SIZE) % WORD
    ensures var f, h := Recording(rate, title, data), Header(rate, size, TAGS_SIZE);
      && Field32(f, 4) == Field32(h, 4) && Field32(f, 16) == Field32(h, 16) && Field32(f, 24) == Field32(h, 24)
      && At(f, 34, 2) == At(h, 34, 2) && Field32(f, 40) == Field32(h, 40)
      && (|data| >= HEADER_SIZE ==> f[HEADER_SIZE..|data|] == data[HEADER_SIZE..] && f[|data|..] == Tags(title))
  {
    hide Header, Tags, FromLe, At;
    var h, body := Header(rate, size, TAGS_SIZE), (data + Tags(title))[HEADER_SIZE..];
    var f := h + body;
    assert f == Recording(rate, title, data);
    hide Recording;
    SameField(f, h, body, 4, 4);
    SameField(f, h, body, 16, 4);
    SameField(f, h, body, 24, 4);
    SameField(f, h, body, 34, 2);
    SameField(f, h, body, 40, 4);
    if |data| >= HEADER_SIZE {
      assert body == data[HEADER_SIZE..] + Tags(title);
      DataThenTags(f, h, data[HEADER_SIZE..], Tags(title));
    }
  }

  lemma DataThenTags(f: Bytes, h: Bytes, data: Bytes, tags: Bytes)
    requires f == h + (data + tags)
    ensures f[|h|..|h| + |data|] == data && f[|h| + |data|..] == tags
  {
  }

  lemma SameField(f: Bytes, h: Bytes, body: Bytes, start: nat, count: nat)
    requires f == h + body && start + count <= |h|
    ensures At(f, start, count) == At(h, start, count)
  {
  }
}
