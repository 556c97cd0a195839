/** The PNG writer, and a reader built from RFC 2083 sections 3.1, 3.2, 4.1.1, 4.1.3 and 6.2. */
module Png {
  import opened Options
  import opened Crc32
  import opened FourBytes

  const SIGNATURE: Bytes := [0x89, 0x50, 0x4e, 0x47, 0x0d, 0x0a, 0x1a, 0x0a]
  const IHDR: Bytes := [0x49, 0x48, 0x44, 0x52]
  const IDAT: Bytes := [0x49, 0x44, 0x41, 0x54]
  const IEND: Bytes := [0x49, 0x45, 0x4e, 0x44]

  // ---------------------------------------------------------------------------------------------
  // The writer. Where the writer throws a range error the result is None.
  // ---------------------------------------------------------------------------------------------

  function Chunk(kind: Bytes, data: Bytes): Option<Bytes> {
    if |data| >= LIMIT then None else Some(Be32(|data|) + kind + data + Be32(Crc(kind + data) as int))
  }

  function Header(width: nat, height: nat): (r: Bytes)
    ensures |r| == 13
  {
    Be32(width) + Be32(height) + [8, 6, 0, 0, 0]
  }

  /** A pixel byte as the writer reads it: past the end of the array it is zero. */
  function At(pixels: Bytes, i: nat): Byte {
    if i < |pixels| then pixels[i] else 0
  }

  function Row(pixels: Bytes, rowBytes: nat, y: nat): (r: Bytes)
    ensures |r| == rowBytes
  {
    seq(rowBytes, x requires 0 <= x < rowBytes => At(pixels, y * rowBytes + x))
  }

  /** Rows y, y+1, ..., each with a zero filter byte in front. */
  function Scanlines(pixels: Bytes, rowBytes: nat, y: nat, height: nat): Bytes
    requires y <= height
    decreases height - y
  {
    if y == height then [] else [0] + Row(pixels, rowBytes, y) + Scanlines(pixels, rowBytes, y + 1, height)
  }

  function Assemble(width: nat, height: nat, compressed: Bytes): Option<Bytes> {
    var ihdr, idat, iend := Chunk(IHDR, Header(width, height)), Chunk(IDAT, compressed), Chunk(IEND, []);
    if width >= LIMIT || height >= LIMIT || idat.None? then None
    else Some(SIGNATURE + (ihdr.value + (idat.value + iend.value)))
  }

  function Encode(width: nat, height: nat, pixels: Bytes, deflate: Bytes -> Bytes): Option<Bytes> {
    Assemble(width, height, deflate(Scanlines(pixels, width * 4, 0, height)))
  }

  lemma {:induction false} ScanlinesLength(pixels: Bytes, rowBytes: nat, y: nat, height: nat)
    requires y <= height
    ensures |Scanlines(pixels, rowBytes, y, height)| == (height - y) * (rowBytes + 1)
    decreases height - y
  {
    if y < height {
      ScanlinesLength(pixels, rowBytes, y + 1, height);
      OneRowLess(height - y, rowBytes + 1);
    }
  }

  lemma OneRowLess(rows: nat, size: nat)
    requires rows > 0
    ensures rows * size == size + (rows - 1) * size
  {
  }

  // ---------------------------------------------------------------------------------------------
  // The code that fills the buffers
  // ---------------------------------------------------------------------------------------------

  method FillRow(raw: array<Byte>, base: nat, pixels: Bytes, rowBytes: nat, y: nat)
    requires base + rowBytes + 1 <= raw.Length
    modifies raw
    ensures raw[..base + rowBytes + 1] == old(raw[..base]) + ([0] + Row(pixels, rowBytes, y))
  {
    ghost var row := Row(pixels, rowBytes, y);
    raw[base] := 0;
    for x := 0 to rowBytes
      invariant raw[..base] == old(raw[..base]) && raw[base] == 0
      invariant forall i :: 0 <= i < x ==> raw[base + 1 + i] == row[i]
    {
      raw[base + 1 + x] := At(pixels, y * rowBytes + x);
    }
    RowIsIn(raw[..base + rowBytes + 1], old(raw[..base]), row);
  }

  lemma RowIsIn(s: Bytes, before: Bytes, row: Bytes)
    requires |s| == |before| + 1 + |row| && s[..|before|] == before && s[|before|] == 0
    requires forall i :: 0 <= i < |row| ==> s[|before| + 1 + i] == row[i]
    ensures s == before + ([0] + row)
  {
    assert s[|before| + 1..] == row;
    assert s == s[..|before|] + [s[|before|]] + s[|before| + 1..];
  }

  lemma MoveRow<T>(done: seq<T>, row: seq<T>, rest: seq<T>, all: seq<T>)
    requires done + (row + rest) == all
    ensures (done + row) + rest == all && |done| + |row| <= |all|
  {
  }

  method PackScanlines(width: nat, height: nat, pixels: Bytes) returns (raw: array<Byte>)
    ensures fresh(raw) && raw[..] == Scanlines(pixels, width * 4, 0, height)
  {
    var rowBytes := width * 4;
    ghost var all := Scanlines(pixels, rowBytes, 0, height);
    ScanlinesLength(pixels, rowBytes, 0, height);
    raw := new Byte[height * (rowBytes + 1)](_ => 0);
    var base := FillRows(raw, rowBytes, height, pixels, all);
    assert raw[..base] == raw[..];
  }

  lemma ScanlinesStep(pixels: Bytes, rowBytes: nat, y: nat, height: nat)
    requires y < height
    ensures Scanlines(pixels, rowBytes, y, height) == ([0] + Row(pixels, rowBytes, y)) + Scanlines(pixels, rowBytes, y + 1, height)
  {
  }

  method FillRows(raw: array<Byte>, rowBytes: nat, height: nat, pixels: Bytes, ghost all: Bytes) returns (base: nat)
    requires all == Scanlines(pixels, rowBytes, 0, height) && raw.Length == |all|
    modifies raw
    ensures base == raw.Length && raw[..base] == all
  {
    base := 0;
    ghost var done: Bytes := [];
    for y := 0 to height
      invariant IsFilled(raw, base, done) && done + Scanlines(pixels, rowBytes, y, height) == all
    {
      ghost var row := [0] + Row(pixels, rowBytes, y);
      ScanlinesStep(pixels, rowBytes, y, height);
      MoveRow(done, row, Scanlines(pixels, rowBytes, y + 1, height), all);
      base := FillNext(raw, base, pixels, rowBytes, y, done, row);
      done := done + row;
    }
  }

  ghost predicate IsFilled(raw: array<Byte>, base: int, done: Bytes)
    reads raw
  {
    0 <= base <= raw.Length && raw[..base] == done
  }

  method FillNext(raw: array<Byte>, base: nat, pixels: Bytes, rowBytes: nat, y: nat, ghost done: Bytes,
      ghost row: Bytes)
    returns (next: nat)
    requires IsFilled(raw, base, done) && row == [0] + Row(pixels, rowBytes, y) && |done| + |row| <= raw.Length
    modifies raw
    ensures IsFilled(raw, next, done + row)
  {
    FillRow(raw, base, pixels, rowBytes, y);
    next := base + (rowBytes + 1);
  }

  /** Writes one chunk; the checksum covers type and data. */
  method WriteChunk(table: array<Word>, kind: Bytes, data: Bytes) returns (chunk: Option<Bytes>)
    requires IsTable(table[..])
    ensures chunk == Chunk(kind, data)
  {
    if |data| >= LIMIT {
      return None;
    }
    var crc := ComputeCrc(table, kind + data);
    return Some(Be32(|data|) + kind + data + Be32(crc as int));
  }

  method EncodePng(width: nat, height: nat, pixels: Bytes, deflate: Bytes -> Bytes) returns (png: Option<Bytes>)
    ensures png == Encode(width, height, pixels, deflate)
  {
    if width >= LIMIT || height >= LIMIT {
      return None;
    }
    var table := MakeCrcTable();
    var raw := PackScanlines(width, height, pixels);
    var ihdr := WriteChunk(table, IHDR, Header(width, height));
    var idat := WriteChunk(table, IDAT, deflate(raw[..]));
    var iend := WriteChunk(table, IEND, []);
    if idat.None? {
      return None;
    }
    return Some(SIGNATURE + (ihdr.value + (idat.value + iend.value)));
  }

  // ---------------------------------------------------------------------------------------------
  // A reader
  // ---------------------------------------------------------------------------------------------

  datatype RawChunk = RawChunk(kind: Bytes, data: Bytes)

  datatype Image = Image(width: nat, height: nat, pixels: Bytes)

  /** The first chunk of the stream and what follows it, if its length and checksum are right. */
  function ReadChunk(b: Bytes): (r: Option<(RawChunk, Bytes)>)
    ensures r.Some? ==> |r.value.1| < |b|
  {
    if |b| < 12 || |b| < 12 + ReadBe32(b) then None
    else
      var end := 8 + ReadBe32(b);
      if ReadBe32(b[end..]) != Crc(b[4..end]) as int then None
      else Some((RawChunk(b[4..8], b[8..end]), b[end + 4..]))
  }

  /** All chunks up to the end of the stream. */
  function ReadChunks(b: Bytes): Option<seq<RawChunk>>
    decreases |b|
  {
    if b == [] then Some([])
    else
      var first := ReadChunk(b);
      if first.None? then None
      else
        var more := ReadChunks(first.value.1);
        if more.None? then None else Some([first.value.0] + more.value)
  }

  /** The data of the IDAT chunks, joined. */
  function Compressed(chunks: seq<RawChunk>): Bytes {
    if chunks == [] then []
    else (if chunks[0].kind == IDAT then chunks[0].data else []) + Compressed(chunks[1..])
  }

  function Unfilter(raw: Bytes, rowBytes: nat, height: nat): Option<Bytes>
    decreases height
  {
    if height == 0 then if raw == [] then Some([]) else None
    else if |raw| < rowBytes + 1 || raw[0] != 0 then None
    else
      var more := Unfilter(raw[rowBytes + 1..], rowBytes, height - 1);
      if more.None? then None else Some(raw[1..rowBytes + 1] + more.value)
  }

  /** Reads an eight-bit RGBA image without interlace whose rows all use filter type None. */
  function Decode(b: Bytes, inflate: Bytes -> Bytes): Option<Image> {
    if |b| < 8 || b[..8] != SIGNATURE then None
    else
      var chunks := ReadChunks(b[8..]);
      if chunks.None? then None else DecodeChunks(chunks.value, inflate)
  }

  function DecodeChunks(chunks: seq<RawChunk>, inflate: Bytes -> Bytes): Option<Image> {
    if |chunks| < 2 || chunks[0].kind != IHDR || |chunks[0].data| != 13 || chunks[0].data[8..] != [8, 6, 0, 0, 0]
       || chunks[|chunks| - 1] != RawChunk(IEND, []) then None
    else
      var width, height := ReadBe32(chunks[0].data), ReadBe32(chunks[0].data[4..]);
      var pixels := Unfilter(inflate(Compressed(chunks)), width * 4, height);
      if pixels.None? then None else Some(Image(width, height, pixels.value))
  }

  lemma CutFields<T>(length: seq<T>, kind: seq<T>, data: seq<T>, check: seq<T>, rest: seq<T>, b: seq<T>)
    requires |length| == |kind| == |check| == 4 && b == length + kind + data + check + rest
    ensures b == length + (kind + data + check + rest)
    ensures var end := 8 + |data|;
            && b[4..8] == kind && b[8..end] == data && b[4..end] == kind + data
            && b[end..] == check + rest && b[end + 4..] == rest
  {
  }

  /** A chunk is read exactly if its last field holds the checksum of type and data. */
  lemma ReadParts(kind: Bytes, data: Bytes, check: nat, rest: Bytes)
    requires |kind| == 4 && |data| < LIMIT && check < LIMIT
    ensures ReadChunk(Be32(|data|) + kind + data + Be32(check) + rest)
         == if check == Crc(kind + data) as int then Some((RawChunk(kind, data), rest)) else None
  {
    CutFields(Be32(|data|), kind, data, Be32(check), rest, Be32(|data|) + kind + data + Be32(check) + rest);
    Be32RoundTrip(|data|, kind + data + Be32(check) + rest);
    Be32RoundTrip(check, rest);
  }

  lemma ReadWrittenChunk(kind: Bytes, data: Bytes, rest: Bytes)
    requires |kind| == 4 && |data| < LIMIT
    ensures ReadChunk(Chunk(kind, data).value + rest) == Some((RawChunk(kind, data), rest))
  {
    ReadParts(kind, data, Crc(kind + data) as int, rest);
  }

  lemma ReadWrittenChunks(kind: Bytes, data: Bytes, rest: Bytes, more: seq<RawChunk>)
    requires |kind| == 4 && |data| < LIMIT && ReadChunks(rest) == Some(more)
    ensures ReadChunks(Chunk(kind, data).value + rest) == Some([RawChunk(kind, data)] + more)
  {
    ReadWrittenChunk(kind, data, rest);
  }

  function Rows(pixels: Bytes, rowBytes: nat, y: nat, height: nat): Bytes
    requires y <= height
    decreases height - y
  {
    if y == height then [] else Row(pixels, rowBytes, y) + Rows(pixels, rowBytes, y + 1, height)
  }

  lemma {:induction false} UnfilterScanlines(pixels: Bytes, rowBytes: nat, y: nat, height: nat)
    requires y <= height
    ensures Unfilter(Scanlines(pixels, rowBytes, y, height), rowBytes, height - y)
         == Some(Rows(pixels, rowBytes, y, height))
    decreases height - y
  {
    if y < height {
      UnfilterScanlines(pixels, rowBytes, y + 1, height);
      var raw := Scanlines(pixels, rowBytes, y, height);
      assert raw[1..rowBytes + 1] == Row(pixels, rowBytes, y);
      assert raw[rowBytes + 1..] == Scanlines(pixels, rowBytes, y + 1, height);
    }
  }

  /** The rows joined are the pixel array, cut or filled with zeros to the size of the image. */
  lemma {:induction false} RowsArePixels(pixels: Bytes, rowBytes: nat, y: nat, height: nat)
    requires y <= height
    ensures |Rows(pixels, rowBytes, y, height)| == (height - y) * rowBytes
    ensures forall i :: 0 <= i < |Rows(pixels, rowBytes, y, height)| ==>
              Rows(pixels, rowBytes, y, height)[i] == At(pixels, y * rowBytes + i)
    decreases height - y
  {
    if y < height {
      RowsArePixels(pixels, rowBytes, y + 1, height);
      OneRowLess(height - y, rowBytes);
      OneRowLess(y + 1, rowBytes);
    }
  }

  lemma ReadHeader(width: nat, height: nat)
    requires width < LIMIT && height < LIMIT
    ensures ReadBe32(Header(width, height)) == width && ReadBe32(Header(width, height)[4..]) == height
    ensures Header(width, height)[8..] == [8, 6, 0, 0, 0]
  {
    Be32RoundTrip(width, Be32(height) + [8, 6, 0, 0, 0]);
    Be32RoundTrip(height, [8, 6, 0, 0, 0]);
    assert Header(width, height) == Be32(width) + (Be32(height) + [8, 6, 0, 0, 0]);
    assert Header(width, height)[4..] == Be32(height) + [8, 6, 0, 0, 0];
  }

  function ThreeChunks(width: nat, height: nat, compressed: Bytes): seq<RawChunk> {
    [RawChunk(IHDR, Header(width, height))] + ([RawChunk(IDAT, compressed)] + ([RawChunk(IEND, [])] + []))
  }

  lemma CutSignature<T>(signature: seq<T>, rest: seq<T>)
    requires |signature| == 8
    ensures (signature + rest)[..8] == signature && (signature + rest)[8..] == rest
  {
  }

  lemma ReadAssembled(width: nat, height: nat, compressed: Bytes)
    requires Assemble(width, height, compressed).Some?
    ensures var png := Assemble(width, height, compressed).value;
            |png| >= 8 && png[..8] == SIGNATURE && ReadChunks(png[8..]) == Some(ThreeChunks(width, height, compressed))
  {
    var ihdr, idat := Chunk(IHDR, Header(width, height)).value, Chunk(IDAT, compressed).value;
    var iend := Chunk(IEND, []).value;
    ReadWrittenChunks(IEND, [], [], []);
    assert iend + [] == iend;
    ReadWrittenChunks(IDAT, compressed, iend, [RawChunk(IEND, [])] + []);
    ReadWrittenChunks(IHDR, Header(width, height), idat + iend, [RawChunk(IDAT, compressed)] + ([RawChunk(IEND, [])] + []));
    CutSignature(SIGNATURE, ihdr + (idat + iend));
  }

  lemma CompressedOfThree(width: nat, height: nat, data: Bytes)
    ensures Compressed(ThreeChunks(width, height, data)) == data
  {
    var iend := [RawChunk(IEND, [])] + [];
    assert Compressed(iend) == [];
    var idat := [RawChunk(IDAT, data)] + iend;
    assert idat[1..] == iend;
    assert Compressed(idat) == data + [];
    assert ThreeChunks(width, height, data)[1..] == idat;
    assert Compressed(ThreeChunks(width, height, data)) == [] + data;
  }

  lemma DecodeThree(width: nat, height: nat, compressed: Bytes, inflate: Bytes -> Bytes)
    requires width < LIMIT && height < LIMIT
    requires Unfilter(inflate(compressed), width * 4, height).Some?
    ensures DecodeChunks(ThreeChunks(width, height, compressed), inflate)
         == Some(Image(width, height, Unfilter(inflate(compressed), width * 4, height).value))
  {
    var chunks := ThreeChunks(width, height, compressed);
    assert chunks[0] == RawChunk(IHDR, Header(width, height)) && chunks[|chunks| - 1] == RawChunk(IEND, []);
    ReadHeader(width, height);
    CompressedOfThree(width, height, compressed);
  }

  /** Whatever is written is read back: dimensions and every pixel byte, given that inflate undoes
      deflate on it. Nothing is written exactly when a number does not fit its four-byte field. */
  lemma EncodeRoundTrip(width: nat, height: nat, pixels: Bytes, deflate: Bytes -> Bytes, inflate: Bytes -> Bytes)
    requires var raw := Scanlines(pixels, width * 4, 0, height); inflate(deflate(raw)) == raw
    ensures var raw := Scanlines(pixels, width * 4, 0, height);
            var png := Encode(width, height, pixels, deflate);
            if width >= LIMIT || height >= LIMIT || |deflate(raw)| >= LIMIT then png.None?
            else png.Some? && Decode(png.value, inflate) == Some(Image(width, height, Rows(pixels, width * 4, 0, height)))
  {
    var raw := Scanlines(pixels, width * 4, 0, height);
    UnfilterScanlines(pixels, width * 4, 0, height);
    if Encode(width, height, pixels, deflate).Some? {
      ReadAssembled(width, height, deflate(raw));
      DecodeThree(width, height, deflate(raw), inflate);
    }
  }

  /** A pixel array of the right size comes back as it was. */
  lemma ExactPixelsComeBack(width: nat, height: nat, pixels: Bytes)
    requires |pixels| == height * (width * 4)
    ensures Rows(pixels, width * 4, 0, height) == pixels
  {
    RowsArePixels(pixels, width * 4, 0, height);
  }

  /** A shorter array is filled up with zeros, and a longer one is cut. */
  lemma PixelsAreFilled(width: nat, height: nat, pixels: Bytes, i: nat)
    requires i < height * (width * 4)
    ensures |Rows(pixels, width * 4, 0, height)| == height * (width * 4)
    ensures Rows(pixels, width * 4, 0, height)[i] == if i < |pixels| then pixels[i] else 0
  {
    RowsArePixels(pixels, width * 4, 0, height);
  }

  lemma NumbersDiffer(v: Word, w: Word)
    requires v != w
    ensures v as int != w as int
  {
    WordBack(v);
    WordBack(w);
  }

  lemma WordBack(w: Word)
    ensures (w as int) as Word == w
  {
  }

  lemma SplitBody<T>(length: seq<T>, body: seq<T>, check: seq<T>, rest: seq<T>)
    requires |body| >= 4
    ensures body == body[..4] + body[4..]
    ensures length + body + check + rest == length + body[..4] + body[4..] + check + rest
  {
    assert length + body == length + body[..4] + body[4..];
  }

  /** A chunk is rejected whose checksum is that of other bytes. */
  lemma WrongCheckIsRejected(length: nat, body: Bytes, crc: Word, rest: Bytes)
    requires |body| == 4 + length && length < LIMIT && crc != Crc(body)
    ensures ReadChunk(Be32(length) + body + Be32(crc as int) + rest) == None
  {
    SplitBody(Be32(length), body, Be32(crc as int), rest);
    ReadParts(body[..4], body[4..], crc as int, rest);
    NumbersDiffer(crc, Crc(body));
  }

  /** A written chunk whose type or data is changed within four consecutive bytes is rejected. */
  lemma DamagedChunkIsRejected(kind: Bytes, data: Bytes, before: Bytes, a: Bytes, b: Bytes, after: Bytes, rest: Bytes)
    requires |kind| == 4 && |data| < LIMIT && kind + data == before + a + after
    requires |a| == |b| <= 4 && a != b
    ensures ReadChunk(Be32(|data|) + (before + b + after) + Be32(Crc(kind + data) as int) + rest) == None
  {
    BurstsAreDetected(before, a, b, after);
    WrongCheckIsRejected(|data|, before + b + after, Crc(kind + data), rest);
  }

  // ---------------------------------------------------------------------------------------------
  // The bytes themselves
  // ---------------------------------------------------------------------------------------------

  lemma FeedFour(c: Word, k: Bytes, c1: Word, c2: Word, c3: Word, c4: Word)
    requires |k| == 4 && FeedsTo(c, k[0], c1) && FeedsTo(c1, k[1], c2) && FeedsTo(c2, k[2], c3) && FeedsTo(c3, k[3], c4)
    ensures Feed(c, k) == c4
  {
    FeedNext(c, k, 0);
    FeedNext(c, k, 1);
    FeedNext(c, k, 2);
    FeedNext(c, k, 3);
    assert k[..0] == [] && k[..4] == k;
  }

  predicate FeedsTo(c: Word, b: Byte, d: Word) {
    FeedByte(c, b) == d
  }

  lemma IendSteps()
    ensures FeedsTo(0xffffffff, 0x49, 0x22fde946) && FeedsTo(0x22fde946, 0x45, 0x992bac53)
    ensures FeedsTo(0x992bac53, 0x4e, 0x639f4775) && FeedsTo(0x639f4775, 0x44, 0x51bd9f7d)
  {
  }

  lemma CrcOfIend()
    ensures Crc([0x49, 0x45, 0x4e, 0x44]) == 0xae426082
  {
    IendSteps();
    FeedFour(0xffffffff, [0x49, 0x45, 0x4e, 0x44], 0x22fde946, 0x992bac53, 0x639f4775, 0x51bd9f7d);
  }

  lemma ChunkWithoutData(kind: Bytes, check: Word)
    requires Crc(kind) == check
    ensures Chunk(kind, []) == Some(Be32(0) + kind + Be32(check as int))
  {
    assert kind + [] == kind && Be32(0) + kind + [] == Be32(0) + kind;
  }

  lemma NumbersOfEnd()
    ensures Be32(0) == [0, 0, 0, 0] && Be32(0xae426082) == [0xae, 0x42, 0x60, 0x82]
  {
    assert ByteOf(0) == 0;
    assert 0xae426082 / 256 / 256 / 256 % 256 == 0xae && 0xae426082 / 256 / 256 % 256 == 0x42;
    assert 0xae426082 / 256 % 256 == 0x60 && 0xae426082 % 256 == 0x82;
    ByteOfNumber(0xae426082 / 256 / 256 / 256, 0xae);
    ByteOfNumber(0xae426082 / 256 / 256, 0x42);
    ByteOfNumber(0xae426082 / 256, 0x60);
    ByteOfNumber(0xae426082, 0x82);
  }

  lemma ByteOfNumber(n: int, b: Byte)
    requires n % 256 == b as int
    ensures ByteOf(n) == b
  {
    NumberBack(b);
  }

  /** The last chunk of every PNG file. */
  lemma EndChunk()
    ensures Chunk(IEND, []) == Some([0, 0, 0, 0, 0x49, 0x45, 0x4e, 0x44, 0xae, 0x42, 0x60, 0x82])
  {
    CrcOfIend();
    ChunkWithoutData(IEND, 0xae426082);
    NumbersOfEnd();
    assert [0, 0, 0, 0] + IEND + [0xae, 0x42, 0x60, 0x82]
        == [0, 0, 0, 0, 0x49, 0x45, 0x4e, 0x44, 0xae, 0x42, 0x60, 0x82];
  }

  lemma LengthOfHeader()
    ensures Be32(13) == [0, 0, 0, 13]
  {
    ByteOfNumber(0, 0);
    ByteOfNumber(13, 13);
    assert 13 / 256 == 0 && 0 / 256 == 0;
  }

  lemma HeaderChunk(width: nat, height: nat)
    ensures var chunk := Chunk(IHDR, Header(width, height)).value;
            && |chunk| == 25 && chunk[..8] == [0, 0, 0, 13, 0x49, 0x48, 0x44, 0x52]
            && chunk[8..12] == Be32(width) && chunk[12..16] == Be32(height) && chunk[16..21] == [8, 6, 0, 0, 0]
  {
    var header := Header(width, height);
    var check := Be32(Crc(IHDR + header) as int);
    LengthOfHeader();
    FramePieces([0, 0, 0, 13], IHDR, Be32(width), Be32(height), [8, 6, 0, 0, 0], check);
  }

  lemma FramePieces(length: Bytes, kind: Bytes, width: Bytes, height: Bytes, tail: Bytes, check: Bytes)
    requires |length| == |kind| == |width| == |height| == |check| == 4 && |tail| == 5
    ensures var chunk := length + kind + (width + height + tail) + check;
            && |chunk| == 25 && chunk[..8] == length + kind
            && chunk[8..12] == width && chunk[12..16] == height && chunk[16..21] == tail
  {
  }

  /** The fixed bytes of a file: signature, header chunk of an eight-bit RGBA image, one data chunk of `n` bytes,
      end chunk. */
  predicate IsFramed(png: Bytes, width: nat, height: nat, n: nat) {
    && |png| == 57 + n
    && png[..16] == [0x89, 0x50, 0x4e, 0x47, 0x0d, 0x0a, 0x1a, 0x0a, 0, 0, 0, 13, 0x49, 0x48, 0x44, 0x52]
    && ReadBe32(png[16..20]) == width && ReadBe32(png[20..24]) == height && png[24..29] == [8, 6, 0, 0, 0]
    && ReadBe32(png[33..37]) == n && png[37..41] == [0x49, 0x44, 0x41, 0x54]
    && png[45 + n..] == [0, 0, 0, 0, 0x49, 0x45, 0x4e, 0x44, 0xae, 0x42, 0x60, 0x82]
  }

  lemma FileFrame(width: nat, height: nat, pixels: Bytes, deflate: Bytes -> Bytes)
    requires Encode(width, height, pixels, deflate).Some?
    ensures IsFramed(Encode(width, height, pixels, deflate).value, width, height,
                     |deflate(Scanlines(pixels, width * 4, 0, height))|)
  {
    AssembledFrame(width, height, deflate(Scanlines(pixels, width * 4, 0, height)));
  }

  lemma AssembledFrame(width: nat, height: nat, data: Bytes)
    requires Assemble(width, height, data).Some?
    ensures IsFramed(Assemble(width, height, data).value, width, height, |data|)
  {
    var ihdr, idat, iend := Chunk(IHDR, Header(width, height)).value, Chunk(IDAT, data).value, Chunk(IEND, []).value;
    HeaderChunk(width, height);
    DataChunk(data);
    EndChunk();
    NumberIsRead(width);
    NumberIsRead(height);
    JoinedFrame(ihdr, idat, iend, width, height, |data|);
  }

  lemma JoinedFrame(ihdr: Bytes, idat: Bytes, iend: Bytes, width: nat, height: nat, n: nat)
    requires |ihdr| == 25 && ihdr[..8] == [0, 0, 0, 13, 0x49, 0x48, 0x44, 0x52] && ihdr[16..21] == [8, 6, 0, 0, 0]
    requires ReadBe32(ihdr[8..12]) == width && ReadBe32(ihdr[12..16]) == height
    requires |idat| == 12 + n && ReadBe32(idat[..4]) == n && idat[4..8] == [0x49, 0x44, 0x41, 0x54]
    requires iend == [0, 0, 0, 0, 0x49, 0x45, 0x4e, 0x44, 0xae, 0x42, 0x60, 0x82]
    ensures IsFramed(SIGNATURE + (ihdr + (idat + iend)), width, height, n)
  {
    JoinedFile(SIGNATURE, ihdr, idat, iend);
  }

  lemma NumberIsRead(n: nat)
    requires n < LIMIT
    ensures ReadBe32(Be32(n)) == n
  {
    Be32RoundTrip(n, []);
    assert Be32(n) + [] == Be32(n);
  }

  lemma DataChunk(data: Bytes)
    requires |data| < LIMIT
    ensures var chunk := Chunk(IDAT, data).value;
            && |chunk| == 12 + |data|
            && ReadBe32(chunk[..4]) == |data| && chunk[4..8] == [0x49, 0x44, 0x41, 0x54]
  {
    var chunk := Chunk(IDAT, data).value;
    assert chunk[..4] == Be32(|data|) && chunk[4..8] == IDAT;
    NumberIsRead(|data|);
  }

  lemma JoinedFile(signature: Bytes, ihdr: Bytes, idat: Bytes, iend: Bytes)
    requires |signature| == 8 && |ihdr| == 25 && |idat| >= 8 && |iend| == 12
    ensures var png := signature + (ihdr + (idat + iend));
            && png[..16] == signature + ihdr[..8]
            && png[16..20] == ihdr[8..12] && png[20..24] == ihdr[12..16] && png[24..29] == ihdr[16..21]
            && png[33..37] == idat[..4] && png[37..41] == idat[4..8] && png[33 + |idat|..] == iend
  {
  }
}
