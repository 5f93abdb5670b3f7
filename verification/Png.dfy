/** The solid-colour PNG writer, and a reader that undoes it. */
module Png {
  import opened Bits
  import opened Buffers
  import opened Crc32
  import CrcOfIend
  import opened Sequences
  import opened Wrappers

  const SIGNATURE: Bytes := [0x89, 0x50, 0x4E, 0x47, 0x0D, 0x0A, 0x1A, 0x0A]
  const IHDR: Bytes := [0x49, 0x48, 0x44, 0x52]
  const IDAT: Bytes := [0x49, 0x44, 0x41, 0x54]
  const IEND: Bytes := [0x49, 0x45, 0x4E, 0x44]
  const UINT32: nat := 0x1_0000_0000

  // ---------- Four-byte fields ----------

  /** DataView.setUint32 with the most significant byte first; the number wraps at 2^32. */
  function Uint32(n: nat): (b: Bytes)
    ensures |b| == 4
  {
    [n / 0x100_0000 % 256, n / 0x1_0000 % 256, n / 0x100 % 256, n % 256]
  }

  function ReadUint32(b: Bytes): nat
    requires |b| == 4
  {
    b[0] as int * 0x100_0000 + b[1] as int * 0x1_0000 + b[2] as int * 0x100 + b[3] as int
  }

  function WordBytes(w: Word): (b: Bytes)
    ensures |b| == 4
  {
    [ByteValue(w[24..]), ByteValue(w[16..24]), ByteValue(w[8..16]), ByteValue(w[..8])]
  }

  lemma Uint32RoundTrip(n: nat)
    requires n < UINT32
    ensures ReadUint32(Uint32(n)) == n
  {
    assert n / 0x100 == n / 0x1_0000 * 256 + n / 0x100 % 256 by { assert n / 0x1_0000 == n / 0x100 / 256; }
    assert n / 0x1_0000 == n / 0x100_0000 * 256 + n / 0x1_0000 % 256 by {
      assert n / 0x100_0000 == n / 0x1_0000 / 256;
    }
  }

  lemma WordBytesInjective(v: Word, w: Word)
    ensures WordBytes(v) == WordBytes(w) <==> v == w
  {
    if WordBytes(v) == WordBytes(w) {
      SliceOf(v, w, 0);
      SliceOf(v, w, 1);
      SliceOf(v, w, 2);
      SliceOf(v, w, 3);
      assert v == v[..8] + v[8..16] + v[16..24] + v[24..];
      assert w == w[..8] + w[8..16] + w[16..24] + w[24..];
    }
  }

  lemma SliceOf(v: Word, w: Word, k: nat)
    requires k < 4 && WordBytes(v)[3 - k] == WordBytes(w)[3 - k]
    ensures v[8 * k..8 * k + 8] == w[8 * k..8 * k + 8]
  {
    var a, b := v[8 * k..8 * k + 8], w[8 * k..8 * k + 8];
    assert k == 0 ==> a == v[..8] && b == w[..8];
    assert k == 3 ==> a == v[24..] && b == w[24..];
    assert ByteValue(a) == ByteValue(b);
    ByteRoundTrip(0, a);
    ByteRoundTrip(0, b);
  }

  lemma {:induction false} ValueConcat(a: seq<bool>, b: seq<bool>)
    ensures Value(a + b) == Value(a) + Pow2(|a|) * Value(b)
  {
    if a == [] {
      assert a + b == b;
    } else {
      ValueConcat(a[1..], b);
      assert (a + b)[1..] == a[1..] + b;
      Doubled(Pow2(|a| - 1), Value(b));
    }
  }

  lemma Doubled(m: nat, n: nat)
    ensures 2 * (m * n) == (2 * m) * n
  {
  }

  lemma Bytewise(d: Byte, c: Byte, b: Byte, a: Byte)
    ensures Uint32(d + 256 * (c + 256 * (b + 256 * a))) == [a, b, c, d]
  {
    var n: nat := d + 256 * (c + 256 * (b + 256 * a));
    assert n / 256 == c + 256 * (b + 256 * a);
    assert n / 65536 == n / 256 / 256 == b + 256 * a;
    assert n / 16777216 == n / 65536 / 256 == a;
  }

  lemma ByteAndRest(a: seq<bool>, b: seq<bool>)
    requires |a| == 8
    ensures Value(a + b) == ByteValue(a) + 256 * Value(b)
  {
    ByteWidth();
    ValueConcat(a, b);
  }

  lemma FourBytes(a: seq<bool>, b: seq<bool>, c: seq<bool>, d: seq<bool>)
    requires |a| == |b| == |c| == |d| == 8
    ensures Value(a + (b + (c + d))) == ByteValue(a) + 256 * (ByteValue(b) + 256 * (ByteValue(c) + 256 * ByteValue(d)))
  {
    ByteAndRest(a, b + (c + d));
    ByteAndRest(b, c + d);
    ByteAndRest(c, d);
  }

  /** A register is written as the number it stands for, most significant byte first. */
  lemma WordBytesMean(w: Word)
    ensures WordBytes(w) == Uint32(Value(w))
  {
    var a, b, c, d := w[..8], w[8..16], w[16..24], w[24..];
    assert w == a + (b + (c + d));
    FourBytes(a, b, c, d);
    Bytewise(ByteValue(a), ByteValue(b), ByteValue(c), ByteValue(d));
  }

  // ---------- The file as bytes ----------

  datatype Chunk = Chunk(kind: Bytes, data: Bytes) {
    function Body(): Bytes {
      kind + data
    }
  }

  function ChunkBytes(crc: Bytes -> Word, c: Chunk): Bytes {
    Uint32(|c.data|) + c.Body() + WordBytes(crc(c.Body()))
  }

  function ChunksBytes(crc: Bytes -> Word, chunks: seq<Chunk>): Bytes {
    if chunks == [] then [] else ChunkBytes(crc, chunks[0]) + ChunksBytes(crc, chunks[1..])
  }

  function Header(width: nat, height: nat): Bytes {
    Uint32(width) + Uint32(height) + [8, 2, 0, 0, 0]
  }

  function Pixels(n: nat, pixel: Bytes): (p: Bytes)
    requires |pixel| == 3
    ensures |p| == 3 * n
  {
    if n == 0 then [] else Pixels(n - 1, pixel) + pixel
  }

  /** A filter byte, then the pixels of one row. */
  function Row(width: nat, pixel: Bytes): (r: Bytes)
    requires |pixel| == 3
    ensures |r| == width * 3 + 1
  {
    [0] + Pixels(width, pixel)
  }

  function Rows(height: nat, width: nat, pixel: Bytes): (r: Bytes)
    requires |pixel| == 3
    ensures |r| == height * (width * 3 + 1)
  {
    if height == 0 then [] else Rows(height - 1, width, pixel) + Row(width, pixel)
  }

  function SolidChunks(deflate: Bytes -> Bytes, width: nat, height: nat, pixel: Bytes): seq<Chunk>
    requires |pixel| == 3
  {
    [Chunk(IHDR, Header(width, height)), Chunk(IDAT, deflate(Rows(height, width, pixel))), Chunk(IEND, [])]
  }

  // ---------- The writer ----------

  method MakeBody(kind: Bytes, data: Bytes) returns (body: array<Byte>)
    ensures fresh(body) && body[..] == kind + data
  {
    body := new Byte[|kind| + |data|](_ => 0);
    Set(body, kind, 0);
    Set(body, data, |kind|);
  }

  method MakeChunk(table: array<Word>, kind: Bytes, data: Bytes) returns (out: array<Byte>)
    requires IsTable(table)
    ensures fresh(out) && out[..] == ChunkBytes(Crc, Chunk(kind, data))
  {
    var body := MakeBody(kind, data);
    var crc := Compute(table, body[..]);
    out := Framed(Uint32(|data|), body[..], WordBytes(crc));
  }

  /** Three parts side by side in a buffer of their total length. */
  method Framed(length: Bytes, body: Bytes, crc: Bytes) returns (out: array<Byte>)
    requires |length| == |crc| == 4
    ensures fresh(out) && out[..] == length + body + crc
  {
    out := new Byte[4 + |body| + 4](_ => 0);
    Set(out, length, 0);
    Set(out, body, 4);
    assert out[..4 + |body|] == length + body;
    Set(out, crc, 4 + |body|);
  }

  lemma RowsLength(height: nat, y: nat, stride: nat)
    requires y < height
    ensures (y + 1) * stride == y * stride + stride <= height * stride
  {
    assert height * stride == (y + 1) * stride + (height - y - 1) * stride;
  }

  lemma RowsNext(y: nat, width: nat, pixel: Bytes)
    requires |pixel| == 3
    ensures Rows(y + 1, width, pixel) == Rows(y, width, pixel) + Row(width, pixel)
  {
  }

  method SetPixel(raw: array<Byte>, px: nat, pixel: Bytes)
    requires |pixel| == 3 && px + 3 <= raw.Length
    modifies raw
    ensures raw[..px + 3] == old(raw[..px]) + pixel
    ensures raw[px + 3..] == old(raw[px + 3..])
  {
    raw[px] := pixel[0];
    raw[px + 1] := pixel[1];
    raw[px + 2] := pixel[2];
    assert raw[..px] == old(raw[..px]);
  }

  lemma Behind(a: Bytes, b: Bytes, from: nat, later: nat)
    requires |a| == |b| && from <= later <= |a| && a[from..] == b[from..]
    ensures a[later..] == b[later..]
  {
    assert a[later..] == a[from..][later - from..] && b[later..] == b[from..][later - from..];
  }

  lemma RowGrows(before: Bytes, x: nat, pixel: Bytes)
    requires |pixel| == 3
    ensures before + Row(x + 1, pixel) == before + Row(x, pixel) + pixel
  {
    assert Row(x + 1, pixel) == Row(x, pixel) + pixel;
  }

  /** Writes one row of pixels behind its filter byte. */
  method FillRow(raw: array<Byte>, rowStart: nat, width: nat, pixel: Bytes)
    requires |pixel| == 3
    requires rowStart + width * 3 + 1 <= raw.Length
    modifies raw
    ensures raw[..rowStart + width * 3 + 1] == old(raw[..rowStart]) + Row(width, pixel)
    ensures raw[rowStart + width * 3 + 1..] == old(raw[rowStart + width * 3 + 1..])
  {
    ghost var before := raw[..rowStart];
    raw[rowStart] := 0;
    assert raw[..rowStart + 1] == before + [0];
    for x := 0 to width
      invariant raw[..rowStart + 1 + x * 3] == before + Row(x, pixel)
      invariant raw[rowStart + width * 3 + 1..] == old(raw[rowStart + width * 3 + 1..])
    {
      RowGrows(before, x, pixel);
      ghost var current := raw[..];
      var px := rowStart + 1 + x * 3;
      SetPixel(raw, px, pixel);
      Behind(current, raw[..], px + 3, rowStart + width * 3 + 1);
    }
  }

  /** The rows so far grow by one. */
  method NextRow(raw: array<Byte>, rowStart: nat, y: nat, width: nat, pixel: Bytes)
    requires |pixel| == 3 && rowStart + (width * 3 + 1) <= raw.Length
    requires raw[..rowStart] == Rows(y, width, pixel)
    modifies raw
    ensures raw[..rowStart + (width * 3 + 1)] == Rows(y + 1, width, pixel)
  {
    FillRow(raw, rowStart, width, pixel);
    RowsNext(y, width, pixel);
  }

  /** The uncompressed image data. */
  method RawImage(width: nat, height: nat, pixel: Bytes) returns (raw: array<Byte>)
    requires |pixel| == 3
    ensures fresh(raw) && raw[..] == Rows(height, width, pixel)
  {
    var stride := width * 3 + 1;
    var size := height * stride;
    raw := new Byte[size](_ => 0);
    var rowStart := 0;
    for y := 0 to height
      invariant rowStart == y * stride && rowStart <= size
      invariant raw[..rowStart] == Rows(y, width, pixel)
    {
      RowsLength(height, y, stride);
      NextRow(raw, rowStart, y, width, pixel);
      rowStart := rowStart + stride;
    }
    assert rowStart == size;
    assert raw[..] == raw[..rowStart];
  }

  function ToUint8(n: int): Byte {
    n % 256
  }

  /** What a typed array stores: the number modulo 256, and itself where it is a byte. */
  lemma Uint8Means(n: int)
    ensures exists wraps: int :: n == ToUint8(n) + 256 * wraps
    ensures 0 <= n < 256 ==> ToUint8(n) == n
  {
    assert n == ToUint8(n) + 256 * (n / 256);
  }

  method HeaderData(width: nat, height: nat) returns (ihdr: array<Byte>)
    ensures fresh(ihdr) && ihdr[..] == Header(width, height)
  {
    ihdr := new Byte[13](_ => 0);
    Set(ihdr, Uint32(width), 0);
    Set(ihdr, Uint32(height), 4);
    assert ihdr[..8] == Uint32(width) + Uint32(height);
    ihdr[8] := 8;
    ihdr[9] := 2;
    ihdr[10] := 0;
    ihdr[11] := 0;
    ihdr[12] := 0;
    assert ihdr[..] == ihdr[..8] + [8, 2, 0, 0, 0];
  }

  /** Joins the parts in a buffer of their total length, at a running offset. */
  method Concatenate(parts: seq<Bytes>) returns (out: array<Byte>)
    ensures fresh(out) && out[..] == Flatten(parts)
  {
    out := new Byte[TotalLength(parts)](_ => 0);
    var offset := 0;
    assert parts[..0] == [];
    for i := 0 to |parts|
      invariant offset == |Flatten(parts[..i])| <= out.Length
      invariant out[..offset] == Flatten(parts[..i])
    {
      FlattenNext(parts, i);
      Set(out, parts[i], offset);
      offset := offset + |parts[i]|;
    }
    assert parts[..|parts|] == parts;
    assert out[..] == out[..offset];
  }

  method SolidPng(table: array<Word>, deflate: Bytes -> Bytes, width: nat, height: nat, r: int, g: int, b: int)
    returns (out: array<Byte>)
    requires IsTable(table)
    ensures fresh(out)
    ensures out[..] == SIGNATURE
      + ChunksBytes(Crc, SolidChunks(deflate, width, height, [ToUint8(r), ToUint8(g), ToUint8(b)]))
  {
    var pixel := [ToUint8(r), ToUint8(g), ToUint8(b)];
    var ihdr := HeaderData(width, height);
    var raw := RawImage(width, height, pixel);
    var compressed := deflate(raw[..]);
    var part1 := MakeChunk(table, IHDR, ihdr[..]);
    var part2 := MakeChunk(table, IDAT, compressed);
    var part3 := MakeChunk(table, IEND, []);
    out := Concatenate([SIGNATURE, part1[..], part2[..], part3[..]]);
    FourParts(SIGNATURE, part1[..], part2[..], part3[..]);
    ThreeChunks(Crc, Chunk(IHDR, Header(width, height)), Chunk(IDAT, compressed), Chunk(IEND, []));
  }

  function TotalLength(parts: seq<Bytes>): (n: nat)
    ensures n == |Flatten(parts)|
  {
    if parts == [] then 0 else TotalLength(parts[..|parts| - 1]) + |parts[|parts| - 1]|
  }

  lemma {:induction false} FlattenPrefix(parts: seq<Bytes>, i: nat)
    requires i <= |parts|
    ensures |Flatten(parts[..i])| <= |Flatten(parts)|
  {
    if i < |parts| {
      FlattenPrefix(parts[..|parts| - 1], i);
      assert parts[..|parts| - 1][..i] == parts[..i];
    } else {
      assert parts[..i] == parts;
    }
  }

  lemma FlattenNext(parts: seq<Bytes>, i: nat)
    requires i < |parts|
    ensures Flatten(parts[..i + 1]) == Flatten(parts[..i]) + parts[i]
    ensures |Flatten(parts[..i])| + |parts[i]| <= |Flatten(parts)|
  {
    assert parts[..i + 1][..i] == parts[..i];
    FlattenPrefix(parts, i + 1);
  }

  lemma FourParts(a: Bytes, b: Bytes, c: Bytes, d: Bytes)
    ensures Flatten([a, b, c, d]) == a + (b + (c + d))
  {
    assert [a, b, c, d][..3] == [a, b, c];
    assert [a, b, c][..2] == [a, b];
    assert [a, b][..1] == [a];
    assert [a][..0] == [];
    assert Flatten([a]) == a;
    assert Flatten([a, b]) == a + b;
    assert Flatten([a, b, c]) == a + b + c;
  }

  lemma ThreeChunks(crc: Bytes -> Word, a: Chunk, b: Chunk, c: Chunk)
    ensures ChunksBytes(crc, [a, b, c]) == ChunkBytes(crc, a) + (ChunkBytes(crc, b) + ChunkBytes(crc, c))
  {
    assert [a, b, c][1..] == [b, c];
    assert [b, c][1..] == [c];
    assert [c][1..] == [];
    assert ChunksBytes(crc, [c]) == ChunkBytes(crc, c);
  }

  // ---------- The reader ----------

  datatype Rgb = Rgb(r: Byte, g: Byte, b: Byte)

  datatype Image = Image(width: nat, height: nat, rows: seq<seq<Rgb>>)

  /** Walks length, type, data and CRC until the bytes are used up. */
  function ReadChunks(crc: Bytes -> Word, bytes: Bytes): Option<seq<Chunk>>
    decreases |bytes|
  {
    if bytes == [] then Some([])
    else if |bytes| < 12 then None
    else
      var n := ReadUint32(bytes[..4]);
      if |bytes| < n + 12 then None
      else
        var c := Chunk(bytes[4..8], bytes[8..8 + n]);
        if WordBytes(crc(c.Body())) != bytes[8 + n..12 + n] then None
        else match ReadChunks(crc, bytes[12 + n..])
          case None => None
          case Some(rest) => Some([c] + rest)
  }

  /** The pixels of one row behind its filter byte. */
  function ReadPixels(bytes: Bytes): Option<seq<Rgb>>
    decreases |bytes|
  {
    if bytes == [] then Some([])
    else if |bytes| < 3 then None
    else match ReadPixels(bytes[..|bytes| - 3])
      case None => None
      case Some(before) =>
        Some(before + [Rgb(bytes[|bytes| - 3], bytes[|bytes| - 2], bytes[|bytes| - 1])])
  }

  /** Rows of one filter byte, which must be 0, and width pixels each. */
  function ReadRows(raw: Bytes, width: nat, height: nat): Option<seq<seq<Rgb>>>
    decreases height
  {
    var stride := width * 3 + 1;
    if height == 0 then if raw == [] then Some([]) else None
    else if |raw| < stride || raw[|raw| - stride] != 0 then None
    else match (ReadRows(raw[..|raw| - stride], width, height - 1), ReadPixels(raw[|raw| - stride + 1..]))
      case (Some(before), Some(row)) => Some(before + [row])
      case _ => None
  }

  function ImageData(chunks: seq<Chunk>): Bytes {
    if chunks == [] then []
    else (if chunks[0].kind == IDAT then chunks[0].data else []) + ImageData(chunks[1..])
  }

  /** The image that the chunks of an eight-bit RGB file describe. */
  function ReadImage(inflate: Bytes -> Option<Bytes>, chunks: seq<Chunk>): Option<Image> {
    if |chunks| < 2 || chunks[0].kind != IHDR || |chunks[0].data| != 13
       || chunks[0].data[8..] != [8, 2, 0, 0, 0] || chunks[|chunks| - 1] != Chunk(IEND, []) then None
    else
      var width, height := ReadUint32(chunks[0].data[..4]), ReadUint32(chunks[0].data[4..8]);
      match inflate(ImageData(chunks))
      case None => None
      case Some(raw) =>
        match ReadRows(raw, width, height)
        case None => None
        case Some(rows) => Some(Image(width, height, rows))
  }

  function ReadPng(crc: Bytes -> Word, inflate: Bytes -> Option<Bytes>, bytes: Bytes): Option<Image> {
    if |bytes| < 8 || bytes[..8] != SIGNATURE then None
    else match ReadChunks(crc, bytes[8..])
      case None => None
      case Some(chunks) => ReadImage(inflate, chunks)
  }

  // ---------- Reading back what was written ----------

  ghost predicate Readable(c: Chunk) {
    |c.kind| == 4 && |c.data| < UINT32
  }

  lemma FiveParts(a: Bytes, b: Bytes, c: Bytes, d: Bytes, rest: Bytes)
    requires |a| == |b| == |d| == 4
    ensures var s := a + (b + c) + d + rest;
      && |s| == |c| + 12 + |rest|
      && s[..4] == a && s[4..8] == b && s[8..8 + |c|] == c
      && s[8 + |c|..12 + |c|] == d && s[12 + |c|..] == rest
  {
  }

  /** A chunk written with one CRC is read with another exactly when they agree on its body. */
  lemma ReadOneChunk(writer: Bytes -> Word, reader: Bytes -> Word, c: Chunk, rest: Bytes)
    requires Readable(c)
    ensures ReadChunks(reader, ChunkBytes(writer, c) + rest) ==
      if writer(c.Body()) != reader(c.Body()) then None
      else match ReadChunks(reader, rest)
        case None => None
        case Some(chunks) => Some([c] + chunks)
  {
    Uint32RoundTrip(|c.data|);
    WordBytesInjective(writer(c.Body()), reader(c.Body()));
    FiveParts(Uint32(|c.data|), c.kind, c.data, WordBytes(writer(c.Body())), rest);
  }

  lemma {:induction false} ReadChunksBack(writer: Bytes -> Word, reader: Bytes -> Word, chunks: seq<Chunk>)
    requires forall c :: c in chunks ==> Readable(c)
    ensures ReadChunks(reader, ChunksBytes(writer, chunks)) ==
      if forall c :: c in chunks ==> writer(c.Body()) == reader(c.Body()) then Some(chunks) else None
  {
    if chunks != [] {
      var rest := chunks[1..];
      ReadChunksBack(writer, reader, rest);
      ReadOneChunk(writer, reader, chunks[0], ChunksBytes(writer, rest));
      assert chunks == [chunks[0]] + rest;
    }
  }

  lemma ReadLastPixel(before: Bytes, pixel: Bytes)
    requires |pixel| == 3
    ensures ReadPixels(before + pixel) ==
      match ReadPixels(before)
      case None => None
      case Some(row) => Some(row + [Rgb(pixel[0], pixel[1], pixel[2])])
  {
    assert (before + pixel)[..|before|] == before;
  }

  lemma {:induction false} ReadPixelsBack(n: nat, pixel: Bytes, bytes: Bytes)
    requires |pixel| == 3 && bytes == Pixels(n, pixel)
    ensures ReadPixels(bytes) == Some(Repeat(n, Rgb(pixel[0], pixel[1], pixel[2])))
  {
    if n == 0 {
      assert Repeat(0, Rgb(pixel[0], pixel[1], pixel[2])) == [];
    } else {
      ReadPixelsBack(n - 1, pixel, Pixels(n - 1, pixel));
      ReadOneMorePixel(Pixels(n - 1, pixel), n - 1, pixel);
    }
  }

  lemma ReadOneMorePixel(before: Bytes, n: nat, pixel: Bytes)
    requires |pixel| == 3 && ReadPixels(before) == Some(Repeat(n, Rgb(pixel[0], pixel[1], pixel[2])))
    ensures ReadPixels(before + pixel) == Some(Repeat(n + 1, Rgb(pixel[0], pixel[1], pixel[2])))
  {
    ReadLastPixel(before, pixel);
    RepeatNext(n, Rgb(pixel[0], pixel[1], pixel[2]));
  }

  lemma ReadLastRow(before: Bytes, width: nat, height: nat, pixel: Bytes)
    requires |pixel| == 3
    ensures ReadRows(before + Row(width, pixel), width, height + 1) ==
      match ReadRows(before, width, height)
      case None => None
      case Some(rows) => Some(rows + [Repeat(width, Rgb(pixel[0], pixel[1], pixel[2]))])
  {
    ReadPixelsBack(width, pixel, Pixels(width, pixel));
    var raw := before + Row(width, pixel);
    assert raw[..|before|] == before && raw[|before|] == 0;
    assert raw[|before| + 1..] == Pixels(width, pixel);
  }

  lemma ReadOneMoreRow(before: Bytes, width: nat, height: nat, pixel: Bytes, row: seq<Rgb>)
    requires |pixel| == 3 && row == Repeat(width, Rgb(pixel[0], pixel[1], pixel[2]))
    requires ReadRows(before, width, height) == Some(Repeat(height, row))
    ensures ReadRows(before + Row(width, pixel), width, height + 1) == Some(Repeat(height + 1, row))
  {
    ReadLastRow(before, width, height, pixel);
    RepeatNext(height, row);
  }

  lemma {:induction false} ReadRowsBack(height: nat, width: nat, pixel: Bytes, row: seq<Rgb>)
    requires |pixel| == 3 && row == Repeat(width, Rgb(pixel[0], pixel[1], pixel[2]))
    ensures ReadRows(Rows(height, width, pixel), width, height) == Some(Repeat(height, row))
  {
    if height == 0 {
      assert Repeat(0, row) == [];
    } else {
      ReadRowsBack(height - 1, width, pixel, row);
      ReadOneMoreRow(Rows(height - 1, width, pixel), width, height - 1, pixel, row);
    }
  }

  function SolidImage(width: nat, height: nat, pixel: Bytes): Image
    requires |pixel| == 3
  {
    Image(width, height, Repeat(height, Repeat(width, Rgb(pixel[0], pixel[1], pixel[2]))))
  }

  lemma ReadSolidImage(deflate: Bytes -> Bytes, inflate: Bytes -> Option<Bytes>,
                       width: nat, height: nat, pixel: Bytes)
    requires |pixel| == 3 && width < UINT32 && height < UINT32
    requires inflate(deflate(Rows(height, width, pixel))) == Some(Rows(height, width, pixel))
    ensures ReadImage(inflate, SolidChunks(deflate, width, height, pixel)) == Some(SolidImage(width, height, pixel))
  {
    var chunks := SolidChunks(deflate, width, height, pixel);
    Uint32RoundTrip(width);
    Uint32RoundTrip(height);
    var header := Header(width, height);
    assert header[..4] == Uint32(width) && header[4..8] == Uint32(height) && header[8..] == [8, 2, 0, 0, 0];
    var data := deflate(Rows(height, width, pixel));
    assert chunks[1..] == [Chunk(IDAT, data), Chunk(IEND, [])];
    assert chunks[1..][1..] == [Chunk(IEND, [])];
    assert ImageData([Chunk(IEND, [])]) == [];
    assert ImageData(chunks) == data;
    ReadRowsBack(height, width, pixel, Repeat(width, Rgb(pixel[0], pixel[1], pixel[2])));
  }

  /**
   A reader whose CRC agrees with the writer's on the three chunk bodies recovers exactly the
   image; any other reader rejects the file.
   */
  lemma ReadBack(writer: Bytes -> Word, reader: Bytes -> Word, deflate: Bytes -> Bytes,
                 inflate: Bytes -> Option<Bytes>, width: nat, height: nat, pixel: Bytes)
    requires |pixel| == 3 && width < UINT32 && height < UINT32
    requires inflate(deflate(Rows(height, width, pixel))) == Some(Rows(height, width, pixel))
    requires |deflate(Rows(height, width, pixel))| < UINT32
    ensures var chunks := SolidChunks(deflate, width, height, pixel);
      ReadPng(reader, inflate, SIGNATURE + ChunksBytes(writer, chunks)) ==
        if forall c :: c in chunks ==> writer(c.Body()) == reader(c.Body()) then
          Some(SolidImage(width, height, pixel))
        else None
  {
    var chunks := SolidChunks(deflate, width, height, pixel);
    ReadChunksBack(writer, reader, chunks);
    var bytes := SIGNATURE + ChunksBytes(writer, chunks);
    assert bytes[..8] == SIGNATURE && bytes[8..] == ChunksBytes(writer, chunks);
    ReadSolidImage(deflate, inflate, width, height, pixel);
  }

  /** Reading with the writer's own CRC always recovers the image. */
  lemma ReadBackWithSameCrc(deflate: Bytes -> Bytes, inflate: Bytes -> Option<Bytes>,
                            width: nat, height: nat, pixel: Bytes)
    requires |pixel| == 3 && width < UINT32 && height < UINT32
    requires forall raw :: inflate(deflate(raw)) == Some(raw)
    requires |deflate(Rows(height, width, pixel))| < UINT32
    ensures ReadPng(Crc, inflate, SIGNATURE + ChunksBytes(Crc, SolidChunks(deflate, width, height, pixel)))
      == Some(SolidImage(width, height, pixel))
  {
    ReadBack(Crc, Crc, deflate, inflate, width, height, pixel);
  }

  /** A reader with the CRC of RFC 2083 accepts the file exactly when the shift by one went unnoticed. */
  lemma StandardReaderAcceptsExactlyWhen(deflate: Bytes -> Bytes, inflate: Bytes -> Option<Bytes>,
                                         width: nat, height: nat, pixel: Bytes)
    requires |pixel| == 3 && width < UINT32 && height < UINT32
    requires forall raw :: inflate(deflate(raw)) == Some(raw)
    requires |deflate(Rows(height, width, pixel))| < UINT32
    ensures ReadPng(BitwiseCrc, inflate, SIGNATURE + ChunksBytes(Crc, SolidChunks(deflate, width, height, pixel))).Some?
      <==> forall c :: c in SolidChunks(deflate, width, height, pixel) ==> Agrees(c.Body())
  {
    ReadBack(Crc, BitwiseCrc, deflate, inflate, width, height, pixel);
  }

  lemma LastChunkDiffers(c: Chunk)
    requires c.kind == IEND && c.data == []
    ensures !Agrees(c.Body())
  {
    var body := c.Body();
    assert |body| == 4 && body[0] == c.kind[0] && body[1] == c.kind[1] && body[2] == c.kind[2];
    CrcOfIend.IendDiffers(body);
  }

  /**
   Every file that the writer makes, of any size and colour, is rejected by such a reader: its
   last chunk, the same in all files, carries a wrong CRC.
   */
  lemma StandardReaderRejects(deflate: Bytes -> Bytes, inflate: Bytes -> Option<Bytes>,
                              width: nat, height: nat, pixel: Bytes)
    requires |pixel| == 3 && width < UINT32 && height < UINT32
    requires forall raw :: inflate(deflate(raw)) == Some(raw)
    requires |deflate(Rows(height, width, pixel))| < UINT32
    ensures var file := SIGNATURE + ChunksBytes(Crc, SolidChunks(deflate, width, height, pixel));
      ReadPng(BitwiseCrc, inflate, file) == None
  {
    StandardReaderAcceptsExactlyWhen(deflate, inflate, width, height, pixel);
    var chunks := SolidChunks(deflate, width, height, pixel);
    LastChunkDiffers(chunks[2]);
    assert chunks[2] in chunks;
  }
}
