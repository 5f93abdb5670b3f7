/** Compressed payloads behind a four-byte header; the two compressors are parameters. */
module Compress {
  import opened Bits
  import opened Buffers
  import opened TextEncoding
  import opened Wrappers
  import Json

  datatype Format = Gzip | Zstd

  datatype Compressors = Compressors(pack: (Format, Bytes) -> Bytes, unpack: (Format, Bytes) -> Option<Bytes>)

  ghost predicate Lossless(z: Compressors) {
    forall f, b :: z.unpack(f, z.pack(f, b)) == Some(b)
  }

  const MAGIC: Bytes := [0x42, 0x53, 0x43]
  const FORMAT_GZIP: Byte := 1
  const FORMAT_ZSTD: Byte := 2

  function FormatByte(f: Format): Byte {
    if f == Zstd then FORMAT_ZSTD else FORMAT_GZIP
  }

  /** The header and the compressed body. */
  function Compressed(z: Compressors, input: Bytes, f: Format): Bytes {
    MAGIC + [FormatByte(f)] + z.pack(f, input)
  }

  method CompressBytes(z: Compressors, input: Bytes, f: Format) returns (packed: array<Byte>)
    ensures fresh(packed) && packed[..] == Compressed(z, input, f)
  {
    var body := z.pack(f, input);
    var header := new Byte[|MAGIC| + 1](_ => 0);
    Set(header, MAGIC, 0);
    header[3] := if f == Zstd then FORMAT_ZSTD else FORMAT_GZIP;
    assert header[..] == MAGIC + [FormatByte(f)];
    packed := new Byte[header.Length + |body|](_ => 0);
    Set(packed, header[..], 0);
    Set(packed, body, header.Length);
  }

  lemma OpensWithMagic(z: Compressors, input: Bytes, f: Format)
    ensures Compressed(z, input, f) != [] && Compressed(z, input, f)[0] == MAGIC[0]
  {
  }

  predicate HasHeader(input: Bytes) {
    |input| >= 4 && input[0] == MAGIC[0] && input[1] == MAGIC[1] && input[2] == MAGIC[2]
  }

  /** None stands for the error a compressor raises on a damaged body. */
  function DecompressBytes(z: Compressors, input: Bytes): Option<Bytes> {
    if HasHeader(input) then z.unpack(if input[3] == FORMAT_ZSTD then Zstd else Gzip, input[4..])
    else Some(input)
  }

  /** Either format comes back whatever the format of the reader. */
  lemma DecompressInverts(z: Compressors, input: Bytes, f: Format)
    requires Lossless(z)
    ensures DecompressBytes(z, Compressed(z, input, f)) == Some(input)
  {
    var packed := Compressed(z, input, f);
    assert packed[4..] == z.pack(f, input);
    assert packed[0] == MAGIC[0] && packed[1] == MAGIC[1] && packed[2] == MAGIC[2];
    assert packed[3] == FormatByte(f);
  }

  /** Legacy payloads, JSON text without a header, are returned unchanged. */
  lemma LegacyUnchanged(z: Compressors, c: TextCodec, j: Json.Tree)
    requires Faithful(c) && Json.Valid(j)
    ensures DecompressBytes(z, c.encode(Json.Print(j))) == Some(c.encode(Json.Print(j)))
  {
    PrintedFirst(j);
  }
}
