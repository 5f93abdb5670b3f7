/**
 The encrypted audit log: one independently sealed JSON value a line, appended through a chain
 of writes and read back line by line.
 */
module AuditLog {
  import opened Buffers
  import opened Sequences
  import opened Splitting
  import opened TextEncoding
  import opened Utf16
  import opened Wrappers
  import AesGcm
  import Base64
  import Compress
  import Json

  /** What the sink calls: encoders, the keyed cipher, the compressors and JSON.parse. */
  datatype Platform = Platform(
    codec: TextCodec,
    cipher: AesGcm.Cipher,
    compressors: Compress.Compressors,
    parse: Text -> Option<Json.Tree>)

  datatype Options = Options(compress: bool, compressionFormat: Compress.Format)

  function EnvelopeTree(e: AesGcm.Envelope): Json.Tree {
    Json.Object([
      Json.Field(Lit("iv"), Json.String(e.iv)),
      Json.Field(Lit("authTag"), Json.String(e.authTag)),
      Json.Field(Lit("data"), Json.String(e.data))])
  }

  /** What is taken for granted of the platform: each of its halves undoes the other. */
  ghost predicate Reasonable(p: Platform) {
    && Faithful(p.codec)
    && AesGcm.Sealing(p.cipher)
    && Compress.Lossless(p.compressors)
    && forall e :: p.parse(Json.Print(EnvelopeTree(e))) == Some(EnvelopeTree(e))
  }

  predicate Truthy(j: Json.Tree) {
    match j
    case Null => false
    case Bool(b) => b
    case Number(n) => n != Lit("0")
    case String(t) => t != []
    case _ => true
  }

  /** An entry that JSON.parse gives back from its printed form, and that a reader yields. */
  /** An entry is yielded unless it is null, false, 0 or the empty string. */
  lemma TruthyMeans(j: Json.Tree)
    ensures Truthy(j) <==> j !in [Json.Null, Json.Bool(false), Json.Number([0x30]), Json.String([])]
  {
    assert Lit("0") == [0x30];
  }

  ghost predicate Storable(p: Platform, entry: Json.Tree) {
    Json.Valid(entry) && p.parse(Json.Print(entry)) == Some(entry) && Truthy(entry)
  }

  // ---------- One line ----------

  function Serialized(p: Platform, entry: Json.Tree, iv: Bytes): Text
    requires AesGcm.Sealing(p.cipher)
  {
    Json.Print(EnvelopeTree(AesGcm.EncryptText(p.cipher, p.codec, iv, Json.Print(entry))))
  }

  function Payload(p: Platform, compression: Option<Compress.Format>, serialized: Text): Bytes {
    match compression
    case Some(f) => Compress.Compressed(p.compressors, p.codec.encode(serialized), f)
    case None => p.codec.encode(serialized)
  }

  function Compression(o: Options): Option<Compress.Format> {
    if o.compress then Some(o.compressionFormat) else None
  }

  /** The line that an append writes, without its line feed. */
  function LineFor(p: Platform, compression: Option<Compress.Format>, entry: Json.Tree, iv: Bytes): Text
    requires AesGcm.Sealing(p.cipher)
  {
    Base64.Encode(Payload(p, compression, Serialized(p, entry, iv)))
  }

  /** What a line decodes to: the sealed JSON text, behind the magic bytes and the format's number if compressed. */
  lemma LineFramed(p: Platform, o: Options, entry: Json.Tree, iv: Bytes)
    requires AesGcm.Sealing(p.cipher)
    ensures var bytes := Base64.Decode(LineFor(p, Compression(o), entry, iv));
      var json := p.codec.encode(Serialized(p, entry, iv));
      && (!o.compress ==> bytes == json)
      && (o.compress && o.compressionFormat == Compress.Gzip ==>
            bytes == [0x42, 0x53, 0x43, 1] + p.compressors.pack(Compress.Gzip, json))
      && (o.compress && o.compressionFormat == Compress.Zstd ==>
            bytes == [0x42, 0x53, 0x43, 2] + p.compressors.pack(Compress.Zstd, json))
  {
    Base64.RoundTrip(Payload(p, Compression(o), Serialized(p, entry, iv)));
  }

  function Trim(t: Text): Text {
    TrimEnd(TrimStart(t))
  }

  function StringMember(fields: seq<Json.Field>, key: Text): Option<Text> {
    if fields == [] then None
    else if fields[0].key != key then StringMember(fields[1..], key)
    else if fields[0].value.String? then Some(fields[0].value.text)
    else None
  }

  /** None where reading a field, or decoding it from base64, raises an error. */
  function AsEnvelope(j: Json.Tree): Option<AesGcm.Envelope> {
    if !j.Object? then None
    else
      var iv, authTag, data := StringMember(j.fields, Lit("iv")), StringMember(j.fields, Lit("authTag")),
        StringMember(j.fields, Lit("data"));
      if iv.Some? && authTag.Some? && data.Some? then
        Some(AesGcm.Envelope(iv.value, authTag.value, data.value))
      else None
  }

  function DecryptedTree(p: Platform, j: Json.Tree): Option<Json.Tree> {
    match AsEnvelope(j)
    case None => None
    case Some(e) =>
      match AesGcm.Opened(p.cipher, p.codec, e)
      case None => None
      case Some(plaintext) => p.parse(plaintext)
  }

  /** The JSON text that a line holds. */
  function LineJson(p: Platform, compress: bool, line: Text): Option<Text> {
    var trimmed := Trim(line);
    if trimmed != [] && trimmed[0] == OPEN_BRACE then Some(trimmed)
    else
      var bytes := Base64.Decode(trimmed);
      match if compress then Compress.DecompressBytes(p.compressors, bytes) else Some(bytes)
      case None => None
      case Some(b) => Some(p.codec.decode(b))
  }

  function DecryptedLine(p: Platform, compress: bool, line: Text): Option<Json.Tree> {
    match LineJson(p, compress, line)
    case None => None
    case Some(json) =>
      match p.parse(json)
      case None => None
      case Some(j) => DecryptedTree(p, j)
  }

  method TryDecryptEnvelope(p: Platform, j: Json.Tree) returns (entry: Option<Json.Tree>)
    ensures entry == DecryptedTree(p, j)
  {
    var envelope := AsEnvelope(j);
    if envelope.None? {
      return None;
    }
    var plaintext := AesGcm.DecryptText(p.cipher, p.codec, envelope.value);
    if plaintext.None? {
      return None;
    }
    return p.parse(plaintext.value);
  }

  method TryDecryptLine(p: Platform, compress: bool, line: Text) returns (entry: Option<Json.Tree>)
    ensures entry == DecryptedLine(p, compress, line)
  {
    var trimmed := Trim(line);
    var json := trimmed;
    if trimmed == [] || trimmed[0] != OPEN_BRACE {
      var bytes := Base64.Decode(trimmed);
      if compress {
        var unpacked := Compress.DecompressBytes(p.compressors, bytes);
        if unpacked.None? {
          return None;
        }
        bytes := unpacked.value;
      }
      json := p.codec.decode(bytes);
    }
    var parsed := p.parse(json);
    if parsed.None? {
      return None;
    }
    entry := TryDecryptEnvelope(p, parsed.value);
  }

  // ---------- All lines ----------

  /** The lines of a text: what stands between its line feeds. */
  function SplitLines(t: Text): (lines: seq<Text>)
    ensures lines != []
  {
    Split(t, LINE_FEED)
  }

  function UnlessBlank(line: Text): seq<Text> {
    if Trim(line) == [] then [] else [line]
  }

  /** The lines that hold more than white space. */
  function NonBlank(lines: seq<Text>): seq<Text> {
    FlatMap(UnlessBlank, lines)
  }

  /** What a line adds to the entries read: one entry, or nothing when it does not decrypt. */
  function Yielded(p: Platform, compress: bool, line: Text): seq<Json.Tree> {
    match DecryptedLine(p, compress, line)
    case Some(entry) => if Truthy(entry) then [entry] else []
    case None => []
  }

  function Reader(p: Platform, compress: bool): Text -> seq<Json.Tree> {
    line => Yielded(p, compress, line)
  }

  /** The entries that a reader finds in a text. */
  function Entries(p: Platform, compress: bool, text: Text): seq<Json.Tree> {
    FlatMap(Reader(p, compress), NonBlank(SplitLines(text)))
  }

  lemma NextLine(p: Platform, compress: bool, lines: seq<Text>, i: nat)
    requires i < |lines|
    ensures FlatMap(Reader(p, compress), lines[..i + 1])
      == FlatMap(Reader(p, compress), lines[..i]) + Yielded(p, compress, lines[i])
  {
    FlatMapNext(Reader(p, compress), lines[..i], lines[i]);
    assert lines[..i + 1] == lines[..i] + [lines[i]];
  }

  method ParseChunk(p: Platform, compress: bool, chunk: Text) returns (entries: seq<Json.Tree>)
    ensures entries == Entries(p, compress, chunk)
  {
    var lines := NonBlank(SplitLines(chunk));
    entries := [];
    for i := 0 to |lines|
      invariant entries == FlatMap(Reader(p, compress), lines[..i])
    {
      NextLine(p, compress, lines, i);
      var entry := TryDecryptLine(p, compress, lines[i]);
      if entry.Some? && Truthy(entry.value) {
        entries := entries + [entry.value];
      }
    }
    assert lines[..|lines|] == lines;
  }

  /** Reading a log that does not exist finds nothing. */
  method ReadAll(p: Platform, compress: bool, file: Option<Text>) returns (entries: seq<Json.Tree>)
    ensures entries == Entries(p, compress, file.GetOr([]))
  {
    if file.None? {
      assert SplitLines([]) == [[]] && NonBlank([[]]) == [];
      return [];
    }
    entries := ParseChunk(p, compress, file.value);
  }

  /** The lines hold no line feed, and joined by line feeds they are the text. */
  lemma SplitLinesMeans(t: Text)
    ensures Joined(SplitLines(t), LINE_FEED) == t
    ensures forall i :: 0 <= i < |SplitLines(t)| ==> LINE_FEED !in SplitLines(t)[i]
  {
    SplitMeans(t, LINE_FEED);
  }

  lemma SplitAtFeed(a: Text, b: Text)
    ensures SplitLines(a + [LINE_FEED] + b) == SplitLines(a) + SplitLines(b)
  {
    SplitAtSeparator(a, b, LINE_FEED);
  }

  lemma NonBlankConcat(a: seq<Text>, b: seq<Text>)
    ensures NonBlank(a + b) == NonBlank(a) + NonBlank(b)
  {
    FlatMapConcat(UnlessBlank, a, b);
  }

  /** Line feeds separate what is read: the two sides do not influence each other. */
  lemma EntriesSplit(p: Platform, compress: bool, a: Text, b: Text)
    ensures Entries(p, compress, a + [LINE_FEED] + b) == Entries(p, compress, a) + Entries(p, compress, b)
  {
    SplitAtFeed(a, b);
    NonBlankConcat(SplitLines(a), SplitLines(b));
    FlatMapConcat(Reader(p, compress), NonBlank(SplitLines(a)), NonBlank(SplitLines(b)));
  }

  /** Whatever a line is overwritten with, the entries before and after it are still read. */
  lemma FaultIsolation(p: Platform, compress: bool, before: Text, damage: Text, after: Text)
    ensures Entries(p, compress, before + [LINE_FEED] + damage + [LINE_FEED] + after)
      == Entries(p, compress, before) + Entries(p, compress, damage) + Entries(p, compress, after)
  {
    EntriesSplit(p, compress, before + [LINE_FEED] + damage, after);
    EntriesSplit(p, compress, before, damage);
  }

  // ---------- Reading back what was written ----------

  /** A line as some sink left it: written, compressed or not; bare JSON; or damaged. */
  datatype Line =
    | Written(entry: Json.Tree, iv: Bytes, compression: Option<Compress.Format>)
    | Plain(entry: Json.Tree, iv: Bytes)
    | Damaged(text: Text)

  function LineText(p: Platform, line: Line): Text
    requires AesGcm.Sealing(p.cipher)
  {
    match line
    case Written(entry, iv, compression) => LineFor(p, compression, entry, iv)
    case Plain(entry, iv) => Serialized(p, entry, iv)
    case Damaged(text) => text
  }

  /** Only a reader that decompresses sees compressed lines; a damaged line is blank or fails. */
  ghost predicate Stands(p: Platform, compress: bool, line: Line) {
    match line
    case Written(entry, _, compression) => Storable(p, entry) && (compression.Some? ==> compress)
    case Plain(entry, _) => Storable(p, entry)
    case Damaged(text) => LINE_FEED !in text && (Trim(text) == [] || Yielded(p, compress, text) == [])
  }

  function Undamaged(lines: seq<Line>): seq<Json.Tree> {
    if lines == [] then []
    else
      var last := lines[|lines| - 1];
      Undamaged(lines[..|lines| - 1]) + if last.Damaged? then [] else [last.entry]
  }

  function FileOf(p: Platform, lines: seq<Line>): Text
    requires AesGcm.Sealing(p.cipher)
  {
    if lines == [] then []
    else FileOf(p, lines[..|lines| - 1]) + LineText(p, lines[|lines| - 1]) + [LINE_FEED]
  }

  /** Empty, or ending in a line feed. */
  predicate Terminated(text: Text) {
    text == [] || text[|text| - 1] == LINE_FEED
  }

  /** A line read alone: nothing when it is blank, otherwise what it decrypts to. */
  lemma EntriesOfLine(p: Platform, compress: bool, t: Text)
    requires forall i :: 0 <= i < |t| ==> t[i] != LINE_FEED
    ensures Entries(p, compress, t) == if Trim(t) == [] then [] else Yielded(p, compress, t)
  {
    OnePart(t, LINE_FEED);
    NonBlankOne(t);
    FlatMapOne(Reader(p, compress), t);
  }

  lemma NonBlankOne(line: Text)
    ensures NonBlank([line]) == if Trim(line) == [] then [] else [line]
  {
    FlatMapOne(UnlessBlank, line);
  }

  lemma NothingInNothing(p: Platform, compress: bool)
    ensures Entries(p, compress, []) == []
  {
    EntriesOfLine(p, compress, []);
  }

  lemma LastFeed(p: Platform, compress: bool, before: Text)
    ensures Entries(p, compress, before + [LINE_FEED]) == Entries(p, compress, before)
  {
    NothingInNothing(p, compress);
    EntriesSplit(p, compress, before, []);
    assert before + [LINE_FEED] + [] == before + [LINE_FEED];
    assert Entries(p, compress, before) + [] == Entries(p, compress, before);
  }

  lemma EntriesAfter(p: Platform, compress: bool, text: Text, t: Text)
    requires Terminated(text)
    ensures Entries(p, compress, text + t) == Entries(p, compress, text) + Entries(p, compress, t)
  {
    if text == [] {
      NothingInNothing(p, compress);
      assert text + t == t;
    } else {
      var before := text[..|text| - 1];
      assert text == before + [LINE_FEED];
      EntriesSplit(p, compress, before, t);
      LastFeed(p, compress, before);
    }
  }

  /** Appending a line to a terminated text adds what the line holds. */
  lemma EntriesAppend(p: Platform, compress: bool, text: Text, t: Text)
    requires Terminated(text)
    ensures Entries(p, compress, text + t + [LINE_FEED]) == Entries(p, compress, text) + Entries(p, compress, t)
  {
    EntriesAfter(p, compress, text, t);
    LastFeed(p, compress, text + t);
  }

  /** The units of base64 are neither white space nor a brace. */
  lemma SymbolsPlain(b: Bytes)
    ensures var t := Base64.Encode(b);
      forall i :: 0 <= i < |t| ==> !IsSpace(t[i]) && t[i] != LINE_FEED && t[i] != OPEN_BRACE
    ensures b != [] ==> Base64.Encode(b) != []
  {
    Base64.OnlySymbols(b);
  }

  lemma TrimKeeps(t: Text)
    requires t == [] || (!IsSpace(t[0]) && !IsSpace(t[|t| - 1]))
    ensures Trim(t) == t
  {
  }

  lemma MemberNext(f: Json.Field, rest: seq<Json.Field>, key: Text)
    ensures StringMember([f] + rest, key)
      == if f.key != key then StringMember(rest, key) else if f.value.String? then Some(f.value.text) else None
  {
    assert ([f] + rest)[1..] == rest;
  }

  lemma EnvelopeBack(e: AesGcm.Envelope)
    ensures AsEnvelope(EnvelopeTree(e)) == Some(e)
  {
    var fields := EnvelopeTree(e).fields;
    var iv, authTag, data := fields[0], fields[1], fields[2];
    assert |iv.key| == 2 && |authTag.key| == 7 && |data.key| == 4;
    assert fields == [iv] + [authTag, data];
    assert [authTag, data] == [authTag] + [data] && [data] == [data] + [];
    MemberNext(iv, [authTag, data], iv.key);
    MemberNext(iv, [authTag, data], authTag.key);
    MemberNext(iv, [authTag, data], data.key);
    MemberNext(authTag, [data], authTag.key);
    MemberNext(authTag, [data], data.key);
    MemberNext(data, [], data.key);
  }

  /** The envelope of an entry decrypts to the entry. */
  lemma SealedBack(p: Platform, entry: Json.Tree, iv: Bytes)
    requires Reasonable(p) && Storable(p, entry)
    ensures p.parse(Serialized(p, entry, iv)).Some?
    ensures DecryptedTree(p, p.parse(Serialized(p, entry, iv)).value) == Some(entry)
  {
    var e := AesGcm.EncryptText(p.cipher, p.codec, iv, Json.Print(entry));
    EnvelopeBack(e);
    PrintClean(entry);
    PrintedFirst(entry);
    AesGcm.DecryptInverts(p.cipher, p.codec, iv, Json.Print(entry));
  }

  lemma EnvelopeValid(e: AesGcm.Envelope)
    ensures Json.Valid(EnvelopeTree(e))
  {
  }

  lemma PayloadBack(p: Platform, compress: bool, compression: Option<Compress.Format>, e: AesGcm.Envelope)
    requires Reasonable(p) && (compression.Some? ==> compress)
    ensures var bytes := Payload(p, compression, Json.Print(EnvelopeTree(e)));
      var unpacked := if compress then Compress.DecompressBytes(p.compressors, bytes) else Some(bytes);
      unpacked.Some? && p.codec.decode(unpacked.value) == Json.Print(EnvelopeTree(e))
    ensures Payload(p, compression, Json.Print(EnvelopeTree(e))) != []
  {
    var j := EnvelopeTree(e);
    EnvelopeValid(e);
    PrintedSurvives(p.codec, j);
    PrintedFirst(j);
    Compress.LegacyUnchanged(p.compressors, p.codec, j);
    if compression.Some? {
      Compress.DecompressInverts(p.compressors, p.codec.encode(Json.Print(j)), compression.value);
    }
  }

  /** A written line, compressed or not, decrypts to its entry. */
  lemma WrittenBack(p: Platform, compress: bool, compression: Option<Compress.Format>, entry: Json.Tree, iv: Bytes)
    requires Reasonable(p) && Storable(p, entry) && (compression.Some? ==> compress)
    ensures var t := LineFor(p, compression, entry, iv);
      && DecryptedLine(p, compress, t) == Some(entry)
      && Trim(t) != []
      && forall i :: 0 <= i < |t| ==> t[i] != LINE_FEED
  {
    var e := AesGcm.EncryptText(p.cipher, p.codec, iv, Json.Print(entry));
    var bytes := Payload(p, compression, Serialized(p, entry, iv));
    PayloadBack(p, compress, compression, e);
    SymbolsPlain(bytes);
    TrimKeeps(Base64.Encode(bytes));
    Base64.RoundTrip(bytes);
    SealedBack(p, entry, iv);
  }

  lemma EnvelopeLine(e: AesGcm.Envelope)
    ensures var t := Json.Print(EnvelopeTree(e));
      && Trim(t) == t && t != [] && t[0] == OPEN_BRACE
      && forall i :: 0 <= i < |t| ==> t[i] != LINE_FEED
  {
    EnvelopeValid(e);
    PrintClean(EnvelopeTree(e));
    ObjectBraces(EnvelopeTree(e).fields);
    TrimKeeps(Json.Print(EnvelopeTree(e)));
  }

  /** A bare JSON line decrypts to its entry. */
  lemma PlainBack(p: Platform, compress: bool, entry: Json.Tree, iv: Bytes)
    requires Reasonable(p) && Storable(p, entry)
    ensures var t := Serialized(p, entry, iv);
      && DecryptedLine(p, compress, t) == Some(entry)
      && Trim(t) != []
      && forall i :: 0 <= i < |t| ==> t[i] != LINE_FEED
  {
    EnvelopeLine(AesGcm.EncryptText(p.cipher, p.codec, iv, Json.Print(entry)));
    SealedBack(p, entry, iv);
  }

  lemma LineBack(p: Platform, compress: bool, line: Line)
    requires Reasonable(p) && Stands(p, compress, line)
    ensures forall i :: 0 <= i < |LineText(p, line)| ==> LineText(p, line)[i] != LINE_FEED
    ensures Entries(p, compress, LineText(p, line)) == if line.Damaged? then [] else [line.entry]
  {
    match line {
      case Written(entry, iv, compression) => WrittenBack(p, compress, compression, entry, iv);
      case Plain(entry, iv) => PlainBack(p, compress, entry, iv);
      case Damaged(_) =>
    }
    EntriesOfLine(p, compress, LineText(p, line));
  }

  /**
   A reader returns, in order, exactly the entries of the undamaged lines, over any mix of bare
   JSON, uncompressed, gzip and zstd lines that it is set up to read.
   */
  lemma {:induction false} ReadBack(p: Platform, compress: bool, lines: seq<Line>)
    requires Reasonable(p)
    requires forall i :: 0 <= i < |lines| ==> Stands(p, compress, lines[i])
    ensures Terminated(FileOf(p, lines))
    ensures Entries(p, compress, FileOf(p, lines)) == Undamaged(lines)
  {
    if lines == [] {
      NothingInNothing(p, compress);
    } else {
      var init, last := lines[..|lines| - 1], lines[|lines| - 1];
      ReadBack(p, compress, init);
      LineBack(p, compress, last);
      EntriesAppend(p, compress, FileOf(p, init), LineText(p, last));
    }
  }

  lemma FileCons(p: Platform, line: Line, lines: seq<Line>)
    requires AesGcm.Sealing(p.cipher)
    ensures FileOf(p, [line] + lines) == LineText(p, line) + [LINE_FEED] + FileOf(p, lines)
    decreases |lines|
  {
    var t := LineText(p, line) + [LINE_FEED];
    if lines == [] {
      assert [line] + lines == [line] && [line][..0] == [];
      assert [] + LineText(p, line) + [LINE_FEED] == t == t + [];
    } else {
      var init, last := lines[..|lines| - 1], lines[|lines| - 1];
      FileCons(p, line, init);
      assert ([line] + lines)[..|lines|] == [line] + init;
      LastApart([line], lines);
      Regroup(t, FileOf(p, init), FileOf(p, [line] + init), LineText(p, last), [LINE_FEED]);
    }
  }

  /**
   What a reader finds when lines follow a text. A last line of the text that lacks its line
   feed takes in the first of them.
   */
  function Continued(p: Platform, compress: bool, text: Text, lines: seq<Line>): seq<Json.Tree>
    requires AesGcm.Sealing(p.cipher)
  {
    if lines == [] || Terminated(text) then Entries(p, compress, text) + Undamaged(lines)
    else Entries(p, compress, text + LineText(p, lines[0])) + Undamaged(lines[1..])
  }

  lemma MergedBack(p: Platform, compress: bool, text: Text, first: Line, rest: seq<Line>)
    requires Reasonable(p)
    requires forall i :: 0 <= i < |rest| ==> Stands(p, compress, rest[i])
    ensures Entries(p, compress, text + FileOf(p, [first] + rest))
      == Entries(p, compress, text + LineText(p, first)) + Undamaged(rest)
  {
    var t := LineText(p, first);
    FileCons(p, first, rest);
    Regroup(text, t, text + t, [LINE_FEED], FileOf(p, rest));
    EntriesSplit(p, compress, text + t, FileOf(p, rest));
    ReadBack(p, compress, rest);
  }

  lemma ContinuedBehind(p: Platform, compress: bool, text: Text, first: Line, rest: seq<Line>)
    requires AesGcm.Sealing(p.cipher) && !Terminated(text)
    ensures Continued(p, compress, text, [first] + rest)
      == Entries(p, compress, text + LineText(p, first)) + Undamaged(rest)
  {
    assert ([first] + rest)[1..] == rest;
  }

  lemma ContinuedComplete(p: Platform, compress: bool, text: Text, lines: seq<Line>)
    requires AesGcm.Sealing(p.cipher) && (lines == [] || Terminated(text))
    ensures Continued(p, compress, text, lines) == Entries(p, compress, text) + Undamaged(lines)
  {
  }

  lemma ContinuedNothing(p: Platform, compress: bool, text: Text)
    requires AesGcm.Sealing(p.cipher)
    ensures Entries(p, compress, text + FileOf(p, [])) == Continued(p, compress, text, [])
  {
    assert text + FileOf(p, []) == text;
    assert Entries(p, compress, text) + [] == Entries(p, compress, text);
  }

  lemma CompleteContinued(p: Platform, compress: bool, text: Text, lines: seq<Line>)
    requires Reasonable(p) && Terminated(text)
    requires forall i :: 0 <= i < |lines| ==> Stands(p, compress, lines[i])
    ensures Entries(p, compress, text + FileOf(p, lines)) == Continued(p, compress, text, lines)
  {
    ContinuedComplete(p, compress, text, lines);
    ReadBack(p, compress, lines);
    EntriesAfter(p, compress, text, FileOf(p, lines));
  }

  lemma BehindContinued(p: Platform, compress: bool, text: Text, first: Line, rest: seq<Line>)
    requires Reasonable(p) && !Terminated(text)
    requires forall i :: 0 <= i < |rest| ==> Stands(p, compress, rest[i])
    ensures Entries(p, compress, text + FileOf(p, [first] + rest)) == Continued(p, compress, text, [first] + rest)
  {
    ContinuedBehind(p, compress, text, first, rest);
    MergedBack(p, compress, text, first, rest);
  }

  lemma ContinuedBack(p: Platform, compress: bool, text: Text, lines: seq<Line>)
    requires Reasonable(p)
    requires forall i :: 0 <= i < |lines| ==> Stands(p, compress, lines[i])
    ensures Entries(p, compress, text + FileOf(p, lines)) == Continued(p, compress, text, lines)
  {
    if lines == [] {
      ContinuedNothing(p, compress, text);
    } else if Terminated(text) {
      CompleteContinued(p, compress, text, lines);
    } else {
      var first, rest := lines[0], lines[1..];
      BehindContinued(p, compress, text, first, rest);
      assert lines == [first] + rest;
    }
  }

  /** A line that takes in another one yields one entry at most; the lines before it are not touched. */
  lemma OneLineMerged(p: Platform, compress: bool, before: Text, partial: Text, line: Text)
    requires Terminated(before) && LINE_FEED !in partial && LINE_FEED !in line
    ensures Entries(p, compress, before + partial + line)
      == Entries(p, compress, before) + Entries(p, compress, partial + line)
    ensures |Entries(p, compress, partial + line)| <= 1
  {
    assert before + partial + line == before + (partial + line);
    EntriesAfter(p, compress, before, partial + line);
    EntriesOfLine(p, compress, partial + line);
  }

  // ---------- A line behind part of a line ----------

  /** The entry that decoded bytes decrypt to. */
  function BytesEntry(p: Platform, compress: bool, bytes: Bytes): Option<Json.Tree> {
    match if compress then Compress.DecompressBytes(p.compressors, bytes) else Some(bytes)
    case None => None
    case Some(unpacked) =>
      match p.parse(p.codec.decode(unpacked))
      case None => None
      case Some(j) => DecryptedTree(p, j)
  }

  predicate OpensBrace(t: Text) {
    t != [] && t[0] == OPEN_BRACE
  }

  /** What stands at the end of a file leaves the bytes of a line written behind it as they are. */
  predicate AddsNothing(partial: Text) {
    Base64.Silent(partial) && !OpensBrace(TrimStart(partial))
  }

  /**
   No bytes decode to no text, which is no JSON; nor is a text that opens with a brace and ends
   with neither a brace nor white space.
   */
  ghost predicate StrictJson(p: Platform) {
    && p.codec.decode([]) == [] && p.parse([]) == None
    && forall t :: OpensBrace(t) && t[|t| - 1] != CLOSE_BRACE && !IsSpace(t[|t| - 1]) ==> p.parse(t) == None
  }

  function LineBytes(p: Platform, line: Line): Bytes
    requires AesGcm.Sealing(p.cipher) && line.Written?
  {
    Payload(p, line.compression, Serialized(p, line.entry, line.iv))
  }

  /** The trimmed text behind leading white space and in front of trailing white space. */
  lemma {:induction false} TrimStartApart(t: Text) returns (spaces: Text)
    ensures t == spaces + TrimStart(t) && forall i :: 0 <= i < |spaces| ==> IsSpace(spaces[i])
    ensures TrimStart(t) != [] ==> !IsSpace(TrimStart(t)[0])
  {
    spaces := [];
    if t != [] && IsSpace(t[0]) {
      var later := TrimStartApart(t[1..]);
      spaces := [t[0]] + later;
    }
  }

  lemma {:induction false} TrimEndApart(t: Text) returns (spaces: Text)
    ensures t == TrimEnd(t) + spaces && forall i :: 0 <= i < |spaces| ==> IsSpace(spaces[i])
  {
    spaces := [];
    if t != [] && IsSpace(t[|t| - 1]) {
      var earlier := TrimEndApart(t[..|t| - 1]);
      spaces := earlier + [t[|t| - 1]];
    }
  }

  lemma {:induction false} TrimStartBehind(partial: Text, t: Text)
    requires t != [] && !IsSpace(t[0])
    ensures TrimStart(partial + t) == TrimStart(partial) + t
  {
    if partial == [] {
      assert partial + t == t;
    } else {
      assert (partial + t)[1..] == partial[1..] + t;
      TrimStartBehind(partial[1..], t);
    }
  }

  lemma TrimBehind(partial: Text, t: Text)
    requires t != [] && !IsSpace(t[0]) && !IsSpace(t[|t| - 1])
    ensures Trim(partial + t) == TrimStart(partial) + t
  {
    TrimStartBehind(partial, t);
    LastBehind(TrimStart(partial), t);
    TrimEndKeeps(TrimStart(partial) + t);
  }

  lemma TrimEndKeeps(t: Text)
    requires t == [] || !IsSpace(t[|t| - 1])
    ensures TrimEnd(t) == t
  {
  }

  /** White space around a text means nothing to the decoder. */
  lemma TrimmedSextets(t: Text)
    ensures Base64.Sextets(TrimStart(t)) == Base64.Sextets(t) == Base64.Sextets(Trim(t))
    ensures (Base64.PAD in TrimStart(t) <==> Base64.PAD in t) && (Base64.PAD in Trim(t) <==> Base64.PAD in t)
  {
    var before := TrimStartApart(t);
    Base64.SilentBefore(before, TrimStart(t));
    var after := TrimEndApart(TrimStart(t));
    Base64.SilentAfter(Trim(t), after);
  }

  lemma DecodedLine(p: Platform, compress: bool, line: Text)
    requires !OpensBrace(Trim(line))
    ensures DecryptedLine(p, compress, line) == BytesEntry(p, compress, Base64.Join(Base64.Sextets(line)))
  {
    TrimmedSextets(line);
  }

  /** What a reader makes of decoded bytes. */
  function YieldedBytes(p: Platform, compress: bool, bytes: Bytes): seq<Json.Tree> {
    match BytesEntry(p, compress, bytes)
    case Some(entry) => if Truthy(entry) then [entry] else []
    case None => []
  }

  /** A line that opens with no brace is read as the bytes of its symbols. */
  lemma EntriesOfSymbols(p: Platform, compress: bool, t: Text)
    requires StrictJson(p)
    requires LINE_FEED !in t && !OpensBrace(Trim(t))
    ensures Entries(p, compress, t) == YieldedBytes(p, compress, Base64.Join(Base64.Sextets(t)))
  {
    EntriesOfLine(p, compress, t);
    DecodedLine(p, compress, t);
    if Trim(t) == [] {
      TrimmedSextets(t);
    }
  }

  /** A text that stands for these bytes, which decrypt to this entry, on one line of its own. */
  ghost predicate Holds(p: Platform, compress: bool, t: Text, bytes: Bytes, entry: Json.Tree) {
    && t == Base64.Encode(bytes) && Shaped(t)
    && BytesEntry(p, compress, bytes) == Some(entry) && Truthy(entry)
    && Opens(bytes)
  }

  /** Starts and ends with neither white space nor a brace, and holds no line feed. */
  predicate Shaped(t: Text) {
    && t != [] && !IsSpace(t[0]) && !IsSpace(t[|t| - 1])
    && LINE_FEED !in t && t[0] != OPEN_BRACE && t[|t| - 1] != CLOSE_BRACE
  }

  lemma EncodedShaped(b: Bytes)
    requires b != []
    ensures Shaped(Base64.Encode(b))
  {
    SymbolsPlain(b);
    Base64.OnlySymbols(b);
  }

  /** A first byte that does not read the same when shifted by one symbol. */
  predicate Opens(bytes: Bytes) {
    bytes != [] && bytes[0] / 64 != bytes[0] % 4
  }

  lemma KnownFirst(bytes: Bytes)
    requires bytes != [] && (bytes[0] == OPEN_BRACE || bytes[0] == 0x42)
    ensures Opens(bytes)
  {
  }

  lemma EncodedOpens(c: TextCodec, t: Text)
    requires Faithful(c) && OpensBrace(t)
    ensures Opens(c.encode(t))
  {
    KnownFirst(c.encode(t));
  }

  lemma CompressedOpens(z: Compress.Compressors, input: Bytes, f: Compress.Format)
    ensures Opens(Compress.Compressed(z, input, f))
  {
    Compress.OpensWithMagic(z, input, f);
    KnownFirst(Compress.Compressed(z, input, f));
  }

  lemma PayloadOpens(p: Platform, compression: Option<Compress.Format>, e: AesGcm.Envelope)
    requires Reasonable(p)
    ensures Opens(Payload(p, compression, Json.Print(EnvelopeTree(e))))
  {
    var t := Json.Print(EnvelopeTree(e));
    match compression {
      case Some(f) => CompressedOpens(p.compressors, p.codec.encode(t), f);
      case None =>
        EnvelopeLine(e);
        EncodedOpens(p.codec, t);
    }
  }

  lemma PayloadEntry(p: Platform, compress: bool, compression: Option<Compress.Format>, entry: Json.Tree, iv: Bytes)
    requires Reasonable(p) && Storable(p, entry) && (compression.Some? ==> compress)
    ensures BytesEntry(p, compress, Payload(p, compression, Serialized(p, entry, iv))) == Some(entry)
  {
    PayloadBack(p, compress, compression, AesGcm.EncryptText(p.cipher, p.codec, iv, Json.Print(entry)));
    SealedBack(p, entry, iv);
  }

  lemma WrittenHolds(p: Platform, compress: bool, line: Line)
    requires Reasonable(p) && line.Written? && Stands(p, compress, line)
    ensures Holds(p, compress, LineText(p, line), LineBytes(p, line), line.entry)
  {
    PayloadEntry(p, compress, line.compression, line.entry, line.iv);
    PayloadOpens(p, line.compression, AesGcm.EncryptText(p.cipher, p.codec, line.iv, Json.Print(line.entry)));
    EncodedShaped(LineBytes(p, line));
  }

  lemma FeedFree(a: Text, b: Text)
    requires LINE_FEED !in a && LINE_FEED !in b
    ensures LINE_FEED !in a + b
  {
  }

  /** A line behind part of a line that opens with no brace is read as the symbols of both. */
  lemma EntriesBehind(p: Platform, compress: bool, partial: Text, t: Text)
    requires StrictJson(p) && LINE_FEED !in partial && Shaped(t) && !OpensBrace(TrimStart(partial))
    ensures Entries(p, compress, partial + t) == YieldedBytes(p, compress, Base64.Join(Base64.Sextets(partial + t)))
    ensures Entries(p, compress, partial) == YieldedBytes(p, compress, Base64.Join(Base64.Sextets(partial)))
  {
    TrimBehind(partial, t);
    FeedFree(partial, t);
    BraceBehind(TrimStart(partial), t);
    EntriesOfSymbols(p, compress, partial + t);
    TrimmedBrace(partial);
    EntriesOfSymbols(p, compress, partial);
  }

  lemma BraceBehind(start: Text, t: Text)
    requires t != [] && t[0] != OPEN_BRACE
    ensures OpensBrace(start + t) <==> OpensBrace(start)
  {
  }

  lemma TrimmedBrace(t: Text)
    ensures OpensBrace(Trim(t)) <==> OpensBrace(TrimStart(t))
  {
    var after := TrimEndApart(TrimStart(t));
    if Trim(t) != [] {
      assert TrimStart(t)[0] == Trim(t)[0];
    } else if TrimStart(t) != [] {
      assert TrimStart(t)[0] == after[0];
    }
  }

  /** Behind white space and other units that mean nothing, the line is read as if it stood alone. */
  lemma BehindNothing(p: Platform, compress: bool, partial: Text, t: Text, bytes: Bytes, entry: Json.Tree)
    requires StrictJson(p) && LINE_FEED !in partial && Holds(p, compress, t, bytes, entry) && AddsNothing(partial)
    ensures Entries(p, compress, partial) == []
    ensures Entries(p, compress, partial + t) == [entry]
  {
    EntriesBehind(p, compress, partial, t);
    Base64.SilentBefore(partial, t);
    Base64.SilentExactlyWhen(partial);
    Base64.RoundTrip(bytes);
    NothingDecrypts(p, compress);
  }

  lemma NothingDecrypts(p: Platform, compress: bool)
    requires StrictJson(p)
    ensures YieldedBytes(p, compress, Base64.Join([])) == []
  {
  }

  lemma UnclosedUnread(p: Platform, compress: bool, line: Text)
    requires StrictJson(p) && LINE_FEED !in line
    requires OpensBrace(Trim(line)) && Trim(line)[|Trim(line)| - 1] != CLOSE_BRACE
    requires !IsSpace(Trim(line)[|Trim(line)| - 1])
    ensures Entries(p, compress, line) == []
  {
    EntriesOfLine(p, compress, line);
  }

  lemma BehindBrace(p: Platform, compress: bool, partial: Text, t: Text)
    requires StrictJson(p) && LINE_FEED !in partial && Shaped(t) && OpensBrace(TrimStart(partial))
    ensures Entries(p, compress, partial + t) == []
  {
    TrimBehind(partial, t);
    FeedFree(partial, t);
    BraceBehind(TrimStart(partial), t);
    LastBehind(TrimStart(partial), t);
    UnclosedUnread(p, compress, partial + t);
  }

  lemma LastBehind(start: Text, t: Text)
    requires t != []
    ensures (start + t)[|start + t| - 1] == t[|t| - 1]
  {
  }

  /** Padding hides the line behind it. */
  lemma BehindPadding(p: Platform, compress: bool, partial: Text, t: Text)
    requires StrictJson(p) && LINE_FEED !in partial && Shaped(t)
    requires Base64.PAD in partial && !OpensBrace(TrimStart(partial))
    ensures Entries(p, compress, partial + t) == Entries(p, compress, partial)
  {
    EntriesBehind(p, compress, partial, t);
    Base64.SextetsConcat(partial, t);
  }

  /**
   What stands at the end of a file yields nothing itself, and the bytes that it makes together
   with the line still decrypt to the entry, as with encoded white space in front of JSON.
   */
  predicate MergesUnharmed(p: Platform, compress: bool, partial: Text, line: Line)
    requires AesGcm.Sealing(p.cipher) && line.Written?
  {
    && Base64.PAD !in partial && !OpensBrace(TrimStart(partial))
    && Entries(p, compress, partial) == []
    && BytesEntry(p, compress, Base64.Decode(partial + LineText(p, line))) == Some(line.entry)
  }

  lemma BehindSymbols(p: Platform, compress: bool, partial: Text, t: Text, entry: Json.Tree)
    requires StrictJson(p) && LINE_FEED !in partial && Shaped(t) && Truthy(entry)
    requires !OpensBrace(TrimStart(partial))
    ensures Entries(p, compress, partial + t) == Entries(p, compress, partial) + [entry]
      <==> Entries(p, compress, partial) == [] && BytesEntry(p, compress, Base64.Decode(partial + t)) == Some(entry)
  {
    EntriesBehind(p, compress, partial, t);
    OneMore(Entries(p, compress, partial + t), Entries(p, compress, partial), entry);
  }

  lemma OneMore<T>(now: seq<T>, before: seq<T>, x: T)
    requires |now| <= 1
    ensures now == before + [x] <==> before == [] && now == [x]
  {
    if before == [] {
      assert [] + [x] == [x];
    }
  }

  lemma NotOneMore<T>(before: seq<T>, x: T)
    ensures before != before + [x]
  {
    assert |before + [x]| == |before| + 1;
  }

  /**
   A line written behind part of a line costs nothing exactly when decoding finds nothing in that
   part, which opens with no brace, or when the merged bytes decrypt to the entry all the same.
   */
  lemma PartialCostsNothingExactlyWhen(p: Platform, compress: bool, partial: Text, line: Line)
    requires Reasonable(p) && StrictJson(p) && LINE_FEED !in partial
    requires line.Written? && Stands(p, compress, line)
    ensures Entries(p, compress, partial + LineText(p, line)) == Entries(p, compress, partial) + [line.entry]
      <==> AddsNothing(partial) || MergesUnharmed(p, compress, partial, line)
  {
    var t, bytes := LineText(p, line), LineBytes(p, line);
    WrittenHolds(p, compress, line);
    if AddsNothing(partial) {
      BehindNothing(p, compress, partial, t, bytes, line.entry);
    } else if OpensBrace(TrimStart(partial)) {
      BehindBrace(p, compress, partial, t);
    } else if Base64.PAD in partial {
      BehindPadding(p, compress, partial, t);
      NotOneMore(Entries(p, compress, partial), line.entry);
    } else {
      BehindSymbols(p, compress, partial, t, line.entry);
    }
  }

  /** Merged bytes are never those of the line: only the cipher can still take them for its entry. */
  lemma MergedBytesDiffer(p: Platform, compress: bool, partial: Text, line: Line)
    requires Reasonable(p) && line.Written? && Stands(p, compress, line)
    requires Base64.PAD !in partial && !Base64.Silent(partial)
    ensures Base64.Decode(partial + LineText(p, line)) != LineBytes(p, line)
  {
    WrittenHolds(p, compress, line);
    Base64.SilentExactlyWhen(partial);
    Base64.SextetsConcat(partial, LineText(p, line));
    Base64.ShiftedDiffers(Base64.Sextets(partial), LineBytes(p, line));
  }

  /** The merged bytes fail to decrypt to the entry, where padding does not keep them apart. */
  ghost predicate MergeFails(p: Platform, compress: bool, partial: Text, line: Line)
    requires AesGcm.Sealing(p.cipher) && line.Written?
  {
    Base64.PAD !in partial && partial != [] ==>
      BytesEntry(p, compress, Base64.Decode(partial + LineText(p, line))) != Some(line.entry)
  }

  /** What an append that failed halfway left: the beginning of a line. */
  lemma TornPrefix(p: Platform, compress: bool, partial: Text, torn: Line)
    requires Reasonable(p) && torn.Written? && Stands(p, compress, torn)
    requires partial <= LineText(p, torn)
    ensures LINE_FEED !in partial
    ensures partial != [] ==> !Base64.Silent(partial) && !OpensBrace(TrimStart(partial))
  {
    WrittenHolds(p, compress, torn);
    SymbolsPlain(LineBytes(p, torn));
    Base64.OnlySymbols(LineBytes(p, torn));
    if partial != [] {
      assert partial[0] == LineText(p, torn)[0];
    }
  }

  /**
   Behind the beginning of a torn line the next entry is read, and nothing else is lost, exactly
   when nothing of that line was written.
   */
  lemma TornCostsNothingExactlyWhen(p: Platform, compress: bool, partial: Text, torn: Line, line: Line)
    requires Reasonable(p) && StrictJson(p)
    requires torn.Written? && Stands(p, compress, torn) && partial <= LineText(p, torn)
    requires line.Written? && Stands(p, compress, line) && MergeFails(p, compress, partial, line)
    ensures Entries(p, compress, partial + LineText(p, line)) == Entries(p, compress, partial) + [line.entry]
      <==> partial == []
  {
    TornPrefix(p, compress, partial, torn);
    PartialCostsNothingExactlyWhen(p, compress, partial, line);
    if partial == [] {
      NothingAdds();
    } else {
      FailedNotUnharmed(p, compress, partial, line);
    }
  }

  lemma NothingAdds()
    ensures AddsNothing([])
  {
  }

  lemma FailedNotUnharmed(p: Platform, compress: bool, partial: Text, line: Line)
    requires AesGcm.Sealing(p.cipher) && line.Written? && partial != [] && MergeFails(p, compress, partial, line)
    ensures !MergesUnharmed(p, compress, partial, line)
  {
  }

  /**
   Encoded bytes that the parser skips, as it skips spaces in front of JSON text, hold symbols
   and yet cost nothing: the second part of the condition is needed.
   */
  lemma SkippedBytesCostNothing(p: Platform, compress: bool, skipped: Bytes, line: Line)
    requires Reasonable(p) && StrictJson(p) && line.Written? && Stands(p, compress, line)
    requires skipped != [] && |skipped| % 3 == 0 && BytesEntry(p, compress, skipped) == None
    requires BytesEntry(p, compress, skipped + LineBytes(p, line)) == Some(line.entry)
    ensures var partial := Base64.Encode(skipped);
      && !AddsNothing(partial)
      && Entries(p, compress, partial + LineText(p, line)) == Entries(p, compress, partial) + [line.entry]
  {
    var partial := Base64.Encode(skipped);
    EncodedShaped(skipped);
    Base64.PaddedExactlyWhen(skipped);
    SkippedNotSilent(skipped);
    Base64.UnpaddedJoins(skipped, LineBytes(p, line));
    Base64.RoundTrip(skipped);
    WrittenHolds(p, compress, line);
    EntriesBehind(p, compress, partial, LineText(p, line));
    PartialCostsNothingExactlyWhen(p, compress, partial, line);
  }

  lemma SkippedNotSilent(b: Bytes)
    requires b != []
    ensures !Base64.Silent(Base64.Encode(b)) && TrimStart(Base64.Encode(b)) == Base64.Encode(b)
  {
    EncodedShaped(b);
    Base64.EncodedFirst(b);
    Base64.SilentExactlyWhen(Base64.Encode(b));
  }

  lemma CancelMiddle<T>(a: seq<T>, b: seq<T>, c: seq<T>, x: seq<T>, rest: seq<T>)
    ensures a + b + rest == a + c + (x + rest) <==> b == c + x
  {
    assert a + c + (x + rest) == a + ((c + x) + rest) && a + b + rest == a + (b + rest);
    if a + b + rest == a + c + (x + rest) {
      Cancel(a, b + rest, a, c + x + rest);
      assert |b| == |c + x|;
      Cancel(b, rest, c + x, rest);
    }
  }

  lemma NotTerminated(before: Text, partial: Text)
    requires partial != [] && LINE_FEED !in partial
    ensures !Terminated(before + partial)
  {
    assert (before + partial)[|before + partial| - 1] == partial[|partial| - 1];
  }

  lemma {:induction false} UndamagedCons(line: Line, lines: seq<Line>)
    ensures Undamaged([line] + lines) == (if line.Damaged? then [] else [line.entry]) + Undamaged(lines)
  {
    if lines == [] {
      assert [line] + lines == [line] && [line][..0] == [];
      assert Undamaged([line][..0]) == [];
    } else {
      var init, last := lines[..|lines| - 1], lines[|lines| - 1];
      UndamagedCons(line, init);
      assert ([line] + lines)[..|lines|] == [line] + init;
    }
  }

  lemma MergedContinues(p: Platform, compress: bool, before: Text, partial: Text, first: Line, rest: seq<Line>)
    requires Reasonable(p) && Terminated(before) && partial != [] && LINE_FEED !in partial
    requires Stands(p, compress, first)
    ensures Continued(p, compress, before + partial, [first] + rest)
      == Entries(p, compress, before) + Entries(p, compress, partial + LineText(p, first)) + Undamaged(rest)
  {
    NotTerminated(before, partial);
    LineBack(p, compress, first);
    OneLineMerged(p, compress, before, partial, LineText(p, first));
    ContinuedBehind(p, compress, before + partial, first, rest);
  }

  lemma KeptApart(p: Platform, compress: bool, before: Text, partial: Text, first: Line, rest: seq<Line>)
    requires Terminated(before) && first.Written?
    ensures Entries(p, compress, before + partial) + Undamaged([first] + rest)
      == Entries(p, compress, before) + Entries(p, compress, partial) + ([first.entry] + Undamaged(rest))
  {
    EntriesAfter(p, compress, before, partial);
    UndamagedCons(first, rest);
  }

  /** Nothing is lost of the lines behind a partial one exactly when nothing is lost by the first. */
  lemma ContinuesExactlyWhen(p: Platform, compress: bool, before: Text, partial: Text, first: Line, rest: seq<Line>)
    requires Reasonable(p) && Terminated(before) && partial != [] && LINE_FEED !in partial
    requires first.Written? && Stands(p, compress, first)
    ensures Continued(p, compress, before + partial, [first] + rest)
        == Entries(p, compress, before + partial) + Undamaged([first] + rest)
      <==> Entries(p, compress, partial + LineText(p, first)) == Entries(p, compress, partial) + [first.entry]
  {
    MergedContinues(p, compress, before, partial, first, rest);
    KeptApart(p, compress, before, partial, first, rest);
    CancelMiddle(Entries(p, compress, before), Entries(p, compress, partial + LineText(p, first)),
      Entries(p, compress, partial), [first.entry], Undamaged(rest));
  }

  /** The same for what was read, and any list of lines. */
  lemma ReadExactlyWhen(p: Platform, compress: bool, before: Text, partial: Text, lines: seq<Line>,
                        start: Text, final: seq<Json.Tree>)
    requires Reasonable(p) && Terminated(before) && partial != [] && LINE_FEED !in partial
    requires lines != [] && lines[0].Written? && Stands(p, compress, lines[0])
    requires start == before + partial && final == Continued(p, compress, start, lines)
    ensures var merged := Entries(p, compress, partial + LineText(p, lines[0]));
      && (final == Entries(p, compress, start) + Undamaged(lines)
          <==> merged == Entries(p, compress, partial) + [lines[0].entry])
  {
    assert lines == [lines[0]] + lines[1..];
    ContinuesExactlyWhen(p, compress, before, partial, lines[0], lines[1..]);
  }

  lemma EntriesOfPair(p: Platform, compress: bool, t: Text, u: Text)
    requires StrictJson(p) && Shaped(t) && Shaped(u)
    ensures Entries(p, compress, t + u) == YieldedBytes(p, compress, Base64.Decode(t + u))
  {
    assert TrimStart(t) == t;
    EntriesBehind(p, compress, t, u);
  }

  /** A line that lacks only its line feed, and is padded, swallows the next one. */
  lemma UnfinishedLineSwallows(p: Platform, compress: bool, first: Line, second: Line)
    requires Reasonable(p) && StrictJson(p) && first.Written? && Stands(p, compress, first)
    requires second.Written? && Stands(p, compress, second)
    requires |LineBytes(p, first)| % 3 != 0
    ensures Entries(p, compress, LineText(p, first)) == [first.entry]
    ensures Entries(p, compress, LineText(p, first) + LineText(p, second)) == [first.entry]
  {
    LineBack(p, compress, first);
    WrittenHolds(p, compress, first);
    WrittenHolds(p, compress, second);
    Base64.PaddedHides(LineBytes(p, first), LineText(p, second));
    EntriesOfPair(p, compress, LineText(p, first), LineText(p, second));
  }

  /** Without padding both entries are at stake: what is read is what the bytes of both decrypt to. */
  lemma UnpaddedLinesMerge(p: Platform, compress: bool, first: Line, second: Line)
    requires Reasonable(p) && StrictJson(p) && first.Written? && Stands(p, compress, first)
    requires second.Written? && Stands(p, compress, second)
    requires |LineBytes(p, first)| % 3 == 0
    ensures Entries(p, compress, LineText(p, first) + LineText(p, second))
      == YieldedBytes(p, compress, LineBytes(p, first) + LineBytes(p, second))
  {
    WrittenHolds(p, compress, first);
    WrittenHolds(p, compress, second);
    Base64.UnpaddedJoins(LineBytes(p, first), LineBytes(p, second));
    EntriesOfPair(p, compress, LineText(p, first), LineText(p, second));
  }
}
