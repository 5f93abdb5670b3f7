/**
 A platform that has every property the audit log takes for granted: what is required there can be
 met, together, by a sink whose first append was torn.
 */
module SamplePlatform {
  import opened AuditLog
  import opened Bits
  import opened Buffers
  import opened TextEncoding
  import opened Utf16
  import opened Wrappers
  import AesGcm
  import AuditSink
  import Base64
  import Compress
  import Json
  import JsonReader
  import Sequences

  // ---------- Texts as bytes ----------

  function UnitBytes(u: CodeUnit): Bytes {
    if u < 0x80 then [u] else [0x80, u / 256, u % 256]
  }

  function EncodeUnits(t: Text): Bytes {
    if t == [] then [] else UnitBytes(t[0]) + EncodeUnits(t[1..])
  }

  function DecodeUnits(b: Bytes): Text {
    if b == [] then []
    else if b[0] < 0x80 then [b[0]] + DecodeUnits(b[1..])
    else if |b| < 3 then []
    else [b[1] * 256 + b[2]] + DecodeUnits(b[3..])
  }

  lemma DecodeUnit(u: CodeUnit, rest: Bytes)
    ensures DecodeUnits(UnitBytes(u) + rest) == [u] + DecodeUnits(rest)
  {
    var b := UnitBytes(u) + rest;
    assert b[|UnitBytes(u)|..] == rest;
  }

  lemma {:induction false} UnitsBack(t: Text)
    ensures DecodeUnits(EncodeUnits(t)) == t
  {
    if t != [] {
      UnitsBack(t[1..]);
      DecodeUnit(t[0], EncodeUnits(t[1..]));
    }
  }

  const CODEC := TextCodec(EncodeUnits, DecodeUnits)

  lemma CodecFaithful()
    ensures Faithful(CODEC)
  {
    forall t: Text ensures CODEC.decode(CODEC.encode(t)) == t {
      UnitsBack(t);
    }
  }

  // ---------- A cipher, and compressors that do nothing ----------

  function Tag(): Bytes {
    Sequences.Repeat(AesGcm.TAG_LENGTH, 0)
  }

  function Seal(iv: Bytes, plain: Bytes): Bytes {
    plain + Tag()
  }

  function Open(iv: Bytes, full: Bytes): Option<Bytes> {
    var n := |full| - AesGcm.TAG_LENGTH;
    if n >= 0 && full[n..] == Tag() then Some(full[..n]) else None
  }

  function Pack(f: Compress.Format, b: Bytes): Bytes {
    b
  }

  function Unpack(f: Compress.Format, b: Bytes): Option<Bytes> {
    Some(b)
  }

  const CIPHER := AesGcm.Cipher(Seal, Open)

  const COMPRESSORS := Compress.Compressors(Pack, Unpack)

  lemma CipherSeals()
    ensures AesGcm.Sealing(CIPHER)
  {
    forall iv, plain ensures CIPHER.open(iv, CIPHER.seal(iv, plain)) == Some(plain) {
      var full := Seal(iv, plain);
      assert full[|full| - AesGcm.TAG_LENGTH..] == Tag();
      assert full[..|full| - AesGcm.TAG_LENGTH] == plain;
    }
  }

  // ---------- The platform ----------

  const ENTRY := Json.Bool(true)

  function Sample(): Platform {
    Platform(CODEC, CIPHER, COMPRESSORS, t => JsonReader.Read(t))
  }

  /** The properties taken for granted can be had together, with a reader of all JSON text. */
  lemma SampleReasonable()
    ensures Reasonable(Sample()) && StrictJson(Sample())
    ensures forall entry :: Json.Valid(entry) && Truthy(entry) ==> Storable(Sample(), entry)
  {
    var p := Sample();
    CodecFaithful();
    CipherSeals();
    forall e ensures p.parse(Json.Print(EnvelopeTree(e))) == Some(EnvelopeTree(e)) {
      EnvelopeValid(e);
      JsonReader.ReadBack(EnvelopeTree(e));
    }
    forall entry | Json.Valid(entry) ensures p.parse(Json.Print(entry)) == Some(entry) {
      JsonReader.ReadBack(entry);
    }
    forall t: Text | OpensBrace(t) && t[|t| - 1] != CLOSE_BRACE && !IsSpace(t[|t| - 1]) ensures p.parse(t) == None {
      JsonReader.UnclosedUnread(t);
    }
  }

  /** The bytes of an uncompressed line begin with a brace. */
  lemma BytesOpen(p: Platform, line: Line)
    requires Reasonable(p) && line.Written? && line.compression == None
    ensures LineBytes(p, line) != [] && LineBytes(p, line)[0] == OPEN_BRACE
  {
    EnvelopeLine(AesGcm.EncryptText(p.cipher, p.codec, line.iv, Json.Print(line.entry)));
  }

  /** One symbol of a torn line shifts the next line so that its bytes no longer open with a brace. */
  lemma OneSymbolShifts(b: Bytes, c: Bytes)
    requires b != [] && c != [] && b[0] == c[0] == OPEN_BRACE
    ensures var partial := Base64.Encode(b)[..1];
      var merged := Base64.Decode(partial + Base64.Encode(c));
      merged != [] && merged[0] == 0x79
  {
    var partial, t := Base64.Encode(b)[..1], Base64.Encode(c);
    Base64.FirstSymbol(b);
    Base64.EncodedFirst(c);
    Base64.SextetsConcat(partial, t);
    Base64.JoinFirst(Base64.Sextets(partial + t));
  }

  lemma ShiftedFails(bytes: Bytes)
    requires bytes != [] && bytes[0] == 0x79
    ensures BytesEntry(Sample(), false, bytes) == None
  {
    JsonReader.NothingStarts(DecodeUnits(bytes));
  }

  lemma SpaceInFront(b: Bytes)
    ensures JsonReader.Read(DecodeUnits([SPACE] + b)) == JsonReader.Read(DecodeUnits(b))
  {
    DecodeUnit(SPACE, b);
    JsonReader.SpaceSkipped(SPACE, DecodeUnits(b));
  }

  function Spaces(n: nat): (r: Bytes)
    ensures |r| == n
  {
    if n == 0 then [] else [SPACE] + Spaces(n - 1)
  }

  lemma {:induction false} SpacesInFront(n: nat, b: Bytes)
    ensures JsonReader.Read(DecodeUnits(Spaces(n) + b)) == JsonReader.Read(DecodeUnits(b))
  {
    if n == 0 {
      assert Spaces(0) + b == b;
    } else {
      SpacesInFront(n - 1, b);
      SpaceInFront(Spaces(n - 1) + b);
      assert Spaces(n) + b == [SPACE] + (Spaces(n - 1) + b);
    }
  }

  lemma SpacesBetween(n: nat, b: Bytes)
    ensures BytesEntry(Sample(), false, Spaces(n) + b) == BytesEntry(Sample(), false, b)
  {
    SpacesInFront(n, b);
  }

  /** Bytes that change no reading are skipped in front of a line. */
  lemma SkippedInFront(p: Platform, skipped: Bytes, line: Line)
    requires Reasonable(p) && line.Written? && line.compression == None && Stands(p, false, line)
    requires forall b :: BytesEntry(p, false, skipped + b) == BytesEntry(p, false, b)
    requires BytesEntry(p, false, []) == None
    ensures BytesEntry(p, false, skipped) == None
    ensures BytesEntry(p, false, skipped + LineBytes(p, line)) == Some(line.entry)
  {
    assert skipped + [] == skipped;
    PayloadEntry(p, false, None, line.entry, line.iv);
  }

  /** Encoded spaces in front of a line are such skipped bytes. */
  lemma SkippedSpacesMet(n: nat, iv: Bytes) returns (skipped: Bytes, line: Line)
    requires n > 0 && n % 3 == 0
    ensures Reasonable(Sample()) && StrictJson(Sample()) && line.Written? && Stands(Sample(), false, line)
    ensures skipped != [] && |skipped| % 3 == 0 && BytesEntry(Sample(), false, skipped) == None
    ensures BytesEntry(Sample(), false, skipped + LineBytes(Sample(), line)) == Some(line.entry)
  {
    skipped := Spaces(n);
    line := Written(ENTRY, iv, None);
    SampleReasonable();
    forall b ensures BytesEntry(Sample(), false, skipped + b) == BytesEntry(Sample(), false, b) {
      SpacesBetween(n, b);
    }
    SkippedInFront(Sample(), skipped, line);
  }

  /** The one symbol that a torn append left. */
  lemma SampleMergeFails(torn: Line, line: Line)
    requires AesGcm.Sealing(Sample().cipher) && Reasonable(Sample())
    requires torn.Written? && torn.compression == None && line.Written? && line.compression == None
    ensures LineText(Sample(), torn) != []
    ensures MergeFails(Sample(), false, LineText(Sample(), torn)[..1], line)
  {
    var p := Sample();
    BytesOpen(p, torn);
    BytesOpen(p, line);
    Base64.FirstSymbol(LineBytes(p, torn));
    OneSymbolShifts(LineBytes(p, torn), LineBytes(p, line));
    ShiftedFails(Base64.Decode(LineText(p, torn)[..1] + LineText(p, line)));
  }

  /**
   A sink, a file with one symbol of a torn line and one append behind it that meet all that is
   required where the cost of a torn append is stated.
   */
  lemma TornAppendMet(iv0: Bytes, iv: Bytes)
    returns (o: Options, s0: AuditSink.State, events: seq<AuditSink.Event>, torn: Line, partial: Text, lines: seq<Line>)
    ensures Reasonable(Sample()) && StrictJson(Sample()) && AuditSink.Idle(s0)
    ensures AuditSink.AllStorable(Sample(), events)
    ensures AuditSink.TornBy(Sample(), s0.file, [], partial, torn) && Stands(Sample(), false, torn) && !o.compress
    ensures AuditSink.After(Sample(), o, s0, events).Some?
    ensures |AuditSink.Outcomes(events)| <= |AuditSink.Enqueued(o, events)|
    ensures lines == AuditSink.Succeeded(AuditSink.Enqueued(o, events), AuditSink.Outcomes(events)) && lines != []
    ensures lines[0].Written? && MergeFails(Sample(), false, partial, lines[0]) && partial != []
  {
    var p := Sample();
    o := Options(false, Compress.Gzip);
    var line := Written(ENTRY, iv, None);
    torn := Written(ENTRY, iv0, None);
    SampleReasonable();
    SampleMergeFails(torn, line);
    partial := LineText(p, torn)[..1];
    s0 := AuditSink.State(Some([] + partial), multiset{}, []);
    events := AuditSink.OneAppend(ENTRY, iv);
    AuditSink.OneAppendRuns(p, o, s0, ENTRY, iv);
    AuditSink.OneAppendStorable(p, ENTRY, iv);
    AuditSink.OneSucceeds(line);
    lines := [line];
  }

  /** An append behind one symbol of a torn line that is not read back. */
  lemma TornAppendLoses(iv0: Bytes, iv: Bytes)
    returns (o: Options, s0: AuditSink.State, events: seq<AuditSink.Event>, lines: seq<Line>)
    ensures AuditSink.Idle(s0) && AesGcm.Sealing(Sample().cipher)
    ensures AuditSink.After(Sample(), o, s0, events).Some?
    ensures |AuditSink.Outcomes(events)| <= |AuditSink.Enqueued(o, events)|
    ensures lines == AuditSink.Succeeded(AuditSink.Enqueued(o, events), AuditSink.Outcomes(events)) && lines != []
    ensures Entries(Sample(), false, AuditSink.After(Sample(), o, s0, events).value.file.GetOr([]))
      != Entries(Sample(), false, s0.file.GetOr([])) + Undamaged(lines)
  {
    var torn, partial;
    o, s0, events, torn, partial, lines := TornAppendMet(iv0, iv);
    AuditSink.TornAppendCostsNothingExactlyWhen(Sample(), o, false, s0, events, [], partial, torn, lines);
  }
}
