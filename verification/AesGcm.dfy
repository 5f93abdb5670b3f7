/** Texts sealed into envelopes of base64 fields; the cipher, its key included, is a parameter. */
module AesGcm {
  import opened Bits
  import opened Buffers
  import opened TextEncoding
  import opened Utf16
  import opened Wrappers
  import Base64

  /** Sealing appends a tag to the ciphertext; opening fails on anything that was not sealed. */
  datatype Cipher = Cipher(seal: (Bytes, Bytes) -> Bytes, open: (Bytes, Bytes) -> Option<Bytes>)

  const TAG_LENGTH := 16

  ghost predicate Sealing(k: Cipher) {
    forall iv, plain :: |k.seal(iv, plain)| >= TAG_LENGTH && k.open(iv, k.seal(iv, plain)) == Some(plain)
  }

  datatype Envelope = Envelope(iv: Text, authTag: Text, data: Text)

  function EncryptText(k: Cipher, c: TextCodec, iv: Bytes, plaintext: Text): Envelope
    requires Sealing(k)
  {
    var full := k.seal(iv, c.encode(plaintext));
    Envelope(
      Base64.Encode(iv),
      Base64.Encode(full[|full| - TAG_LENGTH..]),
      Base64.Encode(full[..|full| - TAG_LENGTH]))
  }

  /** What an envelope opens to: the ciphertext is its data followed by its tag. */
  function Opened(k: Cipher, c: TextCodec, e: Envelope): Option<Text> {
    match k.open(Base64.Decode(e.iv), Base64.Decode(e.data) + Base64.Decode(e.authTag))
    case None => None
    case Some(plain) => Some(c.decode(plain))
  }

  method DecryptText(k: Cipher, c: TextCodec, e: Envelope) returns (r: Option<Text>)
    ensures r == Opened(k, c, e)
  {
    var iv := Base64.Decode(e.iv);
    var authTag := Base64.Decode(e.authTag);
    var data := Base64.Decode(e.data);
    var ciphertext := new Byte[|data| + |authTag|](_ => 0);
    Set(ciphertext, data, 0);
    Set(ciphertext, authTag, |data|);
    assert ciphertext[..] == data + authTag;
    match k.open(iv, ciphertext[..]) {
      case None => r := None;
      case Some(plain) => r := Some(c.decode(plain));
    }
  }

  /** An envelope opens to the text it was made from. */
  lemma DecryptInverts(k: Cipher, c: TextCodec, iv: Bytes, plaintext: Text)
    requires Sealing(k) && Faithful(c) && Encodable(plaintext)
    ensures Opened(k, c, EncryptText(k, c, iv, plaintext)) == Some(plaintext)
  {
    var full := k.seal(iv, c.encode(plaintext));
    var n := |full| - TAG_LENGTH;
    Base64.RoundTrip(iv);
    Base64.RoundTrip(full[n..]);
    Base64.RoundTrip(full[..n]);
    assert full[..n] + full[n..] == full;
  }

  /** An envelope holds the vector, the last sixteen bytes of what the cipher returned, and the others. */
  lemma EnvelopeMeans(k: Cipher, c: TextCodec, iv: Bytes, plaintext: Text)
    requires Sealing(k)
    ensures var e := EncryptText(k, c, iv, plaintext);
      && Base64.Decode(e.iv) == iv && |Base64.Decode(e.authTag)| == 16
      && Base64.Decode(e.data) + Base64.Decode(e.authTag) == k.seal(iv, c.encode(plaintext))
  {
    var full := k.seal(iv, c.encode(plaintext));
    var n := |full| - TAG_LENGTH;
    Base64.RoundTrip(iv);
    Base64.RoundTrip(full[n..]);
    Base64.RoundTrip(full[..n]);
    assert full[..n] + full[n..] == full;
  }
}
