/** The CRC-32 of the PNG writer: the table, the loop as written, and the intended CRC. */
module Crc32 {
  import opened Bits

  const ONES: Word := Ones(32)

  /** The bits of 0xEDB88320 that are set. */
  predicate PolynomialBit(i: int) {
    i == 5 || i == 8 || i == 9 || i == 15 || i == 19 || i == 20 || i == 21 || i == 23 || i == 24
    || i == 26 || i == 27 || i == 29 || i == 30 || i == 31
  }

  function Polynomial(): (p: Word)
    ensures forall i :: 0 <= i < 32 ==> p[i] == PolynomialBit(i)
  {
    seq(32, i requires 0 <= i < 32 => PolynomialBit(i))
  }

  /** One bit of the division. */
  function BitStep(c: Word): Word {
    if c[0] then Xor(Polynomial(), ShiftRight(c, 1)) else ShiftRight(c, 1)
  }

  function BitSteps(c: Word, n: nat): Word
    decreases n
  {
    if n == 0 then c else BitSteps(BitStep(c), n - 1)
  }

  /** The table entry of an index given by its eight bits. */
  function Entry(index: seq<bool>): Word
    requires |index| == 8
  {
    BitSteps(index + Zeros(24), 8)
  }

  // ---------- The constant ----------

  /** From bit k on, the bits of n are those of the polynomial. */
  predicate Matches(n: nat, k: nat)
    decreases 32 - k
  {
    k >= 32 || ((n % 2 == 1) == PolynomialBit(k) && Matches(n / 2, k + 1))
  }

  lemma HighByteMatches()
    ensures Matches(0xED, 24)
  {
  }

  lemma HighHalfMatches()
    ensures Matches(0xEDB8, 16)
  {
    HighByteMatches();
  }

  lemma HighBytesMatch()
    ensures Matches(0xEDB883, 8)
  {
    HighHalfMatches();
  }

  lemma PolynomialMatches()
    ensures Matches(0xEDB88320, 0)
  {
    HighBytesMatch();
  }

  lemma OfNatHead(n: nat, width: nat)
    requires width > 0
    ensures OfNat(n, width) == [n % 2 == 1] + OfNat(n / 2, width - 1)
  {
  }

  ghost predicate PolynomialFrom(b: seq<bool>, k: nat) {
    forall i :: 0 <= i < |b| ==> b[i] == PolynomialBit(k + i)
  }

  lemma PolynomialCons(head: bool, rest: seq<bool>, k: nat)
    requires head == PolynomialBit(k) && PolynomialFrom(rest, k + 1)
    ensures PolynomialFrom([head] + rest, k)
  {
    var b := [head] + rest;
    forall i | 0 <= i < |b| ensures b[i] == PolynomialBit(k + i) {
      if i > 0 { assert b[i] == rest[i - 1]; }
    }
  }

  lemma {:induction false} MatchesBits(n: nat, k: nat)
    requires k <= 32 && Matches(n, k)
    ensures PolynomialFrom(OfNat(n, 32 - k), k)
    decreases 32 - k
  {
    if k < 32 {
      MatchesBits(n / 2, k + 1);
      OfNatHead(n, 32 - k);
      PolynomialCons(n % 2 == 1, OfNat(n / 2, 31 - k), k);
    }
  }

  /** The polynomial is the constant of the code. */
  lemma PolynomialIs()
    ensures Polynomial() == OfNat(0xEDB88320, 32)
  {
    PolynomialMatches();
    MatchesBits(0xEDB88320, 0);
    var n := OfNat(0xEDB88320, 32);
    forall i | 0 <= i < 32 ensures Polynomial()[i] == n[i] {
      assert n[i] == PolynomialBit(0 + i);
    }
  }

  // ---------- The registers ----------

  /** One pass of a table-driven loop that shifts the register by so many bits. */
  function Pass(c: Word, b: Byte, shift: nat): Word
    requires shift <= 32
  {
    Xor(Entry(Xor(c[..8], ByteBits(b))), ShiftRight(c, shift))
  }

  /** The loop as written. */
  function Register(c: Word, data: seq<Byte>): Word {
    if data == [] then c else Pass(Register(c, data[..|data| - 1]), data[|data| - 1], 1)
  }

  /** The loop of section 15 of RFC 2083. */
  function IntendedRegister(c: Word, data: seq<Byte>): Word {
    if data == [] then c else Pass(IntendedRegister(c, data[..|data| - 1]), data[|data| - 1], 8)
  }

  /** The division one bit at a time, without a table. */
  function BitwiseRegister(c: Word, data: seq<Byte>): Word {
    if data == [] then c
    else BitSteps(Xor(BitwiseRegister(c, data[..|data| - 1]), ByteBits(data[|data| - 1]) + Zeros(24)), 8)
  }

  function Crc(data: seq<Byte>): Word {
    Xor(Register(ONES, data), ONES)
  }

  function IntendedCrc(data: seq<Byte>): Word {
    Xor(IntendedRegister(ONES, data), ONES)
  }

  function BitwiseCrc(data: seq<Byte>): Word {
    Xor(BitwiseRegister(ONES, data), ONES)
  }

  // ---------- Building and using the table ----------

  ghost predicate IsTable(table: array<Word>)
    reads table
  {
    table.Length == 256 && forall i: Byte :: table[i] == Entry(ByteBits(i))
  }

  /** The inner loop that fills the table: the eight bits of one index. */
  method ComputeEntry(i: Byte) returns (c: Word)
    ensures c == Entry(ByteBits(i))
  {
    c := ByteBits(i) + Zeros(24);
    for k := 0 to 8
      invariant BitSteps(c, 8 - k) == Entry(ByteBits(i))
    {
      c := BitStep(c);
    }
  }

  method BuildTable() returns (table: array<Word>)
    ensures fresh(table) && IsTable(table)
  {
    table := new Word[256](_ => Zeros(32));
    for i := 0 to 256
      invariant forall j: Byte :: j < i ==> table[j] == Entry(ByteBits(j))
    {
      table[i] := ComputeEntry(i);
    }
  }

  method Compute(table: array<Word>, data: seq<Byte>) returns (r: Word)
    requires IsTable(table)
    ensures r == Crc(data)
  {
    var crc := ONES;
    for i := 0 to |data|
      invariant crc == Register(ONES, data[..i])
    {
      assert data[..i + 1][..i] == data[..i];
      var index := Xor(crc[..8], ByteBits(data[i]));
      ByteRoundTrip(0, index);
      crc := Xor(table[ByteValue(index)], ShiftRight(crc, 1));
    }
    assert data[..|data|] == data;
    r := Xor(crc, ONES);
  }

  // ---------- Linearity ----------

  lemma BitStepLinear(a: Word, b: Word)
    ensures BitStep(Xor(a, b)) == Xor(BitStep(a), BitStep(b))
  {
    ShiftXor(a, b, 1);
  }

  lemma {:induction false} BitStepsLinear(a: Word, b: Word, n: nat)
    ensures BitSteps(Xor(a, b), n) == Xor(BitSteps(a, n), BitSteps(b, n))
    decreases n
  {
    if n > 0 {
      BitStepLinear(a, b);
      BitStepsLinear(BitStep(a), BitStep(b), n - 1);
    }
  }

  /** TABLE[i ^ j] = TABLE[i] ^ TABLE[j] */
  lemma EntryLinear(i: seq<bool>, j: seq<bool>)
    requires |i| == |j| == 8
    ensures Entry(Xor(i, j)) == Xor(Entry(i), Entry(j))
  {
    assert Xor(i, j) + Zeros(24) == Xor(i + Zeros(24), j + Zeros(24));
    BitStepsLinear(i + Zeros(24), j + Zeros(24), 8);
  }

  function XorByte(a: Byte, b: Byte): Byte {
    ByteValue(Xor(ByteBits(a), ByteBits(b)))
  }

  /** Exclusive-or of two buffers of one length, byte by byte. */
  function XorBytes(a: seq<Byte>, b: seq<Byte>): (c: seq<Byte>)
    requires |a| == |b|
    ensures |c| == |a| && forall i :: 0 <= i < |a| ==> c[i] == XorByte(a[i], b[i])
  {
    seq(|a|, i requires 0 <= i < |a| => XorByte(a[i], b[i]))
  }

  lemma PassLinear(s: Word, t: Word, b: Byte, c: Byte)
    ensures Pass(Xor(s, t), XorByte(b, c), 1) == Xor(Pass(s, b, 1), Pass(t, c, 1))
  {
    var i, j := Xor(s[..8], ByteBits(b)), Xor(t[..8], ByteBits(c));
    ByteRoundTrip(0, Xor(ByteBits(b), ByteBits(c)));
    XorShuffle(s[..8], t[..8], ByteBits(b), ByteBits(c));
    assert Xor(s, t)[..8] == Xor(s[..8], t[..8]);
    EntryLinear(i, j);
    ShiftXor(s, t, 1);
    XorShuffle(Entry(i), Entry(j), ShiftRight(s, 1), ShiftRight(t, 1));
  }

  lemma {:induction false} RegisterLinear(s: Word, t: Word, a: seq<Byte>, b: seq<Byte>)
    requires |a| == |b|
    ensures Register(Xor(s, t), XorBytes(a, b)) == Xor(Register(s, a), Register(t, b))
  {
    if a != [] {
      var n := |a| - 1;
      RegisterLinear(s, t, a[..n], b[..n]);
      assert XorBytes(a, b)[..n] == XorBytes(a[..n], b[..n]);
      PassLinear(Register(s, a[..n]), Register(t, b[..n]), a[n], b[n]);
    }
  }

  /** The CRC as written is affine over exclusive-or on buffers of one length. */
  lemma CrcAffine(a: seq<Byte>, b: seq<Byte>, c: seq<Byte>)
    requires |a| == |b| == |c|
    ensures Xor(Xor(Crc(a), Crc(b)), Crc(c)) == Crc(XorBytes(XorBytes(a, b), c))
  {
    RegisterLinear(ONES, ONES, a, b);
    RegisterLinear(Xor(ONES, ONES), ONES, XorBytes(a, b), c);
    assert Xor(Xor(ONES, ONES), ONES) == ONES;
    assert Xor(Xor(Crc(a), Crc(b)), Crc(c))
        == Xor(Xor(Xor(Register(ONES, a), Register(ONES, b)), Register(ONES, c)), ONES);
  }

  // ---------- The intended form is the bitwise CRC ----------

  /** Bits shifted out as zeros leave no trace. */
  lemma {:induction false} ZeroSteps(c: Word, k: nat)
    requires k <= 32 && forall i :: 0 <= i < k ==> !c[i]
    ensures BitSteps(c, k) == ShiftRight(c, k)
    decreases k
  {
    if k == 0 {
      assert ShiftRight(c, 0) == c;
    } else {
      ZeroSteps(ShiftRight(c, 1), k - 1);
      assert ShiftRight(ShiftRight(c, 1), k - 1) == ShiftRight(c, k);
    }
  }

  lemma IntendedPass(c: Word, b: Byte)
    ensures Pass(c, b, 8) == BitSteps(Xor(c, ByteBits(b) + Zeros(24)), 8)
  {
    var low, high := Xor(c[..8], ByteBits(b)) + Zeros(24), Zeros(8) + c[8..];
    assert Xor(c, ByteBits(b) + Zeros(24)) == Xor(low, high);
    BitStepsLinear(low, high, 8);
    ZeroSteps(high, 8);
    assert ShiftRight(high, 8) == ShiftRight(c, 8);
  }

  lemma {:induction false} IntendedRegisterIsBitwise(c: Word, data: seq<Byte>)
    ensures IntendedRegister(c, data) == BitwiseRegister(c, data)
  {
    if data != [] {
      var init := data[..|data| - 1];
      IntendedRegisterIsBitwise(c, init);
      IntendedPass(IntendedRegister(c, init), data[|data| - 1]);
    }
  }

  /** With a shift by eight the table-driven loop computes the CRC bit by bit. */
  lemma IntendedIsBitwise(data: seq<Byte>)
    ensures IntendedCrc(data) == BitwiseCrc(data)
  {
    IntendedRegisterIsBitwise(ONES, data);
  }

  // ---------- Where the code meets the intended form ----------

  ghost predicate Agrees(data: seq<Byte>) {
    Crc(data) == BitwiseCrc(data)
  }

  /** What the two registers must satisfy before the last byte. */
  ghost predicate ReadyToAgree(prefix: seq<Byte>) {
    var r, s := Register(ONES, prefix), IntendedRegister(ONES, prefix);
    Xor(ShiftRight(r, 1), ShiftRight(s, 8)) == Entry(Xor(r[..8], s[..8]))
  }

  lemma XorSolve(a: seq<bool>, b: seq<bool>, c: seq<bool>, d: seq<bool>)
    requires |a| == |b| == |c| == |d|
    ensures Xor(a, c) == Xor(b, d) <==> Xor(c, d) == Xor(a, b)
  {
    if Xor(a, c) == Xor(b, d) {
      forall i | 0 <= i < |a| ensures (c[i] != d[i]) == (a[i] != b[i]) {
        assert Xor(a, c)[i] == Xor(b, d)[i];
      }
    }
    if Xor(c, d) == Xor(a, b) {
      forall i | 0 <= i < |a| ensures (a[i] != c[i]) == (b[i] != d[i]) {
        assert Xor(c, d)[i] == Xor(a, b)[i];
      }
    }
  }

  lemma PassesAgree(r: Word, s: Word, b: Byte)
    ensures Pass(r, b, 1) == Pass(s, b, 8)
      <==> Xor(ShiftRight(r, 1), ShiftRight(s, 8)) == Entry(Xor(r[..8], s[..8]))
  {
    var i, j := Xor(r[..8], ByteBits(b)), Xor(s[..8], ByteBits(b));
    XorSolve(Entry(i), Entry(j), ShiftRight(r, 1), ShiftRight(s, 8));
    assert Xor(i, j) == Xor(r[..8], s[..8]);
    EntryLinear(i, j);
  }

  /** Whether code and intended CRC agree on a buffer is decided before its last byte. */
  lemma AgreementIgnoresLastByte(prefix: seq<Byte>, b: Byte)
    ensures Agrees(prefix + [b]) <==> ReadyToAgree(prefix)
  {
    var r, s := Register(ONES, prefix), IntendedRegister(ONES, prefix);
    IntendedIsBitwise(prefix + [b]);
    assert (prefix + [b])[..|prefix|] == prefix;
    XorCancels(Pass(r, b, 1), Pass(s, b, 8), ONES);
    PassesAgree(r, s, b);
  }

  lemma EntryOfZero()
    ensures Entry(Zeros(8)) == Zeros(32)
  {
    assert Zeros(8) + Zeros(24) == Zeros(32);
    ZeroSteps(Zeros(32), 8);
    assert ShiftRight(Zeros(32), 8) == Zeros(32);
  }

  /** The shift by one gives a wrong CRC for every one-byte buffer. */
  lemma OneByteDiffers(b: Byte)
    ensures Crc([b]) != BitwiseCrc([b])
  {
    AgreementIgnoresLastByte([], b);
    assert [] + [b] == [b];
    EntryOfZero();
    assert Xor(ONES[..8], ONES[..8]) == Zeros(8);
    assert Xor(ShiftRight(ONES, 1), ShiftRight(ONES, 8))[24];
  }
}
