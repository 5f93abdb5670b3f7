/** Unsigned integers of a fixed width as their bits, least significant first. */
module Bits {

  type Byte = b: int | 0 <= b < 256

  type Word = w: seq<bool> | |w| == 32 witness Zeros(32)

  function Zeros(n: nat): (z: seq<bool>)
    ensures |z| == n && forall i :: 0 <= i < n ==> !z[i]
  {
    seq(n, _ => false)
  }

  function Ones(n: nat): (z: seq<bool>)
    ensures |z| == n && forall i :: 0 <= i < n ==> z[i]
  {
    seq(n, _ => true)
  }

  function Pow2(n: nat): nat {
    if n == 0 then 1 else 2 * Pow2(n - 1)
  }

  /** The lowest bits of a number. */
  function OfNat(n: nat, width: nat): (b: seq<bool>)
    ensures |b| == width
  {
    if width == 0 then [] else [n % 2 == 1] + OfNat(n / 2, width - 1)
  }

  function Value(b: seq<bool>): (n: nat)
    ensures n < Pow2(|b|)
  {
    if b == [] then 0 else (if b[0] then 1 else 0) + 2 * Value(b[1..])
  }

  lemma {:induction false} ValueOfNat(n: nat, width: nat)
    requires n < Pow2(width)
    ensures Value(OfNat(n, width)) == n
  {
    if width > 0 {
      ValueOfNat(n / 2, width - 1);
      assert OfNat(n, width)[1..] == OfNat(n / 2, width - 1);
    }
  }

  lemma {:induction false} NatOfValue(b: seq<bool>)
    ensures OfNat(Value(b), |b|) == b
  {
    if b != [] {
      NatOfValue(b[1..]);
      assert b == [b[0]] + b[1..];
    }
  }

  lemma ByteWidth()
    ensures Pow2(8) == 256
  {
    assert Pow2(4) == 16;
  }

  function ByteBits(b: Byte): (r: seq<bool>)
    ensures |r| == 8
  {
    OfNat(b, 8)
  }

  function ByteValue(b: seq<bool>): Byte
    requires |b| == 8
  {
    ByteWidth();
    Value(b)
  }

  lemma ByteRoundTrip(n: Byte, b: seq<bool>)
    requires |b| == 8
    ensures ByteValue(ByteBits(n)) == n
    ensures ByteBits(ByteValue(b)) == b
  {
    ByteWidth();
    ValueOfNat(n, 8);
    NatOfValue(b);
  }

  function Xor(a: seq<bool>, b: seq<bool>): (c: seq<bool>)
    requires |a| == |b|
    ensures |c| == |a|
    ensures forall i :: 0 <= i < |a| ==> c[i] == (a[i] != b[i])
  {
    seq(|a|, i requires 0 <= i < |a| => a[i] != b[i])
  }

  /** The unsigned shift to the right. */
  function ShiftRight(c: seq<bool>, k: nat): (r: seq<bool>)
    requires k <= |c|
    ensures |r| == |c|
  {
    c[k..] + Zeros(k)
  }

  lemma ShiftXor(a: seq<bool>, b: seq<bool>, k: nat)
    requires |a| == |b| && k <= |a|
    ensures ShiftRight(Xor(a, b), k) == Xor(ShiftRight(a, k), ShiftRight(b, k))
  {
  }

  lemma XorShuffle(a: seq<bool>, b: seq<bool>, c: seq<bool>, d: seq<bool>)
    requires |a| == |b| == |c| == |d|
    ensures Xor(Xor(a, b), Xor(c, d)) == Xor(Xor(a, c), Xor(b, d))
  {
  }

  lemma XorCancels(a: seq<bool>, b: seq<bool>, c: seq<bool>)
    requires |a| == |b| == |c|
    ensures Xor(a, c) == Xor(b, c) <==> a == b
  {
    if Xor(a, c) == Xor(b, c) {
      forall i | 0 <= i < |a| ensures a[i] == b[i] {
        assert Xor(a, c)[i] == Xor(b, c)[i];
      }
    }
  }
}
