/**
 The last chunk, the same in every PNG, shows the wrong shift: its CRC is not the intended one.
 Bit by bit, a table entry is a parity of its index; with that the registers after the bytes I, E
 and N are computed as far as the comparison needs them.
 */
module CrcOfIend {
  import opened Bits
  import opened Crc32

  // ---------- The bits that the steps leave ----------

  function At(c: Word, i: nat): bool {
    i < 32 && c[i]
  }

  lemma StepAt(c: Word, i: nat)
    ensures At(BitStep(c), i) == (At(c, i + 1) != (c[0] && PolynomialBit(i)))
  {
  }

  /** The register after n steps. */
  function Steps(c: Word, n: nat): Word {
    if n == 0 then c else BitStep(Steps(c, n - 1))
  }

  /** The lowest bits that the first n steps find, each of which decides whether to divide. */
  function Fed(c: Word, n: nat): (f: seq<bool>)
    ensures |f| == n
  {
    if n == 0 then [] else Fed(c, n - 1) + [Steps(c, n - 1)[0]]
  }

  /** What those divisions leave in bit i. */
  function Sum(p: int -> bool, f: seq<bool>, i: nat): bool {
    f != [] && (Sum(p, f[..|f| - 1], i + 1) != (f[|f| - 1] && p(i)))
  }

  lemma {:induction false} StepsFirst(c: Word, n: nat)
    ensures Steps(BitStep(c), n) == Steps(c, n + 1)
  {
    if n > 0 { StepsFirst(c, n - 1); }
  }

  lemma {:induction false} StepsAre(c: Word, n: nat)
    ensures Steps(c, n) == BitSteps(c, n)
    decreases n
  {
    if n > 0 {
      StepsAre(BitStep(c), n - 1);
      StepsFirst(c, n - 1);
    }
  }

  lemma SumNext(p: int -> bool, f: seq<bool>, on: bool, i: nat)
    ensures Sum(p, f + [on], i) == (Sum(p, f, i + 1) != (on && p(i)))
  {
    assert (f + [on])[..|f|] == f;
  }

  lemma StepsAtNext(c: Word, n: nat, i: nat)
    requires n > 0 && At(Steps(c, n - 1), i + 1) == (At(c, i + n) != Sum(PolynomialBit, Fed(c, n - 1), i + 1))
    ensures At(Steps(c, n), i) == (At(c, i + n) != Sum(PolynomialBit, Fed(c, n), i))
  {
    var w := Steps(c, n - 1);
    StepAt(w, i);
    SumNext(PolynomialBit, Fed(c, n - 1), w[0], i);
  }

  lemma StepsAtStart(c: Word, i: nat)
    ensures At(Steps(c, 0), i) == (At(c, i) != Sum(PolynomialBit, Fed(c, 0), i))
  {
  }

  lemma {:induction false} StepsAt(c: Word, n: nat, i: nat)
    ensures At(Steps(c, n), i) == (At(c, i + n) != Sum(PolynomialBit, Fed(c, n), i))
    decreases n
  {
    if n == 0 {
      StepsAtStart(c, i);
    } else {
      StepsAt(c, n - 1, i + 1);
      assert i + 1 + (n - 1) == i + n;
      StepsAtNext(c, n, i);
    }
  }

  lemma SumOne(f: seq<bool>)
    requires |f| <= 1
    ensures !Sum(PolynomialBit, f, 6)
  {
    assert !PolynomialBit(6);
    if f != [] { assert f[..0] == []; }
  }

  /** Of the lower bits of the polynomial only the fifth is set. */
  lemma {:induction false} SumLow(f: seq<bool>, i: nat)
    requires i <= 5 && |f| <= 7 - i
    ensures Sum(PolynomialBit, f, i) == (|f| >= 6 - i && f[|f| - (6 - i)])
    decreases 5 - i
  {
    if f != [] {
      var init := f[..|f| - 1];
      if i < 5 {
        SumLow(init, i + 1);
      } else {
        SumOne(init);
      }
    }
  }

  lemma FedNext(c: Word, m: nat)
    requires m <= 7
    ensures Fed(c, m + 1) == Fed(c, m) + [c[m] != (m >= 6 && Fed(c, m)[m - 6])]
  {
    StepsAt(c, m, 0);
    SumLow(Fed(c, m), 0);
  }

  /** What the eight steps of a table entry find. */
  function Divisions(x: seq<bool>): seq<bool>
    requires |x| == 8
  {
    [x[0], x[1], x[2], x[3], x[4], x[5], x[6] != x[0], x[7] != x[1]]
  }

  lemma {:induction false} FedAt(c: Word, n: nat, m: nat)
    requires m < n <= 8
    ensures Fed(c, n)[m] == (c[m] != (m >= 6 && c[m - 6]))
    decreases n
  {
    if m < n - 1 {
      FedAt(c, n - 1, m);
    } else {
      FedNext(c, m);
      if m >= 6 { FedAt(c, m, m - 6); }
    }
  }

  /** Each bit found is the bit of the register, changed by the sixth before it. */
  ghost predicate Divided(x: seq<bool>, f: seq<bool>) {
    && |f| <= |x|
    && forall m {:trigger f[m]} :: 0 <= m < |f| ==> f[m] == (x[m] != (m >= 6 && x[m - 6]))
  }

  lemma AllFed(c: Word, n: nat)
    requires n <= 8
    ensures Divided(c[..n], Fed(c, n))
  {
    var x, f := c[..n], Fed(c, n);
    forall m {:trigger f[m]} | 0 <= m < n ensures f[m] == (x[m] != (m >= 6 && x[m - 6])) {
      FedAt(c, n, m);
      assert x[m] == c[m] && (m >= 6 ==> x[m - 6] == c[m - 6]);
    }
  }

  lemma DivisionsAre(x: seq<bool>, f: seq<bool>)
    requires |x| == |f| == 8 && Divided(x, f)
    ensures f == Divisions(x)
  {
    assert f == [f[0], f[1], f[2], f[3], f[4], f[5], f[6], f[7]];
  }

  lemma StepsDivide(c: Word, x: seq<bool>, n: nat, i: nat)
    requires |x| == n && 7 < n < 9 && x == c[..n]
    ensures At(Steps(c, n), i) == (At(c, i + n) != Sum(PolynomialBit, Divisions(x), i))
  {
    StepsAt(c, n, i);
    AllFed(c, n);
    DivisionsAre(x, Fed(c, n));
  }

  lemma EntryAt(x: seq<bool>, i: nat)
    requires |x| == 8 && i < 32
    ensures Entry(x)[i] == Sum(PolynomialBit, Divisions(x), i)
  {
    var c: Word := x + Zeros(24);
    assert c[..8] == x;
    StepsDivide(c, x, 8, i);
    StepsAre(c, 8);
  }

  // ---------- A table entry as parities ----------

  lemma SumTake(p: int -> bool, f: seq<bool>, n: nat, i: nat)
    requires 0 < n <= |f|
    ensures Sum(p, f[..n], i) == (Sum(p, f[..n - 1], i + 1) != (f[n - 1] && p(i)))
  {
    assert f[..n][..n - 1] == f[..n - 1];
  }

  lemma SumEight(p: int -> bool, f: seq<bool>, i: nat)
    requires |f| == 8
    ensures Sum(p, f, i) ==
      ((((f[0] && p(i + 7)) != (f[1] && p(i + 6))) != ((f[2] && p(i + 5)) != (f[3] && p(i + 4))))
       != (((f[4] && p(i + 3)) != (f[5] && p(i + 2))) != ((f[6] && p(i + 1)) != (f[7] && p(i)))))
  {
    assert f[..8] == f && f[..0] == [];
    SumTake(p, f, 1, i + 7);
    SumTake(p, f, 2, i + 6);
    SumTake(p, f, 3, i + 5);
    SumTake(p, f, 4, i + 4);
    SumTake(p, f, 5, i + 3);
    SumTake(p, f, 6, i + 2);
    SumTake(p, f, 7, i + 1);
    SumTake(p, f, 8, i);
  }

  /** Bit i of the table entry of x. */
  function Parity(p: int -> bool, x: seq<bool>, i: int): bool
    requires |x| == 8
  {
    ((((x[0] && p(i + 7)) != (x[1] && p(i + 6))) != ((x[2] && p(i + 5)) != (x[3] && p(i + 4))))
     != (((x[4] && p(i + 3)) != (x[5] && p(i + 2))) != (((x[6] != x[0]) && p(i + 1)) != ((x[7] != x[1]) && p(i)))))
  }

  lemma SumIsParity(p: int -> bool, x: seq<bool>, i: nat)
    requires |x| == 8
    ensures Sum(p, Divisions(x), i) == Parity(p, x, i)
  {
    SumEight(p, Divisions(x), i);
  }

  lemma ParityAt(x: seq<bool>, i: nat)
    requires |x| == 8 && i < 32
    ensures Entry(x)[i] == Parity(PolynomialBit, x, i)
  {
    EntryAt(x, i);
    SumIsParity(PolynomialBit, x, i);
  }

  /** The bits of the table entry of x. */
  function EntryBits(x: seq<bool>): int -> bool
    requires |x| == 8
  {
    i => Parity(PolynomialBit, x, i)
  }

  predicate Mixes(g: int -> bool, i: int, from: seq<bool>, to: seq<bool>)
    requires |from| == |to| == 8
  {
    && to[0] == (g(i) != from[0]) && to[1] == (g(i + 1) != from[1])
    && to[2] == (g(i + 2) != from[2]) && to[3] == (g(i + 3) != from[3])
    && to[4] == (g(i + 4) != from[4]) && to[5] == (g(i + 5) != from[5])
    && to[6] == (g(i + 6) != from[6]) && to[7] == (g(i + 7) != from[7])
  }

  lemma MixesAt(g: int -> bool, i: int, from: seq<bool>, to: seq<bool>, k: nat)
    requires |from| == |to| == 8 && Mixes(g, i, from, to) && k < 8
    ensures to[k] == (g(i + k) != from[k])
  {
    assert k in {0, 1, 2, 3, 4, 5, 6, 7};
  }

  /** Eight bits of the register after a byte, from the eight bits that are shifted there. */
  lemma Advance(c: Word, b: Byte, shift: nat, x: seq<bool>, i: nat, from: seq<bool>, to: seq<bool>)
    requires |x| == 8 && x == Xor(c[..8], ByteBits(b)) && i + shift <= 24
    requires |from| == |to| == 8 && c[i + shift..i + shift + 8] == from
    requires Mixes(EntryBits(x), i, from, to)
    ensures Pass(c, b, shift)[i..i + 8] == to
  {
    var r := Pass(c, b, shift)[i..i + 8];
    forall k | 0 <= k < 8 ensures r[k] == to[k] {
      AdvanceAt(c, b, shift, x, i, from, k);
      MixesAt(EntryBits(x), i, from, to, k);
    }
  }

  lemma AdvanceAt(c: Word, b: Byte, shift: nat, x: seq<bool>, i: nat, from: seq<bool>, k: nat)
    requires |x| == 8 && x == Xor(c[..8], ByteBits(b)) && i + shift <= 24
    requires |from| == 8 && c[i + shift..i + shift + 8] == from && k < 8
    ensures Pass(c, b, shift)[i + k] == (EntryBits(x)(i + k) != from[k])
  {
    ParityAt(x, i + k);
    assert from[k] == c[i + shift + k];
  }

  lemma XorIs(a: seq<bool>, b: seq<bool>, c: seq<bool>)
    requires |a| == |b| == |c| == 8
    requires c[0] == (a[0] != b[0]) && c[1] == (a[1] != b[1]) && c[2] == (a[2] != b[2]) && c[3] == (a[3] != b[3])
    requires c[4] == (a[4] != b[4]) && c[5] == (a[5] != b[5]) && c[6] == (a[6] != b[6]) && c[7] == (a[7] != b[7])
    ensures Xor(a, b) == c
  {
    forall k | 0 <= k < 8 ensures Xor(a, b)[k] == c[k] {
      assert k in {0, 1, 2, 3, 4, 5, 6, 7};
    }
  }

  // ---------- The bytes before the last ----------

  /** One and zero, least significant first. */
  const I := true
  const O := false

  /** From bit k on, the bits of x are those of n. */
  predicate Reads(n: nat, x: seq<bool>, k: nat)
    decreases |x| - k
  {
    k >= |x| || ((n % 2 == 1) == x[k] && Reads(n / 2, x, k + 1))
  }

  lemma {:induction false} ReadsBits(n: nat, x: seq<bool>, k: nat)
    requires k <= |x| && Reads(n, x, k)
    ensures OfNat(n, |x| - k) == x[k..]
    decreases |x| - k
  {
    if k < |x| {
      ReadsBits(n / 2, x, k + 1);
      OfNatHead(n, |x| - k);
      assert x[k..] == [x[k]] + x[k + 1..];
    }
  }

  lemma BitsOfI()
    ensures ByteBits(0x49) == [I, O, O, I, O, O, I, O]
  {
    var x := [I, O, O, I, O, O, I, O];
    assert Reads(0, x, 7) && Reads(1, x, 6) && Reads(2, x, 5) && Reads(4, x, 4);
    assert Reads(9, x, 3) && Reads(18, x, 2) && Reads(36, x, 1);
    ReadsBits(0x49, x, 0);
  }

  lemma BitsOfE()
    ensures ByteBits(0x45) == [I, O, I, O, O, O, I, O]
  {
    var x := [I, O, I, O, O, O, I, O];
    assert Reads(0, x, 7) && Reads(1, x, 6) && Reads(2, x, 5) && Reads(4, x, 4);
    assert Reads(8, x, 3) && Reads(17, x, 2) && Reads(34, x, 1);
    ReadsBits(0x45, x, 0);
  }

  lemma BitsOfN()
    ensures ByteBits(0x4E) == [O, I, I, I, O, O, I, O]
  {
    var x := [O, I, I, I, O, O, I, O];
    assert Reads(0, x, 7) && Reads(1, x, 6) && Reads(2, x, 5) && Reads(4, x, 4);
    assert Reads(9, x, 3) && Reads(19, x, 2) && Reads(39, x, 1);
    ReadsBits(0x4E, x, 0);
  }

  ghost predicate AllSet(c: Word) {
    forall k :: 0 <= k < 32 ==> c[k]
  }

  lemma IndexI(c: Word, b: Byte)
    requires AllSet(c) && ByteBits(b) == [I, O, O, I, O, O, I, O]
    ensures Xor(c[..8], ByteBits(b)) == [O, I, I, O, I, I, O, I]
  {
    XorIs(c[..8], [I, O, O, I, O, O, I, O], [O, I, I, O, I, I, O, I]);
  }

  lemma AdvanceOnes(c: Word, b: Byte, shift: nat, x: seq<bool>, i: nat, to: seq<bool>)
    requires AllSet(c) && |x| == 8 && x == Xor(c[..8], ByteBits(b)) && i + shift <= 24
    requires |to| == 8 && Mixes(EntryBits(x), i, [I, I, I, I, I, I, I, I], to)
    ensures Pass(c, b, shift)[i..i + 8] == to
  {
    SliceOfOnes(c, i + shift);
    Advance(c, b, shift, x, i, [I, I, I, I, I, I, I, I], to);
  }

  lemma SliceOfOnes(c: Word, k: nat)
    requires AllSet(c) && k <= 24
    ensures c[k..k + 8] == [I, I, I, I, I, I, I, I]
  {
    var o := c[k..k + 8];
    assert o[0] == c[k] && o[1] == c[k + 1] && o[2] == c[k + 2] && o[3] == c[k + 3];
    assert o[4] == c[k + 4] && o[5] == c[k + 5] && o[6] == c[k + 6] && o[7] == c[k + 7];
  }

  lemma LowI(c: Word, b: Byte, shift: nat)
    requires AllSet(c) && ByteBits(b) == [I, O, O, I, O, O, I, O] && shift <= 8
    ensures Pass(c, b, shift)[0..8] == [O, I, I, O, O, O, I, O]
  {
    IndexI(c, b);
    AdvanceOnes(c, b, shift, [O, I, I, O, I, I, O, I], 0, [O, I, I, O, O, O, I, O]);
  }

  lemma MiddleI(c: Word, b: Byte, shift: nat)
    requires AllSet(c) && ByteBits(b) == [I, O, O, I, O, O, I, O] && shift <= 8
    ensures Pass(c, b, shift)[8..16] == [I, O, O, I, O, I, I, I]
  {
    IndexI(c, b);
    AdvanceOnes(c, b, shift, [O, I, I, O, I, I, O, I], 8, [I, O, O, I, O, I, I, I]);
  }

  lemma HighI(c: Word, b: Byte, shift: nat)
    requires AllSet(c) && ByteBits(b) == [I, O, O, I, O, O, I, O] && shift <= 8
    ensures Pass(c, b, shift)[16..24] == [I, O, I, I, I, I, I, I]
  {
    IndexI(c, b);
    AdvanceOnes(c, b, shift, [O, I, I, O, I, I, O, I], 16, [I, O, I, I, I, I, I, I]);
  }

  lemma IndexE(c: Word, b: Byte)
    requires c[0..8] == [O, I, I, O, O, O, I, O] && ByteBits(b) == [I, O, I, O, O, O, I, O]
    ensures Xor(c[..8], ByteBits(b)) == [I, I, O, O, O, O, O, O]
  {
    assert c[..8] == c[0..8];
    XorIs([O, I, I, O, O, O, I, O], [I, O, I, O, O, O, I, O], [I, I, O, O, O, O, O, O]);
  }

  lemma LowE(c: Word, b: Byte)
    requires c[0..8] == [O, I, I, O, O, O, I, O]
    requires c[1..9] == [I, I, O, O, O, I, O, I]
    requires ByteBits(b) == [I, O, I, O, O, O, I, O]
    ensures Pass(c, b, 1)[0..8] == [I, O, O, I, I, O, O, O]
  {
    IndexE(c, b);
    Advance(c, b, 1, [I, I, O, O, O, O, O, O], 0, [I, I, O, O, O, I, O, I], [I, O, O, I, I, O, O, O]);
  }

  lemma MiddleE(c: Word, b: Byte)
    requires c[0..8] == [O, I, I, O, O, O, I, O]
    requires c[9..17] == [O, O, I, O, I, I, I, I]
    requires ByteBits(b) == [I, O, I, O, O, O, I, O]
    ensures Pass(c, b, 1)[8..16] == [I, O, I, O, O, I, O, I]
  {
    IndexE(c, b);
    Advance(c, b, 1, [I, I, O, O, O, O, O, O], 8, [O, O, I, O, I, I, I, I], [I, O, I, O, O, I, O, I]);
  }

  lemma IntendedLowE(c: Word, b: Byte)
    requires c[0..8] == [O, I, I, O, O, O, I, O]
    requires c[8..16] == [I, O, O, I, O, I, I, I]
    requires ByteBits(b) == [I, O, I, O, O, O, I, O]
    ensures Pass(c, b, 8)[0..8] == [I, I, O, O, I, O, I, O]
  {
    IndexE(c, b);
    Advance(c, b, 8, [I, I, O, O, O, O, O, O], 0, [I, O, O, I, O, I, I, I], [I, I, O, O, I, O, I, O]);
  }

  lemma IntendedMiddleE(c: Word, b: Byte)
    requires c[0..8] == [O, I, I, O, O, O, I, O]
    requires c[16..24] == [I, O, I, I, I, I, I, I]
    requires ByteBits(b) == [I, O, I, O, O, O, I, O]
    ensures Pass(c, b, 8)[8..16] == [O, O, I, I, O, I, O, I]
  {
    IndexE(c, b);
    Advance(c, b, 8, [I, I, O, O, O, O, O, O], 8, [I, O, I, I, I, I, I, I], [O, O, I, I, O, I, O, I]);
  }

  lemma IndexN(c: Word, b: Byte)
    requires c[0..8] == [I, O, O, I, I, O, O, O] && ByteBits(b) == [O, I, I, I, O, O, I, O]
    ensures Xor(c[..8], ByteBits(b)) == [I, I, I, O, I, O, I, O]
  {
    assert c[..8] == c[0..8];
    XorIs([I, O, O, I, I, O, O, O], [O, I, I, I, O, O, I, O], [I, I, I, O, I, O, I, O]);
  }

  lemma LowN(c: Word, b: Byte)
    requires c[0..8] == [I, O, O, I, I, O, O, O]
    requires c[1..9] == [O, O, I, I, O, O, O, I]
    requires ByteBits(b) == [O, I, I, I, O, O, I, O]
    ensures Pass(c, b, 1)[0..8] == [I, I, O, I, I, O, I, I]
  {
    IndexN(c, b);
    Advance(c, b, 1, [I, I, I, O, I, O, I, O], 0, [O, O, I, I, O, O, O, I], [I, I, O, I, I, O, I, I]);
  }

  lemma LastAt(c: Word, b: Byte, x: seq<bool>)
    requires |x| == 8 && x == Xor(c[..8], ByteBits(b))
    ensures Pass(c, b, 1)[31] == Parity(PolynomialBit, x, 31)
  {
    ParityAt(x, 31);
  }

  lemma LastN(c: Word, b: Byte)
    requires c[0..8] == [I, O, O, I, I, O, O, O] && ByteBits(b) == [O, I, I, I, O, O, I, O]
    ensures Pass(c, b, 1)[31]
  {
    var x := [I, I, I, O, I, O, I, O];
    IndexN(c, b);
    LastAt(c, b, x);
    assert x[7] != x[1];
  }

  lemma IntendedLowN(c: Word, b: Byte)
    requires c[0..8] == [I, I, O, O, I, O, I, O]
    requires c[8..16] == [O, O, I, I, O, I, O, I]
    requires ByteBits(b) == [O, I, I, I, O, O, I, O]
    ensures Pass(c, b, 8)[0..8] == [I, O, I, O, I, I, I, O]
  {
    assert c[..8] == c[0..8];
    XorIs([I, I, O, O, I, O, I, O], [O, I, I, I, O, O, I, O], [I, O, I, I, I, O, O, O]);
    Advance(c, b, 8, [I, O, I, I, I, O, O, O], 0, [O, O, I, I, O, I, O, I], [I, O, I, O, I, I, I, O]);
  }

  /** Bits that straddle two octets. */
  lemma Straddle(c: Word, k: nat, low: seq<bool>, high: seq<bool>)
    requires k <= 16 && c[k..k + 8] == low && c[k + 8..k + 16] == high
    ensures c[k + 1..k + 9] == [low[1], low[2], low[3], low[4], low[5], low[6], low[7], high[0]]
  {
    assert low[1] == c[k + 1] && low[2] == c[k + 2] && low[3] == c[k + 3] && low[4] == c[k + 4];
    assert low[5] == c[k + 5] && low[6] == c[k + 6] && low[7] == c[k + 7] && high[0] == c[k + 8];
  }

  lemma ShiftedI(c: Word, i: Byte)
    requires AllSet(c) && ByteBits(i) == [I, O, O, I, O, O, I, O]
    ensures Pass(c, i, 1)[1..9] == [I, I, O, O, O, I, O, I]
  {
    LowI(c, i, 1);
    MiddleI(c, i, 1);
    StraddleLow(Pass(c, i, 1));
  }

  lemma StraddleLow(w: Word)
    requires w[0..8] == [O, I, I, O, O, O, I, O] && w[8..16] == [I, O, O, I, O, I, I, I]
    ensures w[1..9] == [I, I, O, O, O, I, O, I]
  {
    Straddle(w, 0, [O, I, I, O, O, O, I, O], [I, O, O, I, O, I, I, I]);
  }

  lemma StraddleHigh(w: Word)
    requires w[8..16] == [I, O, O, I, O, I, I, I] && w[16..24] == [I, O, I, I, I, I, I, I]
    ensures w[9..17] == [O, O, I, O, I, I, I, I]
  {
    Straddle(w, 8, [I, O, O, I, O, I, I, I], [I, O, I, I, I, I, I, I]);
  }

  lemma ShiftedHighI(c: Word, i: Byte)
    requires AllSet(c) && ByteBits(i) == [I, O, O, I, O, O, I, O]
    ensures Pass(c, i, 1)[9..17] == [O, O, I, O, I, I, I, I]
  {
    MiddleI(c, i, 1);
    HighI(c, i, 1);
    StraddleHigh(Pass(c, i, 1));
  }

  lemma AfterI(c: Word, i: Byte, c1: Word)
    requires AllSet(c) && ByteBits(i) == [I, O, O, I, O, O, I, O] && c1 == Pass(c, i, 1)
    ensures c1[0..8] == [O, I, I, O, O, O, I, O]
    ensures c1[1..9] == [I, I, O, O, O, I, O, I]
    ensures c1[9..17] == [O, O, I, O, I, I, I, I]
  {
    LowI(c, i, 1);
    ShiftedI(c, i);
    ShiftedHighI(c, i);
  }

  lemma ShiftedE(c2: Word)
    requires c2[0..8] == [I, O, O, I, I, O, O, O] && c2[8..16] == [I, O, I, O, O, I, O, I]
    ensures c2[1..9] == [O, O, I, I, O, O, O, I]
  {
    Straddle(c2, 0, [I, O, O, I, I, O, O, O], [I, O, I, O, O, I, O, I]);
  }

  lemma AfterE(c1: Word, e: Byte, c2: Word)
    requires c1[0..8] == [O, I, I, O, O, O, I, O]
    requires c1[1..9] == [I, I, O, O, O, I, O, I]
    requires c1[9..17] == [O, O, I, O, I, I, I, I]
    requires ByteBits(e) == [I, O, I, O, O, O, I, O] && c2 == Pass(c1, e, 1)
    ensures c2[0..8] == [I, O, O, I, I, O, O, O] && c2[1..9] == [O, O, I, I, O, O, O, I]
  {
    LowE(c1, e);
    MiddleE(c1, e);
    ShiftedE(c2);
  }

  lemma IntendedAfterE(c: Word, i: Byte, e: Byte)
    requires AllSet(c) && ByteBits(i) == [I, O, O, I, O, O, I, O] && ByteBits(e) == [I, O, I, O, O, O, I, O]
    ensures Pass(Pass(c, i, 8), e, 8)[0..8] == [I, I, O, O, I, O, I, O]
    ensures Pass(Pass(c, i, 8), e, 8)[8..16] == [O, O, I, I, O, I, O, I]
  {
    LowI(c, i, 8);
    MiddleI(c, i, 8);
    HighI(c, i, 8);
    IntendedLowE(Pass(c, i, 8), e);
    IntendedMiddleE(Pass(c, i, 8), e);
  }

  lemma LowXor(r: Word, s: Word)
    requires r[0..8] == [I, I, O, I, I, O, I, I] && s[0..8] == [I, O, I, O, I, I, I, O]
    ensures Xor(r[..8], s[..8]) == [O, I, I, I, O, I, O, I]
  {
    assert r[..8] == r[0..8] && s[..8] == s[0..8];
    XorIs(r[..8], s[..8], [O, I, I, I, O, I, O, I]);
  }

  /** The registers after the first three bytes differ where the last byte cannot mend it. */
  lemma Apart(r: Word, s: Word)
    requires r[0..8] == [I, I, O, I, I, O, I, I] && r[31]
    requires s[0..8] == [I, O, I, O, I, I, I, O]
    ensures Xor(ShiftRight(r, 1), ShiftRight(s, 8)) != Entry(Xor(r[..8], s[..8]))
  {
    LowXor(r, s);
    NoThirtieth(Xor(r[..8], s[..8]));
    ParityAt(Xor(r[..8], s[..8]), 30);
    assert Xor(ShiftRight(r, 1), ShiftRight(s, 8))[30];
  }

  lemma NoThirtieth(x: seq<bool>)
    requires x == [O, I, I, I, O, I, O, I]
    ensures !Parity(PolynomialBit, x, 30)
  {
  }

  lemma OnePass(c: Word, data: seq<Byte>, b: Byte)
    ensures Register(c, data + [b]) == Pass(Register(c, data), b, 1)
    ensures IntendedRegister(c, data + [b]) == Pass(IntendedRegister(c, data), b, 8)
  {
    assert (data + [b])[..|data|] == data;
  }

  lemma ThreePasses(c: Word, i: Byte, e: Byte, n: Byte)
    ensures Register(c, [] + [i] + [e] + [n]) == Pass(Pass(Pass(c, i, 1), e, 1), n, 1)
    ensures IntendedRegister(c, [] + [i] + [e] + [n]) == Pass(Pass(Pass(c, i, 8), e, 8), n, 8)
  {
    OnePass(c, [], i);
    OnePass(c, [] + [i], e);
    OnePass(c, [] + [i] + [e], n);
  }

  lemma RegistersOf(c: Word, i: Byte, e: Byte, n: Byte)
    ensures Register(c, [i, e, n]) == Pass(Pass(Pass(c, i, 1), e, 1), n, 1)
    ensures IntendedRegister(c, [i, e, n]) == Pass(Pass(Pass(c, i, 8), e, 8), n, 8)
  {
    ThreePasses(c, i, e, n);
    OneByOne(i, e, n);
  }

  lemma OneByOne<T>(a: T, b: T, c: T)
    ensures [] + [a] + [b] + [c] == [a, b, c]
  {
  }

  lemma IenNotReady(i: Byte, e: Byte, n: Byte)
    requires ByteBits(i) == [I, O, O, I, O, O, I, O]
    requires ByteBits(e) == [I, O, I, O, O, O, I, O]
    requires ByteBits(n) == [O, I, I, I, O, O, I, O]
    ensures !ReadyToAgree([i, e, n])
  {
    var c: Word := ONES;
    var r2, s2 := Pass(Pass(c, i, 1), e, 1), Pass(Pass(c, i, 8), e, 8);
    AfterI(c, i, Pass(c, i, 1));
    AfterE(Pass(c, i, 1), e, r2);
    IntendedAfterE(c, i, e);
    LowN(r2, n);
    LastN(r2, n);
    IntendedLowN(s2, n);
    Apart(Pass(r2, n, 1), Pass(s2, n, 8));
    RegistersOf(c, i, e, n);
  }

  /** Every body that starts with IEN, whatever follows in the fourth byte, gets a wrong CRC. */
  lemma IendDiffers(body: seq<Byte>)
    requires |body| == 4 && body[0] == 0x49 && body[1] == 0x45 && body[2] == 0x4E
    ensures !Agrees(body)
  {
    BitsOfI();
    BitsOfE();
    BitsOfN();
    IenDiffers(body[0], body[1], body[2], body[3]);
    FourBytes(body);
  }

  lemma IenDiffers(i: Byte, e: Byte, n: Byte, last: Byte)
    requires ByteBits(i) == [I, O, O, I, O, O, I, O]
    requires ByteBits(e) == [I, O, I, O, O, O, I, O]
    requires ByteBits(n) == [O, I, I, I, O, O, I, O]
    ensures !Agrees([i, e, n] + [last])
  {
    IenNotReady(i, e, n);
    AgreementIgnoresLastByte([i, e, n], last);
  }

  lemma FourBytes(body: seq<Byte>)
    requires |body| == 4
    ensures body == [body[0], body[1], body[2]] + [body[3]]
  {
  }
}
