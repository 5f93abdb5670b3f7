/** Base64 with the standard alphabet and padding, as in section 4 of RFC 4648. */
module Base64 {
  import opened Bits
  import opened Buffers
  import opened Sequences
  import opened Utf16

  type Sextet = s: int | 0 <= s < 64

  const PAD: CodeUnit := 0x3D
  const HYPHEN: CodeUnit := 0x2D
  const UNDERSCORE: CodeUnit := 0x5F

  function Symbol(s: Sextet): CodeUnit {
    if s < 26 then 0x41 + s
    else if s < 52 then 0x61 + (s - 26)
    else if s < 62 then 0x30 + (s - 52)
    else if s == 62 then 0x2B
    else 0x2F
  }

  /** The four groups of six bits in three bytes. */
  function First(x: Byte): Sextet {
    x / 4
  }

  function Second(x: Byte, y: Byte): Sextet {
    x % 4 * 16 + y / 16
  }

  function Third(y: Byte, z: Byte): Sextet {
    y % 16 * 4 + z / 64
  }

  function Fourth(z: Byte): Sextet {
    z % 64
  }

  function Symbols(s: seq<Sextet>): Text {
    if s == [] then [] else [Symbol(s[0])] + Symbols(s[1..])
  }

  function Encode(b: Bytes): Text {
    if b == [] then []
    else if |b| == 1 then Symbols([First(b[0]), Second(b[0], 0)]) + [PAD, PAD]
    else if |b| == 2 then Symbols([First(b[0]), Second(b[0], b[1]), Third(b[1], 0)]) + [PAD]
    else Symbols([First(b[0]), Second(b[0], b[1]), Third(b[1], b[2]), Fourth(b[2])]) + Encode(b[3..])
  }

  /** The value of a symbol; the URL-safe symbols count too, and anything else is -1. */
  function SymbolValue(u: CodeUnit): (v: int)
    ensures -1 <= v < 64
  {
    if 0x41 <= u <= 0x5A then u - 0x41
    else if 0x61 <= u <= 0x7A then u as int - 0x61 + 26
    else if 0x30 <= u <= 0x39 then u as int - 0x30 + 52
    else if u == 0x2B || u == 0x2D then 62
    else if u == 0x2F || u == 0x5F then 63
    else -1
  }

  /** The symbols up to the first padding; other units are skipped. */
  function Sextets(t: Text): seq<Sextet> {
    if t == [] || t[0] == PAD then []
    else if SymbolValue(t[0]) >= 0 then [SymbolValue(t[0])] + Sextets(t[1..])
    else Sextets(t[1..])
  }

  /** The three bytes in four groups of six bits. */
  function High(a: Sextet, b: Sextet): Byte {
    (a as int * 4 + b / 16) as Byte
  }

  function Middle(b: Sextet, c: Sextet): Byte {
    (b as int % 16 * 16 + c / 4) as Byte
  }

  function Low(c: Sextet, d: Sextet): Byte {
    (c as int % 4 * 64 + d) as Byte
  }

  function Join(s: seq<Sextet>): Bytes {
    if |s| < 2 then []
    else if |s| == 2 then [High(s[0], s[1])]
    else if |s| == 3 then [High(s[0], s[1]), Middle(s[1], s[2])]
    else [High(s[0], s[1]), Middle(s[1], s[2]), Low(s[2], s[3])] + Join(s[4..])
  }

  /** Decoding never fails: it reads what it can. */
  function Decode(t: Text): Bytes {
    Join(Sextets(t))
  }

  /** The table of section 4 of RFC 4648: letters, small letters, digits, '+' and '/'. */
  lemma Alphabet(s: Sextet)
    ensures s < 26 ==> CharUnit('A') <= Symbol(s) == CharUnit('A') + s <= CharUnit('Z')
    ensures 26 <= s < 52 ==> CharUnit('a') <= Symbol(s) == CharUnit('a') + (s - 26) <= CharUnit('z')
    ensures 52 <= s < 62 ==> CharUnit('0') <= Symbol(s) == CharUnit('0') + (s - 52) <= CharUnit('9')
    ensures Symbol(62) == CharUnit('+') && Symbol(63) == CharUnit('/')
  {
  }

  /** The value of four symbols, the first the most significant, is that of the three bytes. */
  lemma GroupValue(x: Byte, y: Byte, z: Byte)
    ensures First(x) * 262144 + Second(x, y) * 4096 + Third(y, z) * 64 + Fourth(z) == x * 65536 + y * 256 + z
  {
  }

  /** Every symbol has its value, the two URL-safe ones those of '+' and '/', and no other unit has one. */
  lemma ValuesMean(u: CodeUnit)
    ensures SymbolValue(u) >= 0 ==>
      || u == Symbol(SymbolValue(u))
      || (u == CharUnit('-') && SymbolValue(u) == 62)
      || (u == CharUnit('_') && SymbolValue(u) == 63)
    ensures u == CharUnit('-') || u == CharUnit('_') ==> SymbolValue(u) >= 0
  {
  }

  /** One or two bytes are encoded with zero bits behind them, three as they are, and then the rest. */
  lemma EncodeMeans(b: Bytes) returns (s: seq<Sextet>)
    requires b != []
    ensures |s| == (if |b| < 3 then |b| + 1 else 4)
    ensures Encode(b) == Symbols(s) + if |b| == 1 then [PAD, PAD] else if |b| == 2 then [PAD] else Encode(b[3..])
    ensures |b| == 1 ==> s[0] as int * 64 + s[1] as int == b[0] as int * 16
    ensures |b| == 2 ==>
      s[0] as int * 4096 + s[1] as int * 64 + s[2] as int == b[0] as int * 1024 + b[1] as int * 4
    ensures |b| > 2 ==>
      s[0] as int * 262144 + s[1] as int * 4096 + s[2] as int * 64 + s[3] as int
      == b[0] as int * 65536 + b[1] as int * 256 + b[2] as int
  {
    if |b| == 1 {
      s := [First(b[0]), Second(b[0], 0)];
    } else if |b| == 2 {
      s := [First(b[0]), Second(b[0], b[1]), Third(b[1], 0)];
    } else {
      s := [First(b[0]), Second(b[0], b[1]), Third(b[1], b[2]), Fourth(b[2])];
      GroupValue(b[0], b[1], b[2]);
    }
  }

  lemma SymbolRoundTrip(s: Sextet)
    ensures SymbolValue(Symbol(s)) == s && Symbol(s) != PAD
  {
  }

  lemma NextSextet(s: Sextet, rest: Text)
    ensures Sextets([Symbol(s)] + rest) == [s] + Sextets(rest)
  {
    SymbolRoundTrip(s);
    assert ([Symbol(s)] + rest)[1..] == rest;
  }

  lemma Peel<T>(s: seq<T>, rest: seq<T>)
    requires s != []
    ensures [s[0]] + (s[1..] + rest) == s + rest
  {
  }

  lemma {:induction false} SextetsOfSymbols(s: seq<Sextet>, rest: Text)
    ensures Sextets(Symbols(s) + rest) == s + Sextets(rest)
  {
    if s == [] {
      assert Symbols(s) + rest == rest;
    } else {
      SextetsOfSymbols(s[1..], rest);
      NextSextet(s[0], Symbols(s[1..]) + rest);
      Peel(Symbols(s), rest);
      assert Symbols(s)[1..] == Symbols(s[1..]);
      Peel(s, Sextets(rest));
    }
  }

  lemma NoSextets()
    ensures Sextets([PAD]) == Sextets([PAD, PAD]) == []
  {
  }

  lemma Regroup(x: Byte, y: Byte, z: Byte)
    ensures High(First(x), Second(x, y)) == x
    ensures Middle(Second(x, y), Third(y, z)) == y
    ensures Low(Third(y, z), Fourth(z)) == z
  {
  }

  lemma JoinFour(a: Sextet, b: Sextet, c: Sextet, d: Sextet, rest: seq<Sextet>)
    ensures Join([a, b, c, d] + rest) == [High(a, b), Middle(b, c), Low(c, d)] + Join(rest)
  {
    var s := [a, b, c, d] + rest;
    assert s[4..] == rest;
    assert s[0] == a && s[1] == b && s[2] == c && s[3] == d;
  }

  lemma JoinFew(a: Sextet, b: Sextet, c: Sextet)
    ensures Join([a, b]) == [High(a, b)]
    ensures Join([a, b, c]) == [High(a, b), Middle(b, c)]
  {
  }

  lemma OneLeft(x: Byte)
    ensures Decode(Symbols([First(x), Second(x, 0)]) + [PAD, PAD]) == [x]
  {
    var s := [First(x), Second(x, 0)];
    SextetsOfSymbols(s, [PAD, PAD]);
    NoSextets();
    assert s + [] == s;
    JoinFew(s[0], s[1], 0);
    Regroup(x, 0, 0);
  }

  lemma TwoLeft(x: Byte, y: Byte)
    ensures Decode(Symbols([First(x), Second(x, y), Third(y, 0)]) + [PAD]) == [x, y]
  {
    var s := [First(x), Second(x, y), Third(y, 0)];
    SextetsOfSymbols(s, [PAD]);
    NoSextets();
    assert s + [] == s;
    JoinFew(s[0], s[1], s[2]);
    Regroup(x, y, 0);
  }

  /** Decoding undoes encoding. */
  lemma {:induction false} RoundTrip(b: Bytes)
    ensures Decode(Encode(b)) == b
  {
    if |b| == 1 {
      OneLeft(b[0]);
    } else if |b| == 2 {
      TwoLeft(b[0], b[1]);
    } else if |b| >= 3 {
      var x, y, z, rest := b[0], b[1], b[2], b[3..];
      RoundTrip(rest);
      SextetsOfSymbols([First(x), Second(x, y), Third(y, z), Fourth(z)], Encode(rest));
      JoinFour(First(x), Second(x, y), Third(y, z), Fourth(z), Sextets(Encode(rest)));
      Regroup(x, y, z);
      assert b == [x, y, z] + rest;
    }
  }

  /** The alphabet and the padding. */
  predicate IsSymbol(u: CodeUnit) {
    || u == PAD
    || (SymbolValue(u) >= 0 && u != HYPHEN && u != UNDERSCORE)
  }

  lemma {:induction false} SymbolsAreSymbols(s: seq<Sextet>)
    ensures forall i :: 0 <= i < |Symbols(s)| ==> IsSymbol(Symbols(s)[i])
  {
    if s != [] {
      SymbolRoundTrip(s[0]);
      SymbolsAreSymbols(s[1..]);
    }
  }

  lemma {:induction false} OnlySymbols(b: Bytes)
    ensures forall i :: 0 <= i < |Encode(b)| ==> IsSymbol(Encode(b)[i])
  {
    if |b| == 1 {
      SymbolsAreSymbols([First(b[0]), Second(b[0], 0)]);
    } else if |b| == 2 {
      SymbolsAreSymbols([First(b[0]), Second(b[0], b[1]), Third(b[1], 0)]);
    } else if |b| >= 3 {
      SymbolsAreSymbols([First(b[0]), Second(b[0], b[1]), Third(b[1], b[2]), Fourth(b[2])]);
      OnlySymbols(b[3..]);
    }
  }

  // ---------- Texts that run together ----------

  /** Decoding finds nothing in the text, not even padding. */
  predicate Silent(t: Text) {
    forall i :: 0 <= i < |t| ==> SymbolValue(t[i]) < 0 && t[i] != PAD
  }

  /** Padding hides what follows; without it the symbols add up. */
  lemma {:induction false} SextetsConcat(t: Text, u: Text)
    ensures Sextets(t + u) == if PAD in t then Sextets(t) else Sextets(t) + Sextets(u)
    decreases |t|
  {
    if t == [] {
      assert t + u == u;
    } else {
      assert (t + u)[1..] == t[1..] + u;
      assert PAD in t <==> t[0] == PAD || PAD in t[1..];
      SextetsConcat(t[1..], u);
    }
  }

  lemma {:induction false} SilentExactlyWhen(t: Text)
    ensures Silent(t) <==> PAD !in t && Sextets(t) == []
  {
    if t != [] {
      SilentExactlyWhen(t[1..]);
      assert t == [t[0]] + t[1..];
      assert PAD in t <==> t[0] == PAD || PAD in t[1..];
      assert Silent(t) <==> SymbolValue(t[0]) < 0 && t[0] != PAD && Silent(t[1..]);
    }
  }

  lemma SilentBefore(t: Text, u: Text)
    requires Silent(t)
    ensures Sextets(t + u) == Sextets(u) && (PAD in t + u <==> PAD in u)
  {
    SilentExactlyWhen(t);
    SextetsConcat(t, u);
    InConcat(t, u, PAD);
    assert [] + Sextets(u) == Sextets(u);
  }

  lemma SilentAfter(t: Text, u: Text)
    requires Silent(u)
    ensures Sextets(t + u) == Sextets(t) && (PAD in t + u <==> PAD in t)
  {
    SilentExactlyWhen(u);
    SextetsConcat(t, u);
    InConcat(t, u, PAD);
    assert Sextets(t) + [] == Sextets(t);
  }

  /** The padding is exactly the last units. */
  predicate PadsLast(t: Text, pads: nat) {
    forall i :: 0 <= i < |t| ==> (t[i] == PAD <==> i >= |t| - pads)
  }

  /** Fours, and padding exactly at the end, for so many bytes. */
  predicate InFours(t: Text, bytes: nat) {
    |t| == (bytes + 2) / 3 * 4 && PadsLast(t, (3 - bytes % 3) % 3)
  }

  lemma FewInFours(s: seq<Sextet>, bytes: nat)
    requires 0 < bytes < 3 && |s| == bytes + 1
    ensures InFours(Symbols(s) + if bytes == 1 then [PAD, PAD] else [PAD], bytes)
  {
    PadsBehind(s, if bytes == 1 then [PAD, PAD] else [PAD], 3 - bytes);
  }

  lemma FourMore(s: seq<Sextet>, t: Text, bytes: nat)
    requires |s| == 4 && InFours(t, bytes)
    ensures InFours(Symbols(s) + t, bytes + 3)
  {
    assert (bytes + 3) % 3 == bytes % 3 && (bytes + 5) / 3 == (bytes + 2) / 3 + 1;
    PadsBehind(s, t, (3 - bytes % 3) % 3);
  }

  /** Encoded texts come in fours; what their bytes lack to threes is padded. */
  lemma {:induction false} EncodedInFours(b: Bytes)
    ensures InFours(Encode(b), |b|)
  {
    if b != [] {
      var s := EncodeMeans(b);
      if |b| < 3 {
        FewInFours(s, |b|);
      } else {
        EncodedInFours(b[3..]);
        FourMore(s, Encode(b[3..]), |b| - 3);
      }
    }
  }

  lemma PadsBehind(s: seq<Sextet>, t: Text, pads: nat)
    requires PadsLast(t, pads) && pads <= |t|
    ensures |Symbols(s) + t| == |s| + |t| && PadsLast(Symbols(s) + t, pads)
  {
    SymbolsPlain(s);
  }

  lemma {:induction false} SymbolsPlain(s: seq<Sextet>)
    ensures |Symbols(s)| == |s| && forall i :: 0 <= i < |s| ==> Symbols(s)[i] != PAD
  {
    if s != [] {
      SymbolRoundTrip(s[0]);
      SymbolsPlain(s[1..]);
    }
  }

  /** An encoded text is padded exactly when its bytes do not come in threes. */
  lemma {:induction false} PaddedExactlyWhen(b: Bytes)
    ensures PAD in Encode(b) <==> |b| % 3 != 0
  {
    if |b| == 1 {
      assert Encode(b)[|Encode(b)| - 1] == PAD;
    } else if |b| == 2 {
      assert Encode(b)[|Encode(b)| - 1] == PAD;
    } else if |b| >= 3 {
      PaddedExactlyWhen(b[3..]);
      var four := Symbols([First(b[0]), Second(b[0], b[1]), Third(b[1], b[2]), Fourth(b[2])]);
      NoPadding([First(b[0]), Second(b[0], b[1]), Third(b[1], b[2]), Fourth(b[2])]);
      assert Encode(b) == four + Encode(b[3..]);
    }
  }

  lemma {:induction false} NoPadding(s: seq<Sextet>)
    ensures PAD !in Symbols(s)
  {
    if s != [] {
      SymbolRoundTrip(s[0]);
      NoPadding(s[1..]);
    }
  }

  /** A padded text decodes alone, whatever follows it. */
  lemma PaddedHides(b: Bytes, t: Text)
    requires |b| % 3 != 0
    ensures Decode(Encode(b) + t) == b
  {
    PaddedExactlyWhen(b);
    SextetsConcat(Encode(b), t);
    RoundTrip(b);
  }

  lemma JoinStep(s: seq<Sextet>)
    requires |s| >= 4
    ensures Join(s) == [High(s[0], s[1]), Middle(s[1], s[2]), Low(s[2], s[3])] + Join(s[4..])
  {
  }

  lemma {:induction false} JoinConcat(s: seq<Sextet>, t: seq<Sextet>)
    requires |s| % 4 == 0
    ensures Join(s + t) == Join(s) + Join(t)
    decreases |s|
  {
    if s == [] {
      assert s + t == t;
    } else {
      var rest := s[4..];
      JoinConcat(rest, t);
      FourApart(s, t);
      JoinFour(s[0], s[1], s[2], s[3], rest);
      JoinFour(s[0], s[1], s[2], s[3], rest + t);
      Extend([High(s[0], s[1]), Middle(s[1], s[2]), Low(s[2], s[3])], Join(rest), Join(s), Join(t));
    }
  }

  lemma FourApart(s: seq<Sextet>, t: seq<Sextet>)
    requires |s| >= 4
    ensures s == [s[0], s[1], s[2], s[3]] + s[4..]
    ensures s + t == [s[0], s[1], s[2], s[3]] + (s[4..] + t)
  {
  }

  /** Four symbols make three bytes; of fewer, all but one count. */
  function JoinLength(n: nat): nat {
    n / 4 * 3 + if n % 4 == 0 then 0 else n % 4 - 1
  }

  lemma {:induction false} JoinHasLength(s: seq<Sextet>)
    ensures |Join(s)| == JoinLength(|s|)
    decreases |s|
  {
    if |s| >= 4 {
      JoinStep(s);
      JoinHasLength(s[4..]);
    }
  }

  lemma SextetsOfOne(x: Byte)
    ensures Sextets(Encode([x])) == [First(x), Second(x, 0)]
  {
    SextetsOfSymbols([First(x), Second(x, 0)], [PAD, PAD]);
    NoSextets();
  }

  lemma SextetsOfTwo(x: Byte, y: Byte)
    ensures Sextets(Encode([x, y])) == [First(x), Second(x, y), Third(y, 0)]
  {
    SextetsOfSymbols([First(x), Second(x, y), Third(y, 0)], [PAD]);
    NoSextets();
  }

  lemma SextetsOfThree(b: Bytes)
    requires |b| >= 3
    ensures Sextets(Encode(b))
      == [First(b[0]), Second(b[0], b[1]), Third(b[1], b[2]), Fourth(b[2])] + Sextets(Encode(b[3..]))
  {
    SextetsOfFour(First(b[0]), Second(b[0], b[1]), Third(b[1], b[2]), Fourth(b[2]), Encode(b[3..]));
  }

  /** The number of symbols that so many bytes make. */
  function SymbolCount(n: nat): nat {
    if n == 0 then 0 else if n < 3 then n + 1 else 4 + SymbolCount(n - 3)
  }

  lemma {:induction false} SymbolCountLeft(n: nat)
    ensures SymbolCount(n) % 4 == if n % 3 == 0 then 0 else n % 3 + 1
  {
    if n >= 3 { SymbolCountLeft(n - 3); }
  }

  lemma CountOfThree(b: Bytes)
    requires |b| >= 3
    ensures |Sextets(Encode(b))| == 4 + |Sextets(Encode(b[3..]))|
  {
    SextetsOfThree(b);
  }

  lemma {:induction false} EncodedCount(b: Bytes)
    ensures |Sextets(Encode(b))| == SymbolCount(|b|)
  {
    if |b| == 1 {
      SextetsOfOne(b[0]);
      assert b == [b[0]];
    } else if |b| == 2 {
      SextetsOfTwo(b[0], b[1]);
      assert b == [b[0], b[1]];
    } else if |b| >= 3 {
      EncodedCount(b[3..]);
      CountOfThree(b);
    }
  }

  lemma EncodedLength(b: Bytes)
    ensures |Sextets(Encode(b))| % 4 == if |b| % 3 == 0 then 0 else |b| % 3 + 1
  {
    EncodedCount(b);
    SymbolCountLeft(|b|);
  }

  lemma EncodedFirst(b: Bytes)
    requires b != []
    ensures |Sextets(Encode(b))| >= 2 && Sextets(Encode(b))[0] == First(b[0])
  {
    if |b| == 1 {
      SextetsOfOne(b[0]);
      assert b == [b[0]];
    } else if |b| == 2 {
      SextetsOfTwo(b[0], b[1]);
      assert b == [b[0], b[1]];
    } else {
      SextetsOfThree(b);
    }
  }

  lemma SextetsOfFour(x: Sextet, y: Sextet, z: Sextet, w: Sextet, t: Text)
    ensures Sextets(Symbols([x, y, z, w]) + t) == [x, y, z, w] + Sextets(t)
  {
    SextetsOfSymbols([x, y, z, w], t);
  }

  lemma FirstSymbol(b: Bytes)
    requires b != []
    ensures Encode(b) != [] && PAD !in Encode(b)[..1] && Sextets(Encode(b)[..1]) == [First(b[0])]
  {
    var x := First(b[0]);
    EncodedStart(b);
    SymbolRoundTrip(x);
    NextSextet(x, []);
    assert Encode(b)[..1] == [Symbol(x)] + [];
  }

  lemma EncodedStart(b: Bytes)
    requires b != []
    ensures Encode(b) != [] && Encode(b)[0] == Symbol(First(b[0]))
  {
    if |b| == 1 {
      SymbolsStart([First(b[0]), Second(b[0], 0)]);
    } else if |b| == 2 {
      SymbolsStart([First(b[0]), Second(b[0], b[1]), Third(b[1], 0)]);
    } else {
      SymbolsStart([First(b[0]), Second(b[0], b[1]), Third(b[1], b[2]), Fourth(b[2])]);
    }
  }

  lemma SymbolsStart(s: seq<Sextet>)
    requires s != []
    ensures Symbols(s) != [] && Symbols(s)[0] == Symbol(s[0])
  {
  }

  lemma JoinFirst(s: seq<Sextet>)
    requires |s| >= 2
    ensures Join(s) != [] && Join(s)[0] == High(s[0], s[1])
  {
  }

  /** Two texts without padding between them decode to the bytes of both. */
  lemma UnpaddedJoins(b: Bytes, c: Bytes)
    requires |b| % 3 == 0
    ensures Decode(Encode(b) + Encode(c)) == b + c
  {
    PaddedExactlyWhen(b);
    SextetsConcat(Encode(b), Encode(c));
    EncodedLength(b);
    JoinConcat(Sextets(Encode(b)), Sextets(Encode(c)));
    RoundTrip(b);
    RoundTrip(c);
  }

  /**
   Symbols in front of an encoded text change what it decodes to, unless its first byte reads the
   same when shifted by one symbol.
   */
  lemma ShiftedDiffers(s: seq<Sextet>, b: Bytes)
    requires s != [] && b != [] && b[0] / 64 != b[0] % 4
    ensures Join(s + Sextets(Encode(b))) != b
  {
    var x := Sextets(Encode(b));
    EncodedLength(b);
    EncodedFirst(b);
    RoundTrip(b);
    JoinHasLength(x);
    JoinHasLength(s + x);
    if |s| == 1 && |x| % 4 == 0 {
      JoinStep(s + x);
      assert (s + x)[0] == s[0] && (s + x)[1] == x[0];
      HighReads(s[0], x[0]);
    } else {
      LongerJoin(|x|, |s|);
    }
  }

  lemma HighReads(a: Sextet, b: Sextet)
    ensures High(a, b) / 4 == a && High(a, b) % 4 == b / 16
  {
  }

  lemma LongerJoin(n: nat, k: nat)
    requires n % 4 != 1 && k > 0 && (k > 1 || n % 4 != 0)
    ensures JoinLength(k + n) > JoinLength(n)
  {
  }
}
