/**
 A reader of JSON text, as sections 2 to 7 of RFC 8259 have it. It reads back every printed tree,
 so that distinct trees have distinct texts.
 */
module JsonReader {
  import opened Json
  import opened Numerals
  import opened Sequences
  import opened Utf16
  import opened Wrappers

  /** What was read and what stands behind it. */
  datatype Reading<T> = Reading(value: T, rest: Text)

  // ---------- White space (section 2) ----------

  predicate IsJsonSpace(u: CodeUnit) {
    u == SPACE || u == TAB || u == LINE_FEED || u == CARRIAGE_RETURN
  }

  function SkipSpace(t: Text): (r: Text)
    ensures |r| <= |t|
  {
    if t != [] && IsJsonSpace(t[0]) then SkipSpace(t[1..]) else t
  }

  predicate StartsWith(t: Text, u: CodeUnit) {
    t != [] && t[0] == u
  }

  // ---------- Strings (section 7) ----------

  function HexDigitValue(u: CodeUnit): Option<nat> {
    if 0x30 <= u <= 0x39 then Some(u - 0x30)
    else if 0x41 <= u <= 0x46 then Some(u - 0x37)
    else if 0x61 <= u <= 0x66 then Some(u - 0x57)
    else None
  }

  /** Four hexadecimal digits. */
  function ReadHex(t: Text): Option<CodeUnit> {
    if |t| < 4 then None
    else
      match (HexDigitValue(t[0]), HexDigitValue(t[1]), HexDigitValue(t[2]), HexDigitValue(t[3]))
      case (Some(a), Some(b), Some(c), Some(d)) =>
        var n := a * 4096 + b * 256 + c * 16 + d;
        if n < 0x1_0000 then Some(n) else None
      case _ => None
  }

  /** The unit that a two-unit escape stands for. */
  function Unescaped(u: CodeUnit): Option<CodeUnit> {
    match u
    case 0x22 => Some(0x22)
    case 0x5C => Some(0x5C)
    case 0x2F => Some(0x2F)
    case 0x62 => Some(0x08)
    case 0x66 => Some(0x0C)
    case 0x6E => Some(0x0A)
    case 0x72 => Some(0x0D)
    case 0x74 => Some(0x09)
    case _ => None
  }

  /** What follows a backslash. */
  function ReadEscape(t: Text): (r: Option<Reading<CodeUnit>>)
    ensures r.Some? ==> |r.value.rest| < |t|
  {
    if t == [] then None
    else if t[0] == 0x75 then
      match ReadHex(t[1..])
      case Some(u) => Some(Reading(u, t[5..]))
      case None => None
    else
      match Unescaped(t[0])
      case Some(u) => Some(Reading(u, t[1..]))
      case None => None
  }

  function Prefixed(u: CodeUnit, r: Option<Reading<Text>>): Option<Reading<Text>> {
    match r
    case Some(Reading(t, rest)) => Some(Reading([u] + t, rest))
    case None => None
  }

  /** What follows the opening quote, up to the closing one. */
  function ReadString(t: Text): (r: Option<Reading<Text>>)
    ensures r.Some? ==> |r.value.rest| < |t|
    decreases |t|
  {
    if t == [] || t[0] < 0x20 then None
    else if t[0] == DOUBLE_QUOTE then Some(Reading([], t[1..]))
    else if t[0] == BACKSLASH then
      match ReadEscape(t[1..])
      case Some(Reading(u, rest)) => Prefixed(u, ReadString(rest))
      case None => None
    else Prefixed(t[0], ReadString(t[1..]))
  }

  // ---------- Values, objects and arrays (sections 3 to 5) ----------

  /** A literal or a number. */
  function ReadScalar(t: Text): (r: Option<Reading<Tree>>)
    ensures r.Some? ==> |r.value.rest| < |t|
  {
    if Lit("null") <= t then Some(Reading(Null, t[4..]))
    else if Lit("true") <= t then Some(Reading(Bool(true), t[4..]))
    else if Lit("false") <= t then Some(Reading(Bool(false), t[5..]))
    else if NumberLength(t) > 0 then Some(Reading(Number(t[..NumberLength(t)]), t[NumberLength(t)..]))
    else None
  }

  function ReadValue(text: Text): (r: Option<Reading<Tree>>)
    ensures r.Some? ==> |r.value.rest| < |text|
    decreases |text|, 1
  {
    var t := SkipSpace(text);
    if StartsWith(t, OPEN_BRACE) then
      var s := SkipSpace(t[1..]);
      if StartsWith(s, CLOSE_BRACE) then Some(Reading(Object([]), s[1..]))
      else
        match ReadFields(t[1..])
        case Some(Reading(fields, rest)) => Some(Reading(Object(fields), rest))
        case None => None
    else if StartsWith(t, OPEN_BRACKET) then
      var s := SkipSpace(t[1..]);
      if StartsWith(s, CLOSE_BRACKET) then Some(Reading(Array([]), s[1..]))
      else
        match ReadItems(t[1..])
        case Some(Reading(items, rest)) => Some(Reading(Array(items), rest))
        case None => None
    else if StartsWith(t, DOUBLE_QUOTE) then
      match ReadString(t[1..])
      case Some(Reading(s, rest)) => Some(Reading(String(s), rest))
      case None => None
    else ReadScalar(t)
  }

  /** The elements of an array that has some, up to its closing bracket. */
  function ReadItems(t: Text): (r: Option<Reading<seq<Tree>>>)
    ensures r.Some? ==> |r.value.rest| < |t|
    decreases |t|, 2
  {
    match ReadValue(t)
    case Some(Reading(item, behind)) =>
      var s := SkipSpace(behind);
      if StartsWith(s, CLOSE_BRACKET) then Some(Reading([item], s[1..]))
      else if StartsWith(s, COMMA) then
        match ReadItems(s[1..])
        case Some(Reading(items, rest)) => Some(Reading([item] + items, rest))
        case None => None
      else None
    case None => None
  }

  function ReadField(text: Text): (r: Option<Reading<Field>>)
    ensures r.Some? ==> |r.value.rest| < |text|
    decreases |text|, 0
  {
    var t := SkipSpace(text);
    if !StartsWith(t, DOUBLE_QUOTE) then None
    else
      match ReadString(t[1..])
      case Some(Reading(key, behind)) =>
        var s := SkipSpace(behind);
        if !StartsWith(s, COLON) then None
        else
          (match ReadValue(s[1..])
           case Some(Reading(value, rest)) => Some(Reading(Field(key, value), rest))
           case None => None)
      case None => None
  }

  /** The members of an object that has some, up to its closing brace. */
  function ReadFields(t: Text): (r: Option<Reading<seq<Field>>>)
    ensures r.Some? ==> |r.value.rest| < |t|
    decreases |t|, 2
  {
    match ReadField(t)
    case Some(Reading(field, behind)) =>
      var s := SkipSpace(behind);
      if StartsWith(s, CLOSE_BRACE) then Some(Reading([field], s[1..]))
      else if StartsWith(s, COMMA) then
        match ReadFields(s[1..])
        case Some(Reading(fields, rest)) => Some(Reading([field] + fields, rest))
        case None => None
      else None
    case None => None
  }

  /** A whole text: one value with white space around it. */
  function Read(t: Text): Option<Tree> {
    match ReadValue(t)
    case Some(Reading(j, rest)) => if SkipSpace(rest) == [] then Some(j) else None
    case None => None
  }

  // ---------- Reading back ----------

  lemma HexDigitBack(d: nat)
    requires d < 16
    ensures HexDigitValue(HexDigit(d)) == Some(d)
  {
  }

  /** Four base-16 digits are worth the number they were taken from. */
  lemma HexValue(u: CodeUnit)
    ensures u == u / 4096 * 4096 + u / 256 % 16 * 256 + u / 16 % 16 * 16 + u % 16
  {
    assert u / 256 / 16 == u / 4096;
    assert u / 16 / 16 == u / 256;
  }

  lemma HexBack(u: CodeUnit, s: Text)
    ensures ReadHex(Hex4(u) + s) == Some(u)
  {
    HexDigitBack(u / 4096);
    HexDigitBack(u / 256 % 16);
    HexDigitBack(u / 16 % 16);
    HexDigitBack(u % 16);
    HexValue(u);
  }

  lemma EscapeBack(u: CodeUnit, s: Text)
    requires |EscapeUnit(u)| > 1
    ensures ReadEscape(EscapeUnit(u)[1..] + s) == Some(Reading(u, s))
  {
    var t := EscapeUnit(u)[1..] + s;
    if ShortEscape(u) != 0 {
      assert t == [ShortEscape(u)] + s;
    } else {
      assert t == [0x75] + (Hex4(u) + s);
      HexBack(u, s);
      assert t[5..] == s;
    }
  }

  lemma EscapedRead(t: Text, u: CodeUnit, rest: Text)
    requires ReadEscape(t) == Some(Reading(u, rest))
    ensures ReadString([BACKSLASH] + t) == Prefixed(u, ReadString(rest))
  {
    assert ([BACKSLASH] + t)[1..] == t;
  }

  lemma RawRead(u: CodeUnit, t: Text)
    requires u >= 0x20 && u != DOUBLE_QUOTE && u != BACKSLASH
    ensures ReadString([u] + t) == Prefixed(u, ReadString(t))
  {
    assert ([u] + t)[1..] == t;
  }

  lemma EscapeApart(u: CodeUnit)
    ensures |EscapeUnit(u)| > 1 ==> EscapeUnit(u) == [BACKSLASH] + EscapeUnit(u)[1..]
    ensures |EscapeUnit(u)| <= 1 ==>
      EscapeUnit(u) == [u] && u >= 0x20 && u != DOUBLE_QUOTE && u != BACKSLASH
  {
  }

  lemma UnitBack(u: CodeUnit, s: Text)
    ensures ReadString(EscapeUnit(u) + s) == Prefixed(u, ReadString(s))
  {
    var e := EscapeUnit(u);
    EscapeApart(u);
    if |e| > 1 {
      EscapeBack(u, s);
      EscapedRead(e[1..] + s, u, s);
      Extend([BACKSLASH], e[1..], e, s);
    } else {
      RawRead(u, s);
    }
  }

  lemma PairBack(a: CodeUnit, b: CodeUnit, s: Text)
    requires IsHighSurrogate(a) && IsLowSurrogate(b)
    ensures ReadString([a, b] + s) == Prefixed(a, Prefixed(b, ReadString(s)))
  {
    RawRead(a, [b] + s);
    RawRead(b, s);
    assert [a, b] + s == [a] + ([b] + s);
  }

  lemma PairThen(t: Text, s: Text)
    requires StartsWithPair(t)
    ensures StringBody(t) + s == [t[0], t[1]] + (StringBody(t[2..]) + s)
    ensures [t[0]] + ([t[1]] + t[2..]) == t
  {
    Extend([t[0], t[1]], StringBody(t[2..]), StringBody(t), s);
  }

  lemma UnitThen(t: Text, s: Text)
    requires t != [] && !StartsWithPair(t)
    ensures StringBody(t) + s == EscapeUnit(t[0]) + (StringBody(t[1..]) + s)
    ensures [t[0]] + t[1..] == t
  {
    Extend(EscapeUnit(t[0]), StringBody(t[1..]), StringBody(t), s);
  }

  lemma {:induction false} StringBack(t: Text, s: Text)
    ensures ReadString(StringBody(t) + s) == Some(Reading(t, s))
    decreases |t|
  {
    if t == [] {
      assert (StringBody(t) + s)[1..] == s;
    } else if StartsWithPair(t) {
      StringBack(t[2..], s);
      PairThen(t, s);
      PairBack(t[0], t[1], StringBody(t[2..]) + s);
    } else {
      StringBack(t[1..], s);
      UnitThen(t, s);
      UnitBack(t[0], StringBody(t[1..]) + s);
    }
  }

  /** A string body is read back in one way only, whatever follows it. */
  lemma StringBodyUnique(a: Text, s: Text, b: Text, t: Text)
    requires StringBody(a) + s == StringBody(b) + t
    ensures a == b && s == t
  {
    StringBack(a, s);
    StringBack(b, t);
  }

  /** What stands behind a value inside a document: nothing, or a unit that continues no number. */
  predicate Follows(s: Text) {
    s == [] || !(IsDigit(s[0]) || IsSign(s[0]) || IsExponentMark(s[0]) || s[0] == DOT)
  }

  lemma {:induction false} DigitsBack(t: Text, s: Text)
    requires Follows(s)
    ensures DigitRun(t + s) == DigitRun(t)
  {
    if t == [] {
      assert t + s == s;
    } else if IsDigit(t[0]) {
      DigitsBack(t[1..], s);
      assert (t + s)[1..] == t[1..] + s;
    }
  }

  lemma CutBehind(t: Text, s: Text, n: nat)
    requires n <= |t|
    ensures (t + s)[n..] == t[n..] + s
  {
  }

  lemma IntBack(t: Text, s: Text)
    requires Follows(s)
    ensures IntLength(t + s) == IntLength(t)
  {
    DigitsBack(t, s);
  }

  lemma FracBack(t: Text, s: Text)
    requires Follows(s)
    ensures FracLength(t + s) == FracLength(t)
  {
    if t != [] {
      CutBehind(t, s, 1);
      DigitsBack(t[1..], s);
    }
  }

  lemma ExpBack(t: Text, s: Text)
    requires Follows(s)
    ensures ExpLength(t + s) == ExpLength(t)
  {
    if t != [] {
      var sign := if |t| > 1 && IsSign(t[1]) then 1 else 0;
      CutBehind(t, s, 1 + sign);
      DigitsBack(t[1 + sign..], s);
    }
  }

  lemma FractionBack(t: Text, s: Text)
    requires Follows(s)
    ensures FractionLength(t + s) == FractionLength(t)
  {
    var frac := FracLength(t);
    FracBack(t, s);
    CutBehind(t, s, frac);
    ExpBack(t[frac..], s);
  }

  lemma UnsignedBack(t: Text, s: Text)
    requires Follows(s)
    ensures UnsignedLength(t + s) == UnsignedLength(t)
  {
    var digits := IntLength(t);
    IntBack(t, s);
    CutBehind(t, s, digits);
    FractionBack(t[digits..], s);
  }

  lemma NumberBack(t: Text, s: Text)
    requires Follows(s)
    ensures NumberLength(t + s) == NumberLength(t)
  {
    var minus := if t != [] && t[0] == MINUS then 1 else 0;
    CutBehind(t, s, minus);
    UnsignedBack(t[minus..], s);
  }

  // ---------- The grammar of numbers ----------

  predicate IsFrac(t: Text) {
    t == [] || (t[0] == DOT && t[1..] != [] && AllDigits(t[1..]))
  }

  predicate IsExp(t: Text) {
    t == [] || (
      && IsExponentMark(t[0])
      && ((|t| > 1 && AllDigits(t[1..])) || (|t| > 2 && IsSign(t[1]) && AllDigits(t[2..]))))
  }

  /** The parts of a number: its sign, digits without a leading zero, and perhaps a fraction and an exponent. */
  predicate NumberParts(minus: Text, digits: Text, frac: Text, exp: Text) {
    (minus == [] || minus == [MINUS]) && IsCanonical(digits) && IsFrac(frac) && IsExp(exp)
  }

  lemma {:induction false} AllRun(t: Text)
    requires AllDigits(t)
    ensures DigitRun(t) == |t|
  {
    if t != [] { AllRun(t[1..]); }
  }

  lemma {:induction false} RunStops(t: Text, s: Text)
    requires AllDigits(t) && (s != [] ==> !IsDigit(s[0]))
    ensures DigitRun(t + s) == |t|
  {
    if t == [] {
      assert t + s == s;
    } else {
      RunStops(t[1..], s);
      assert (t + s)[1..] == t[1..] + s;
    }
  }

  lemma ExpRead(exp: Text)
    requires IsExp(exp)
    ensures ExpLength(exp) == |exp|
  {
    if exp != [] {
      if AllDigits(exp[1..]) { AllRun(exp[1..]); } else { AllRun(exp[2..]); }
    }
  }

  lemma FractionRead(frac: Text, exp: Text)
    requires IsFrac(frac) && IsExp(exp)
    ensures FractionLength(frac + exp) == |frac + exp|
  {
    var t := frac + exp;
    ExpRead(exp);
    if frac != [] {
      RunStops(frac[1..], exp);
      assert t[1..] == frac[1..] + exp;
    }
    assert t[|frac|..] == exp;
  }

  lemma UnsignedRead(digits: Text, frac: Text, exp: Text)
    requires IsCanonical(digits) && IsFrac(frac) && IsExp(exp)
    ensures UnsignedLength(digits + (frac + exp)) == |digits + (frac + exp)|
  {
    var rest := frac + exp;
    FractionRead(frac, exp);
    assert rest != [] ==> !IsDigit(rest[0]);
    RunStops(digits, rest);
    assert (digits + rest)[|digits|..] == rest;
  }

  /** Every number of the grammar is a numeral. */
  lemma NumberRead(minus: Text, digits: Text, frac: Text, exp: Text)
    requires NumberParts(minus, digits, frac, exp)
    ensures IsNumeral(minus + (digits + (frac + exp)))
  {
    var unsigned := digits + (frac + exp);
    UnsignedRead(digits, frac, exp);
    assert (minus + unsigned)[|minus|..] == unsigned;
    assert minus == [] ==> (minus + unsigned)[0] == digits[0];
  }

  lemma {:induction false} RunDigits(t: Text)
    ensures AllDigits(t[..DigitRun(t)])
  {
    if t != [] && IsDigit(t[0]) {
      RunDigits(t[1..]);
      assert t[..DigitRun(t)] == [t[0]] + t[1..][..DigitRun(t[1..])];
    }
  }

  lemma ExpSplit(t: Text)
    requires ExpLength(t) == |t|
    ensures IsExp(t)
  {
    if t != [] {
      var sign := if |t| > 1 && IsSign(t[1]) then 1 else 0;
      RunDigits(t[1 + sign..]);
      assert t[1 + sign..][..DigitRun(t[1 + sign..])] == t[1 + sign..];
    }
  }

  lemma FractionSplit(t: Text) returns (frac: Text, exp: Text)
    requires FractionLength(t) == |t|
    ensures t == frac + exp && IsFrac(frac) && IsExp(exp)
  {
    var n := FracLength(t);
    frac, exp := t[..n], t[n..];
    ExpSplit(exp);
    if n > 0 {
      RunDigits(t[1..]);
      assert frac[1..] == t[1..][..DigitRun(t[1..])];
    }
  }

  lemma UnsignedSplit(t: Text) returns (digits: Text, frac: Text, exp: Text)
    requires UnsignedLength(t) == |t| > 0
    ensures t == digits + (frac + exp) && IsCanonical(digits) && IsFrac(frac) && IsExp(exp)
  {
    var n := IntLength(t);
    digits := t[..n];
    RunDigits(t);
    frac, exp := FractionSplit(t[n..]);
  }

  /** Every numeral is a number of the grammar of section 6: IsNumeral is that grammar. */
  lemma NumeralMeans(t: Text) returns (minus: Text, digits: Text, frac: Text, exp: Text)
    requires IsNumeral(t)
    ensures NumberParts(minus, digits, frac, exp) && t == minus + (digits + (frac + exp))
  {
    var n := if t[0] == MINUS then 1 else 0;
    minus := t[..n];
    digits, frac, exp := UnsignedSplit(t[n..]);
  }

  // ---------- Values ----------

  /** How a value starts. */
  predicate Starts(u: CodeUnit) {
    u in [OPEN_BRACE, OPEN_BRACKET, DOUBLE_QUOTE, 0x6E, 0x74, 0x66, MINUS] || IsDigit(u)
  }

  lemma NumeralStarts(t: Text)
    requires IsNumeral(t)
    ensures t[0] == MINUS || IsDigit(t[0])
  {
  }

  lemma PrintStarts(j: Tree)
    requires Valid(j)
    ensures Print(j) != [] && Starts(Print(j)[0]) && !IsJsonSpace(Print(j)[0])
  {
    if j.Number? { NumeralStarts(j.numeral); }
  }

  lemma Unskipped(t: Text)
    requires t != [] && !IsJsonSpace(t[0])
    ensures SkipSpace(t) == t
  {
  }

  lemma NoLiteral(t: Text)
    requires t != [] && t[0] !in [0x6E, 0x74, 0x66]
    ensures !(Lit("null") <= t) && !(Lit("true") <= t) && !(Lit("false") <= t)
  {
    assert Lit("null")[0] == 0x6E && Lit("true")[0] == 0x74 && Lit("false")[0] == 0x66;
  }

  /** A text that starts neither a literal nor with a mark can only start a number. */
  lemma NumberStarts(t: Text, n: nat)
    requires t != [] && (t[0] == MINUS || IsDigit(t[0])) && n == NumberLength(t) > 0
    ensures ReadValue(t) == Some(Reading(Number(t[..n]), t[n..]))
  {
    Unskipped(t);
    NoLiteral(t);
  }

  lemma NumeralBack(t: Text, s: Text)
    requires IsNumeral(t) && Follows(s)
    ensures ReadValue(t + s) == Some(Reading(Number(t), s))
  {
    NumeralStarts(t);
    NumberBack(t, s);
    assert (t + s)[0] == t[0];
    NumberStarts(t + s, |t|);
    assert (t + s)[..|t|] == t && (t + s)[|t|..] == s;
  }

  lemma LiteralBack(j: Tree, s: Text)
    requires j.Null? || j.Bool?
    ensures ReadValue(Print(j) + s) == Some(Reading(j, s))
  {
    var t := Print(j) + s;
    assert t[0] == Print(j)[0] && !IsJsonSpace(t[0]);
    assert Lit("null")[0] == 0x6E && Lit("true")[0] == 0x74 && Lit("false")[0] == 0x66;
    assert Print(j) <= t && t[|Print(j)|..] == s;
  }

  lemma QuoteBack(t: Text, s: Text)
    ensures ReadValue(Quote(t) + s) == Some(Reading(String(t), s))
  {
    Extend([DOUBLE_QUOTE], StringBody(t), Quote(t), s);
    StringBack(t, s);
    assert (Quote(t) + s)[1..] == StringBody(t) + s;
  }

  // ---------- One step of the reader ----------

  lemma LastItem(t: Text, item: Tree, s: Text)
    requires ReadValue(t) == Some(Reading(item, [CLOSE_BRACKET] + s))
    ensures ReadItems(t) == Some(Reading([item], s))
  {
    assert ([CLOSE_BRACKET] + s)[1..] == s;
  }

  lemma NextItem(t: Text, item: Tree, more: Text, items: seq<Tree>, s: Text)
    requires ReadValue(t) == Some(Reading(item, [COMMA] + more)) && ReadItems(more) == Some(Reading(items, s))
    ensures ReadItems(t) == Some(Reading([item] + items, s))
  {
    assert ([COMMA] + more)[1..] == more;
  }

  lemma NoItems(s: Text)
    ensures ReadValue([OPEN_BRACKET] + ([CLOSE_BRACKET] + s)) == Some(Reading(Array([]), s))
  {
    assert ([OPEN_BRACKET] + ([CLOSE_BRACKET] + s))[1..] == [CLOSE_BRACKET] + s;
    assert ([CLOSE_BRACKET] + s)[1..] == s;
  }

  lemma SomeItems(t: Text, items: seq<Tree>, s: Text)
    requires t != [] && t[0] != CLOSE_BRACKET && !IsJsonSpace(t[0]) && ReadItems(t) == Some(Reading(items, s))
    ensures ReadValue([OPEN_BRACKET] + t) == Some(Reading(Array(items), s))
  {
    assert ([OPEN_BRACKET] + t)[1..] == t;
    Unskipped(t);
  }

  lemma LastField(t: Text, f: Field, s: Text)
    requires ReadField(t) == Some(Reading(f, [CLOSE_BRACE] + s))
    ensures ReadFields(t) == Some(Reading([f], s))
  {
    assert ([CLOSE_BRACE] + s)[1..] == s;
  }

  lemma NextField(t: Text, f: Field, more: Text, fields: seq<Field>, s: Text)
    requires ReadField(t) == Some(Reading(f, [COMMA] + more)) && ReadFields(more) == Some(Reading(fields, s))
    ensures ReadFields(t) == Some(Reading([f] + fields, s))
  {
    assert ([COMMA] + more)[1..] == more;
  }

  lemma NoFields(s: Text)
    ensures ReadValue([OPEN_BRACE] + ([CLOSE_BRACE] + s)) == Some(Reading(Object([]), s))
  {
    assert ([OPEN_BRACE] + ([CLOSE_BRACE] + s))[1..] == [CLOSE_BRACE] + s;
    assert ([CLOSE_BRACE] + s)[1..] == s;
  }

  lemma SomeFields(t: Text, fields: seq<Field>, s: Text)
    requires StartsWith(t, DOUBLE_QUOTE) && ReadFields(t) == Some(Reading(fields, s))
    ensures ReadValue([OPEN_BRACE] + t) == Some(Reading(Object(fields), s))
  {
    assert ([OPEN_BRACE] + t)[1..] == t;
    Unskipped(t);
  }

  lemma KeyAndValue(t: Text, key: Text, behind: Text, value: Tree, s: Text)
    requires ReadString(t) == Some(Reading(key, [COLON] + behind)) && ReadValue(behind) == Some(Reading(value, s))
    ensures ReadField([DOUBLE_QUOTE] + t) == Some(Reading(Field(key, value), s))
  {
    assert ([DOUBLE_QUOTE] + t)[1..] == t;
    assert ([COLON] + behind)[1..] == behind;
  }

  // ---------- Arrays and objects ----------

  /** Reading undoes printing, whatever may stand behind a value. */
  lemma {:induction false} ValueBack(j: Tree, s: Text)
    requires Valid(j) && Follows(s)
    ensures ReadValue(Print(j) + s) == Some(Reading(j, s))
    decreases j, 4
  {
    match j {
      case Null => LiteralBack(j, s);
      case Bool(_) => LiteralBack(j, s);
      case Number(n) => NumeralBack(n, s);
      case String(t) => QuoteBack(t, s);
      case Array(items) => ArrayBack(items, s);
      case Object(fields) => ObjectBack(fields, s);
    }
  }

  lemma {:induction false} ArrayBack(items: seq<Tree>, s: Text)
    requires Valid(Array(items))
    ensures ReadValue(Print(Array(items)) + s) == Some(Reading(Array(items), s))
    decreases items, 4
  {
    if items == [] {
      NoItems(s);
      Extend([OPEN_BRACKET], [CLOSE_BRACKET], Print(Array(items)), s);
    } else {
      ItemsBack(items, s);
      PrintStarts(items[0]);
      SomeItems(PrintItems(items) + s, items, s);
      Extend([OPEN_BRACKET], PrintItems(items), Print(Array(items)), s);
    }
  }

  lemma {:induction false} ItemsBack(items: seq<Tree>, s: Text)
    requires items != [] && forall i :: 0 <= i < |items| ==> Valid(items[i])
    ensures ReadItems(PrintItems(items) + s) == Some(Reading(items, s))
    decreases items, 3
  {
    var rest := items[1..];
    ValueBack(items[0], MoreItems(rest) + s);
    Extend(Print(items[0]), MoreItems(rest), PrintItems(items), s);
    assert items == [items[0]] + rest;
    if rest == [] {
      assert items == [items[0]];
      LastItem(PrintItems(items) + s, items[0], s);
    } else {
      ItemsBack(rest, s);
      Extend([COMMA], PrintItems(rest), MoreItems(rest), s);
      NextItem(PrintItems(items) + s, items[0], PrintItems(rest) + s, rest, s);
    }
  }

  lemma {:induction false} ObjectBack(fields: seq<Field>, s: Text)
    requires Valid(Object(fields))
    ensures ReadValue(Print(Object(fields)) + s) == Some(Reading(Object(fields), s))
    decreases fields, 4
  {
    if fields == [] {
      NoFields(s);
      Extend([OPEN_BRACE], [CLOSE_BRACE], Print(Object(fields)), s);
    } else {
      FieldsBack(fields, s);
      SomeFields(PrintFields(fields) + s, fields, s);
      Extend([OPEN_BRACE], PrintFields(fields), Print(Object(fields)), s);
    }
  }

  lemma FieldApart(f: Field, s: Text)
    ensures PrintField(f) + s == [DOUBLE_QUOTE] + (StringBody(f.key) + ([COLON] + (Print(f.value) + s)))
  {
    var open, key, value := [DOUBLE_QUOTE], StringBody(f.key), Print(f.value);
    Chained(open, key, [COLON], value, s);
  }

  lemma Chained<T>(a: seq<T>, b: seq<T>, c: seq<T>, d: seq<T>, s: seq<T>)
    ensures a + b + c + d + s == a + (b + (c + (d + s)))
  {
  }

  lemma {:induction false} FieldBack(f: Field, s: Text)
    requires Valid(f.value) && Follows(s)
    ensures ReadField(PrintField(f) + s) == Some(Reading(f, s))
    decreases f, 2
  {
    var behind := Print(f.value) + s;
    ValueBack(f.value, s);
    FieldApart(f, s);
    StringBack(f.key, [COLON] + behind);
    KeyAndValue(StringBody(f.key) + ([COLON] + behind), f.key, behind, f.value, s);
  }

  lemma {:induction false} FieldsBack(fields: seq<Field>, s: Text)
    requires fields != [] && forall i :: 0 <= i < |fields| ==> Valid(fields[i].value)
    ensures ReadFields(PrintFields(fields) + s) == Some(Reading(fields, s))
    decreases fields, 3
  {
    var rest := fields[1..];
    FieldBack(fields[0], MoreFields(rest) + s);
    Extend(PrintField(fields[0]), MoreFields(rest), PrintFields(fields), s);
    assert fields == [fields[0]] + rest;
    if rest == [] {
      assert fields == [fields[0]];
      LastField(PrintFields(fields) + s, fields[0], s);
    } else {
      FieldsBack(rest, s);
      Extend([COMMA], PrintFields(rest), MoreFields(rest), s);
      NextField(PrintFields(fields) + s, fields[0], PrintFields(rest) + s, rest, s);
    }
  }

  /** The reader gives back every tree from its printed text. */
  lemma ReadBack(j: Tree)
    requires Valid(j)
    ensures Read(Print(j)) == Some(j)
  {
    ValueBack(j, []);
    assert Print(j) + [] == Print(j);
  }

  /** Printing is injective: two trees have one text exactly when they are one tree. */
  lemma PrintInjective(a: Tree, b: Tree)
    requires Valid(a) && Valid(b)
    ensures Print(a) == Print(b) <==> a == b
  {
    ReadBack(a);
    ReadBack(b);
  }

  // ---------- No more than needed ----------

  /** Seven units have an escape of two units; other controls and lone surrogates get one of six. */
  lemma EscapesMean(u: CodeUnit)
    ensures u in [0x08, 0x09, 0x0A, 0x0C, 0x0D, 0x22, 0x5C] ==> |EscapeUnit(u)| == 2
    ensures u !in [0x08, 0x09, 0x0A, 0x0C, 0x0D, 0x22, 0x5C] ==>
      |EscapeUnit(u)| == if u < 0x20 || 0xD800 <= u < 0xE000 then 6 else 1
    ensures forall i :: 2 <= i < |EscapeUnit(u)| ==> IsDigit(EscapeUnit(u)[i]) || 0x61 <= EscapeUnit(u)[i] <= 0x66
  {
  }

  /** Surrogate pairs are printed as they are, wherever they stand; any other unit is escaped on its own. */
  lemma PairsMean(a: CodeUnit, b: CodeUnit, rest: Text)
    ensures a / 0x400 == 0x36 && b / 0x400 == 0x37 ==> StringBody([a, b] + rest) == [a, b] + StringBody(rest)
    ensures a / 0x400 != 0x36 || b / 0x400 != 0x37 ==>
      StringBody([a, b] + rest) == EscapeUnit(a) + StringBody([b] + rest)
  {
    var t := [a, b] + rest;
    assert t[2..] == rest && t[1..] == [b] + rest;
  }

  /** How often a unit stands in a text. */
  function Count(t: Text, u: CodeUnit): nat {
    multiset(t)[u]
  }

  /** The spaces in the strings and keys of a tree. */
  function SpacesIn(j: Tree): nat
    decreases j, 0
  {
    match j
    case String(t) => Count(t, SPACE)
    case Array(items) => SpacesOfItems(items)
    case Object(fields) => SpacesOfFields(fields)
    case _ => 0
  }

  function SpacesOfItems(items: seq<Tree>): nat
    decreases items, 1
  {
    if items == [] then 0 else SpacesIn(items[0]) + SpacesOfItems(items[1..])
  }

  function SpacesOfFields(fields: seq<Field>): nat
    decreases fields, 1
  {
    if fields == [] then 0
    else Count(fields[0].key, SPACE) + SpacesIn(fields[0].value) + SpacesOfFields(fields[1..])
  }

  lemma CountsAdd(a: Text, b: Text, u: CodeUnit)
    ensures Count(a + b, u) == Count(a, u) + Count(b, u)
  {
  }

  lemma NoneCounted(t: Text, u: CodeUnit)
    requires forall i :: 0 <= i < |t| ==> t[i] != u
    ensures Count(t, u) == 0
  {
    assert u !in t;
  }

  lemma EscapeVisible(u: CodeUnit)
    requires |EscapeUnit(u)| > 1
    ensures u != SPACE && forall i :: 0 <= i < |EscapeUnit(u)| ==> EscapeUnit(u)[i] != SPACE
  {
  }

  lemma EscapeSpaces(u: CodeUnit)
    ensures Count(EscapeUnit(u), SPACE) == Count([u], SPACE)
  {
    EscapeApart(u);
    if |EscapeUnit(u)| > 1 {
      EscapeVisible(u);
      NoneCounted(EscapeUnit(u), SPACE);
      NoneCounted([u], SPACE);
    }
  }

  lemma CountTwice(head: Text, rest: Text, written: Text, body: Text)
    requires Count(written, SPACE) == Count(head, SPACE) && Count(body, SPACE) == Count(rest, SPACE)
    ensures Count(written + body, SPACE) == Count(head + rest, SPACE)
  {
    CountsAdd(head, rest, SPACE);
    CountsAdd(written, body, SPACE);
  }

  lemma PairSpaces(t: Text)
    requires StartsWithPair(t) && Count(StringBody(t[2..]), SPACE) == Count(t[2..], SPACE)
    ensures Count(StringBody(t), SPACE) == Count(t, SPACE)
  {
    var pair := [t[0], t[1]];
    CountTwice(pair, t[2..], pair, StringBody(t[2..]));
    assert t == pair + t[2..];
  }

  lemma UnitSpaces(t: Text)
    requires t != [] && !StartsWithPair(t) && Count(StringBody(t[1..]), SPACE) == Count(t[1..], SPACE)
    ensures Count(StringBody(t), SPACE) == Count(t, SPACE)
  {
    EscapeSpaces(t[0]);
    CountTwice([t[0]], t[1..], EscapeUnit(t[0]), StringBody(t[1..]));
    assert t == [t[0]] + t[1..];
  }

  lemma NothingSpaces()
    ensures Count(StringBody([]), SPACE) == Count([], SPACE)
  {
    NoneCounted([DOUBLE_QUOTE], SPACE);
  }

  lemma {:induction false} BodySpaces(t: Text)
    ensures Count(StringBody(t), SPACE) == Count(t, SPACE)
    decreases |t|
  {
    if t == [] {
      NothingSpaces();
    } else if StartsWithPair(t) {
      BodySpaces(t[2..]);
      PairSpaces(t);
    } else {
      BodySpaces(t[1..]);
      UnitSpaces(t);
    }
  }

  lemma QuoteSpaces(t: Text)
    ensures Count(Quote(t), SPACE) == Count(t, SPACE)
  {
    BodySpaces(t);
    CountsAdd([DOUBLE_QUOTE], StringBody(t), SPACE);
  }

  lemma NumeralSpaces(t: Text)
    requires IsNumeral(t)
    ensures Count(t, SPACE) == 0
  {
    NumeralPlain(t);
    NoneCounted(t, SPACE);
  }

  lemma LiteralSpaces(j: Tree)
    requires j.Null? || j.Bool?
    ensures Count(Print(j), SPACE) == 0
  {
    NoneCounted(Print(j), SPACE);
  }

  lemma EmptySpaces()
    ensures Count(Print(Array([])), SPACE) == 0 && Count(Print(Object([])), SPACE) == 0
  {
    NoneCounted(Print(Array([])), SPACE);
    NoneCounted(Print(Object([])), SPACE);
  }

  lemma {:induction false} PrintSpaces(j: Tree)
    requires Valid(j)
    ensures Count(Print(j), SPACE) == SpacesIn(j)
    decreases j, 0
  {
    match j {
      case Null => LiteralSpaces(j);
      case Bool(_) => LiteralSpaces(j);
      case Number(n) => NumeralSpaces(n);
      case String(t) => QuoteSpaces(t);
      case Array(items) =>
        EmptySpaces();
        if items != [] {
          ItemsSpaces(items);
          CountsAdd([OPEN_BRACKET], PrintItems(items), SPACE);
        }
      case Object(fields) =>
        EmptySpaces();
        if fields != [] {
          FieldsSpaces(fields);
          CountsAdd([OPEN_BRACE], PrintFields(fields), SPACE);
        }
    }
  }

  lemma {:induction false} ItemsSpaces(items: seq<Tree>)
    requires items != [] && forall i :: 0 <= i < |items| ==> Valid(items[i])
    ensures Count(PrintItems(items), SPACE) == SpacesOfItems(items)
    decreases items, 1
  {
    var rest := items[1..];
    PrintSpaces(items[0]);
    CountsAdd(Print(items[0]), MoreItems(rest), SPACE);
    if rest != [] {
      ItemsSpaces(rest);
      CountsAdd([COMMA], PrintItems(rest), SPACE);
    }
  }

  lemma {:induction false} FieldsSpaces(fields: seq<Field>)
    requires fields != [] && forall i :: 0 <= i < |fields| ==> Valid(fields[i].value)
    ensures Count(PrintFields(fields), SPACE) == SpacesOfFields(fields)
    decreases fields, 1
  {
    var f, rest := fields[0], fields[1..];
    PrintSpaces(f.value);
    QuoteSpaces(f.key);
    CountsAdd(Quote(f.key), [COLON], SPACE);
    CountsAdd(Quote(f.key) + [COLON], Print(f.value), SPACE);
    CountsAdd(PrintField(f), MoreFields(rest), SPACE);
    if rest != [] {
      FieldsSpaces(rest);
      CountsAdd([COMMA], PrintFields(rest), SPACE);
    }
  }

  // ---------- What a value takes up ----------

  ghost predicate Suffix(t: Text, r: Text) {
    |r| <= |t| && t[|t| - |r|..] == r
  }

  lemma SuffixTwice(t: Text, s: Text, r: Text)
    requires Suffix(t, s) && Suffix(s, r)
    ensures Suffix(t, r)
  {
    assert s[|s| - |r|..] == t[|t| - |r|..];
  }

  lemma Behind(t: Text, n: nat)
    requires n <= |t|
    ensures Suffix(t, t[n..])
  {
  }

  lemma {:induction false} SkipSuffix(t: Text)
    ensures Suffix(t, SkipSpace(t))
  {
    if t != [] && IsJsonSpace(t[0]) {
      SkipSuffix(t[1..]);
      Behind(t, 1);
      SuffixTwice(t, t[1..], SkipSpace(t));
    }
  }

  lemma {:induction false} StringSuffix(t: Text)
    ensures ReadString(t).Some? ==> Suffix(t, ReadString(t).value.rest)
    decreases |t|
  {
    if ReadString(t).Some? && t[0] != DOUBLE_QUOTE {
      var n := if t[0] != BACKSLASH then 1 else if t[1] == 0x75 then 6 else 2;
      assert t[0] == BACKSLASH ==> ReadEscape(t[1..]).value.rest == t[n..];
      Behind(t, n);
      StringSuffix(t[n..]);
      SuffixTwice(t, t[n..], ReadString(t).value.rest);
    } else if ReadString(t).Some? {
      Behind(t, 1);
    }
  }

  /** A mark behind white space, and what stands behind it. */
  lemma MarkSuffix(t: Text, s: Text, u: CodeUnit)
    requires Suffix(t, s) && StartsWith(SkipSpace(s), u)
    ensures Suffix(t, [u] + SkipSpace(s)[1..]) && Suffix(t, SkipSpace(s)[1..])
  {
    var mark := SkipSpace(s);
    SkipSuffix(s);
    SuffixTwice(t, s, mark);
    Behind(mark, 1);
    SuffixTwice(t, mark, mark[1..]);
    assert [u] + mark[1..] == mark;
  }

  /** What stands behind the mark that a value starts with. */
  function Inside(t: Text): Text {
    if SkipSpace(t) == [] then [] else SkipSpace(t)[1..]
  }

  lemma InsideSuffix(t: Text)
    ensures Suffix(t, Inside(t))
  {
    SkipSuffix(t);
    if SkipSpace(t) != [] {
      Behind(SkipSpace(t), 1);
      SuffixTwice(t, SkipSpace(t), Inside(t));
    }
  }

  lemma ObjectSuffix(t: Text)
    requires ReadValue(t).Some? && StartsWith(SkipSpace(t), OPEN_BRACE)
    requires ReadFields(Inside(t)).Some? ==>
      Suffix(Inside(t), [CLOSE_BRACE] + ReadFields(Inside(t)).value.rest)
    ensures Suffix(t, [CLOSE_BRACE] + ReadValue(t).value.rest)
  {
    InsideSuffix(t);
    if StartsWith(SkipSpace(Inside(t)), CLOSE_BRACE) {
      MarkSuffix(t, Inside(t), CLOSE_BRACE);
    } else {
      SuffixTwice(t, Inside(t), [CLOSE_BRACE] + ReadValue(t).value.rest);
    }
  }

  lemma ArraySuffix(t: Text)
    requires ReadValue(t).Some? && StartsWith(SkipSpace(t), OPEN_BRACKET)
    requires ReadItems(Inside(t)).Some? ==> Suffix(Inside(t), ReadItems(Inside(t)).value.rest)
    ensures Suffix(t, ReadValue(t).value.rest)
  {
    InsideSuffix(t);
    if StartsWith(SkipSpace(Inside(t)), CLOSE_BRACKET) {
      MarkSuffix(t, Inside(t), CLOSE_BRACKET);
    } else {
      SuffixTwice(t, Inside(t), ReadValue(t).value.rest);
    }
  }

  lemma ScalarSuffix(t: Text)
    requires ReadValue(t).Some?
    requires !StartsWith(SkipSpace(t), OPEN_BRACE) && !StartsWith(SkipSpace(t), OPEN_BRACKET)
    ensures Suffix(t, ReadValue(t).value.rest)
  {
    var s, rest := SkipSpace(t), ReadValue(t).value.rest;
    SkipSuffix(t);
    if StartsWith(s, DOUBLE_QUOTE) {
      InsideSuffix(t);
      StringSuffix(Inside(t));
      SuffixTwice(t, Inside(t), rest);
    } else {
      ScalarRest(s);
      SuffixTwice(t, s, rest);
    }
  }

  lemma ScalarRest(t: Text)
    ensures ReadScalar(t).Some? ==> Suffix(t, ReadScalar(t).value.rest)
  {
    if Lit("null") <= t { Behind(t, 4); }
    if Lit("true") <= t { Behind(t, 4); }
    if Lit("false") <= t { Behind(t, 5); }
    Behind(t, NumberLength(t));
  }

  lemma Unmarked(t: Text, u: CodeUnit, rest: Text)
    requires Suffix(t, [u] + rest)
    ensures Suffix(t, rest)
  {
    assert ([u] + rest)[1..] == rest;
    SuffixTwice(t, [u] + rest, rest);
  }

  /** The units of an object that was read end with its closing brace. */
  lemma {:induction false} ValueSuffix(t: Text)
    ensures ReadValue(t).Some? ==> Suffix(t, ReadValue(t).value.rest)
    ensures ReadValue(t).Some? && StartsWith(SkipSpace(t), OPEN_BRACE) ==>
      Suffix(t, [CLOSE_BRACE] + ReadValue(t).value.rest)
    decreases |t|, 1
  {
    if ReadValue(t).Some? {
      var s := SkipSpace(t);
      if StartsWith(s, OPEN_BRACE) {
        FieldsSuffix(Inside(t));
        ObjectSuffix(t);
        Unmarked(t, CLOSE_BRACE, ReadValue(t).value.rest);
      } else if StartsWith(s, OPEN_BRACKET) {
        ItemsSuffix(Inside(t));
        ArraySuffix(t);
      } else {
        ScalarSuffix(t);
      }
    }
  }

  lemma {:induction false} ItemsSuffix(t: Text)
    ensures ReadItems(t).Some? ==> Suffix(t, ReadItems(t).value.rest)
    decreases |t|, 2
  {
    if ReadItems(t).Some? {
      var behind := ReadValue(t).value.rest;
      ValueSuffix(t);
      if StartsWith(SkipSpace(behind), CLOSE_BRACKET) {
        MarkSuffix(t, behind, CLOSE_BRACKET);
      } else {
        MarkSuffix(t, behind, COMMA);
        ItemsSuffix(SkipSpace(behind)[1..]);
        SuffixTwice(t, SkipSpace(behind)[1..], ReadItems(t).value.rest);
      }
    }
  }

  lemma {:induction false} FieldSuffix(t: Text)
    ensures ReadField(t).Some? ==> Suffix(t, ReadField(t).value.rest)
    decreases |t|, 0
  {
    if ReadField(t).Some? {
      var key := Inside(t);
      InsideSuffix(t);
      StringSuffix(key);
      var behind := ReadString(key).value.rest;
      SuffixTwice(t, key, behind);
      MarkSuffix(t, behind, COLON);
      var value := SkipSpace(behind)[1..];
      ValueSuffix(value);
      SuffixTwice(t, value, ReadField(t).value.rest);
    }
  }

  lemma {:induction false} FieldsSuffix(t: Text)
    ensures ReadFields(t).Some? ==> Suffix(t, [CLOSE_BRACE] + ReadFields(t).value.rest)
    decreases |t|, 2
  {
    if ReadFields(t).Some? {
      var behind := ReadField(t).value.rest;
      FieldSuffix(t);
      if StartsWith(SkipSpace(behind), CLOSE_BRACE) {
        MarkSuffix(t, behind, CLOSE_BRACE);
      } else {
        MarkSuffix(t, behind, COMMA);
        FieldsSuffix(SkipSpace(behind)[1..]);
        SuffixTwice(t, SkipSpace(behind)[1..], [CLOSE_BRACE] + ReadFields(t).value.rest);
      }
    }
  }

  lemma {:induction false} SkippedEnd(t: Text)
    requires t != [] && SkipSpace(t) == []
    ensures IsJsonSpace(t[|t| - 1])
  {
    if |t| > 1 { SkippedEnd(t[1..]); }
  }

  /** A text that opens with a brace is read only if a brace closes it, in front of white space. */
  lemma UnclosedUnread(t: Text)
    requires StartsWith(t, OPEN_BRACE) && t[|t| - 1] != CLOSE_BRACE && !IsJsonSpace(t[|t| - 1])
    ensures Read(t) == None
  {
    if Read(t).Some? {
      var rest := ReadValue(t).value.rest;
      ValueSuffix(t);
      Unskipped(t);
      assert t[|t| - 1] == ([CLOSE_BRACE] + rest)[|rest|];
      if rest != [] { SkippedEnd(rest); }
      assert false;
    }
  }

  /** White space in front of a value is skipped. */
  lemma SpaceSkipped(u: CodeUnit, t: Text)
    requires IsJsonSpace(u)
    ensures Read([u] + t) == Read(t)
  {
    assert ([u] + t)[1..] == t;
  }

  /** A text that starts like no value is not read. */
  lemma NothingStarts(t: Text)
    requires t == [] || (!Starts(t[0]) && !IsJsonSpace(t[0]))
    ensures Read(t) == None
  {
    if t != [] {
      Unskipped(t);
      NoLiteral(t);
    }
  }
}
