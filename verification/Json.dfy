/** JSON text as JSON.stringify prints it without indentation. */
module Json {
  import opened Utf16

  /** Objects hold their fields in printing order. A number is its canonical numeral. */
  datatype Tree =
    | Null
    | Bool(value: bool)
    | Number(numeral: Text)
    | String(text: Text)
    | Array(items: seq<Tree>)
    | Object(fields: seq<Field>)

  datatype Field = Field(key: Text, value: Tree)

  const OPEN_BRACKET: CodeUnit := 0x5B
  const CLOSE_BRACKET: CodeUnit := 0x5D

  // ---------- Numbers, as section 6 of RFC 8259 has them ----------

  const ZERO: CodeUnit := 0x30
  const MINUS: CodeUnit := 0x2D
  const PLUS: CodeUnit := 0x2B

  /** The number of leading digits. */
  function DigitRun(t: Text): (n: nat)
    ensures n <= |t|
  {
    if t != [] && IsDigit(t[0]) then 1 + DigitRun(t[1..]) else 0
  }

  /** int: one zero, or digits that start with another one. */
  function IntLength(t: Text): (n: nat)
    ensures n <= |t|
  {
    if t != [] && t[0] == ZERO then 1 else DigitRun(t)
  }

  /** frac: a decimal point and at least one digit. */
  function FracLength(t: Text): (n: nat)
    ensures n <= |t|
  {
    if t != [] && t[0] == DOT && DigitRun(t[1..]) > 0 then 1 + DigitRun(t[1..]) else 0
  }

  predicate IsSign(u: CodeUnit) {
    u == PLUS || u == MINUS
  }

  predicate IsExponentMark(u: CodeUnit) {
    u == 0x65 || u == 0x45
  }

  /** exp: the letter, perhaps a sign, and at least one digit. */
  function ExpLength(t: Text): (n: nat)
    ensures n <= |t|
  {
    if t == [] || !IsExponentMark(t[0]) then 0
    else
      var sign := if |t| > 1 && IsSign(t[1]) then 1 else 0;
      var digits := DigitRun(t[1 + sign..]);
      if digits > 0 then 1 + sign + digits else 0
  }

  /** The length of the number that a text starts with; 0 when it starts with none. */
  function NumberLength(t: Text): (n: nat)
    ensures n <= |t|
  {
    var minus := if t != [] && t[0] == MINUS then 1 else 0;
    var n := UnsignedLength(t[minus..]);
    if n == 0 then 0 else minus + n
  }

  function UnsignedLength(t: Text): (n: nat)
    ensures n <= |t|
  {
    var digits := IntLength(t);
    if digits == 0 then 0 else digits + FractionLength(t[digits..])
  }

  function FractionLength(t: Text): (n: nat)
    ensures n <= |t|
  {
    var frac := FracLength(t);
    frac + ExpLength(t[frac..])
  }

  predicate IsNumeral(t: Text) {
    t != [] && NumberLength(t) == |t|
  }

  lemma {:induction false} DigitsPlain(t: Text)
    ensures forall i :: 0 <= i < DigitRun(t) ==> IsDigit(t[i])
  {
    if t != [] && IsDigit(t[0]) {
      DigitsPlain(t[1..]);
      assert forall i :: 0 < i < |t| ==> t[i] == t[1..][i - 1];
    }
  }

  /** Units of the visible part of ASCII. */
  predicate IsPlain(t: Text) {
    forall i :: 0 <= i < |t| ==> 0x20 < t[i] < 0x80
  }

  lemma PlainParts(t: Text, n: nat)
    requires n <= |t| && IsPlain(t[..n]) && IsPlain(t[n..])
    ensures IsPlain(t)
  {
    assert t == t[..n] + t[n..];
  }

  lemma ExponentPlain(t: Text)
    requires ExpLength(t) == |t|
    ensures IsPlain(t)
  {
    if t != [] {
      var sign := if |t| > 1 && IsSign(t[1]) then 1 else 0;
      DigitsPlain(t[1 + sign..]);
      PlainParts(t, 1 + sign);
    }
  }

  lemma FractionPlain(t: Text)
    requires FractionLength(t) == |t|
    ensures IsPlain(t)
  {
    var frac := FracLength(t);
    if frac > 0 { DigitsPlain(t[1..]); }
    assert forall i :: 0 < i < frac ==> t[i] == t[1..][i - 1];
    ExponentPlain(t[frac..]);
    PlainParts(t, frac);
  }

  /** A numeral holds digits, signs, a point and the exponent's letter. */
  lemma NumeralPlain(t: Text)
    requires IsNumeral(t)
    ensures IsPlain(t)
  {
    var minus := if t[0] == MINUS then 1 else 0;
    var unsigned := t[minus..];
    var digits := IntLength(unsigned);
    DigitsPlain(unsigned);
    FractionPlain(unsigned[digits..]);
    PlainParts(unsigned, digits);
    PlainParts(t, minus);
  }

  ghost predicate Valid(j: Tree) {
    match j
    case Number(numeral) => IsNumeral(numeral)
    case Array(items) => forall i :: 0 <= i < |items| ==> Valid(items[i])
    case Object(fields) => forall i :: 0 <= i < |fields| ==> Valid(fields[i].value)
    case _ => true
  }

  // ---------- Printing ----------

  predicate IsHighSurrogate(u: CodeUnit) {
    0xD800 <= u < 0xDC00
  }

  predicate IsLowSurrogate(u: CodeUnit) {
    0xDC00 <= u < 0xE000
  }

  function HexDigit(d: nat): CodeUnit
    requires d < 16
  {
    if d < 10 then 0x30 + d else 0x57 + d
  }

  function Hex4(u: CodeUnit): Text {
    [HexDigit(u / 4096), HexDigit(u / 256 % 16), HexDigit(u / 16 % 16), HexDigit(u % 16)]
  }

  /** The letter of a two-unit escape, for the units that have one. */
  function ShortEscape(u: CodeUnit): (e: CodeUnit) {
    match u
    case 0x08 => 0x62
    case 0x09 => 0x74
    case 0x0A => 0x6E
    case 0x0C => 0x66
    case 0x0D => 0x72
    case 0x22 => DOUBLE_QUOTE
    case 0x5C => BACKSLASH
    case _ => 0
  }

  /** One unit that is not half of a surrogate pair. */
  function EscapeUnit(u: CodeUnit): Text {
    if ShortEscape(u) != 0 then [BACKSLASH, ShortEscape(u)]
    else if u < 0x20 || IsHighSurrogate(u) || IsLowSurrogate(u) then [BACKSLASH, 0x75] + Hex4(u)
    else [u]
  }

  predicate StartsWithPair(t: Text) {
    |t| > 1 && IsHighSurrogate(t[0]) && IsLowSurrogate(t[1])
  }

  /** What follows the opening quote of a string, closing quote included. */
  function StringBody(t: Text): Text {
    if t == [] then [DOUBLE_QUOTE]
    else if StartsWithPair(t) then
      [t[0], t[1]] + StringBody(t[2..])
    else EscapeUnit(t[0]) + StringBody(t[1..])
  }

  function Quote(t: Text): Text {
    [DOUBLE_QUOTE] + StringBody(t)
  }

  function Print(j: Tree): Text
    decreases j, 0
  {
    match j
    case Null => Lit("null")
    case Bool(b) => if b then Lit("true") else Lit("false")
    case Number(numeral) => numeral
    case String(t) => Quote(t)
    case Array(items) => if items == [] then [OPEN_BRACKET, CLOSE_BRACKET] else [OPEN_BRACKET] + PrintItems(items)
    case Object(fields) => if fields == [] then [OPEN_BRACE, CLOSE_BRACE] else [OPEN_BRACE] + PrintFields(fields)
  }

  /** The elements with their commas, then the closing bracket. */
  function PrintItems(items: seq<Tree>): Text
    requires items != []
    decreases items, 2
  {
    Print(items[0]) + MoreItems(items[1..])
  }

  function MoreItems(items: seq<Tree>): Text
    decreases items, 3
  {
    if items == [] then [CLOSE_BRACKET] else [COMMA] + PrintItems(items)
  }

  function PrintField(f: Field): Text
    decreases f, 1
  {
    Quote(f.key) + [COLON] + Print(f.value)
  }

  function PrintFields(fields: seq<Field>): Text
    requires fields != []
    decreases fields, 2
  {
    PrintField(fields[0]) + MoreFields(fields[1..])
  }

  function MoreFields(fields: seq<Field>): Text
    decreases fields, 3
  {
    if fields == [] then [CLOSE_BRACE] else [COMMA] + PrintFields(fields)
  }
}
