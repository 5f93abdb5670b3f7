/** Strings as the program sees them: sequences of UTF-16 code units, surrogates included. */
module Utf16 {

  type CodeUnit = u: int | 0 <= u < 0x1_0000

  type Text = seq<CodeUnit>

  const TAB: CodeUnit := 0x09
  const LINE_FEED: CodeUnit := 0x0A
  const CARRIAGE_RETURN: CodeUnit := 0x0D
  const SPACE: CodeUnit := 0x20
  const DOUBLE_QUOTE: CodeUnit := 0x22
  const SINGLE_QUOTE: CodeUnit := 0x27
  const COMMA: CodeUnit := 0x2C
  const DOT: CodeUnit := 0x2E
  const COLON: CodeUnit := 0x3A
  const BACKSLASH: CodeUnit := 0x5C
  const OPEN_BRACE: CodeUnit := 0x7B
  const CLOSE_BRACE: CodeUnit := 0x7D

  function CharUnit(c: char): CodeUnit
    requires (c as int) < 0x1_0000
  {
    c as int
  }

  /** A string literal of the Basic Multilingual Plane as code units. */
  function Lit(s: string): (t: Text)
    requires forall i :: 0 <= i < |s| ==> (s[i] as int) < 0x1_0000
    ensures |t| == |s|
    ensures forall i :: 0 <= i < |s| ==> t[i] == s[i] as int
  {
    seq(|s|, i requires 0 <= i < |s| => CharUnit(s[i]))
  }

  predicate IsDigit(u: CodeUnit) {
    0x30 <= u <= 0x39
  }

  /** White space and line terminators, as the \s class and the trim functions have them. */
  predicate IsSpace(u: CodeUnit) {
    || 0x09 <= u <= 0x0D || u == 0x20 || u == 0xA0 || u == 0x1680 || 0x2000 <= u <= 0x200A
    || 0x2028 <= u <= 0x2029 || u == 0x202F || u == 0x205F || u == 0x3000 || u == 0xFEFF
  }

  function TrimEnd(t: Text): Text {
    if t != [] && IsSpace(t[|t| - 1]) then TrimEnd(t[..|t| - 1]) else t
  }

  function TrimStart(t: Text): Text {
    if t != [] && IsSpace(t[0]) then TrimStart(t[1..]) else t
  }
}
