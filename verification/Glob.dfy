/**
 Package globs: a pattern is rewritten three times into the source of an anchored regular
 expression, which then tests the name.
 */
module Glob {
  import opened Sequences
  import opened Utf16

  const DOLLAR: CodeUnit := 0x24
  const STAR: CodeUnit := 0x2A
  const QUESTION: CodeUnit := 0x3F
  const CARET: CodeUnit := 0x5E

  // ---------- The meaning of a glob ----------

  predicate IsLineTerminator(u: CodeUnit) {
    u == LINE_FEED || u == CARRIAGE_RETURN || u == 0x2028 || u == 0x2029
  }

  predicate OneLine(t: Text) {
    forall i :: 0 <= i < |t| ==> !IsLineTerminator(t[i])
  }

  /** '*' is any run and '?' any one unit, line terminators aside; the rest is literal. */
  ghost predicate GlobMatches(pattern: Text, name: Text)
    decreases |pattern|
  {
    if pattern == [] then name == []
    else if pattern[0] == STAR then
      exists k :: 0 <= k <= |name| && OneLine(name[..k]) && GlobMatches(pattern[1..], name[k..])
    else if pattern[0] == QUESTION then
      name != [] && !IsLineTerminator(name[0]) && GlobMatches(pattern[1..], name[1..])
    else
      name != [] && name[0] == pattern[0] && GlobMatches(pattern[1..], name[1..])
  }

  // ---------- The rewrites ----------

  /** The class [.+^${}()|[\]\\] of the first rewrite. */
  predicate IsEscaped(u: CodeUnit) {
    u in {DOT, 0x2B, CARET, DOLLAR, OPEN_BRACE, CLOSE_BRACE, 0x28, 0x29, 0x7C, 0x5B, 0x5D, BACKSLASH}
  }

  function EscapeSpecials(p: Text): Text {
    if p == [] then []
    else (if IsEscaped(p[0]) then [BACKSLASH, p[0]] else [p[0]]) + EscapeSpecials(p[1..])
  }

  function StarSource(u: CodeUnit): Text {
    if u == STAR then [DOT, STAR] else [u]
  }

  function ReplaceStars(p: Text): Text {
    if p == [] then [] else StarSource(p[0]) + ReplaceStars(p[1..])
  }

  function QuestionSource(u: CodeUnit): CodeUnit {
    if u == QUESTION then DOT else u
  }

  function ReplaceQuestions(p: Text): Text {
    if p == [] then [] else [QuestionSource(p[0])] + ReplaceQuestions(p[1..])
  }

  function RegexBody(pattern: Text): Text {
    ReplaceQuestions(ReplaceStars(EscapeSpecials(pattern)))
  }

  function GlobToRegex(pattern: Text): Text {
    [CARET] + RegexBody(pattern) + [DOLLAR]
  }

  // ---------- Regular expressions ----------

  datatype Atom = Literal(u: CodeUnit) | AnyUnit

  datatype Term = Once(atom: Atom) | Repeat(atom: Atom) | Start | End

  datatype Parsed = Terms(terms: seq<Term>) | Unsupported

  /** The SyntaxCharacter production of ECMA-262: ^ $ \ . * + ? ( ) [ ] { } | */
  predicate IsSyntaxCharacter(u: CodeUnit) {
    || u == CARET || u == DOLLAR || u == BACKSLASH || u == DOT || u == STAR || u == 0x2B || u == QUESTION
    || u == 0x28 || u == 0x29 || u == 0x5B || u == 0x5D || u == OPEN_BRACE || u == CLOSE_BRACE || u == 0x7C
  }

  predicate IsQuantifier(u: CodeUnit) {
    u == STAR || u == QUESTION || u == 0x2B || u == OPEN_BRACE
  }

  /** Reads one atom; the rest of the source is source[length..]. */
  function ParseAtom(source: Text): (r: (Atom, nat))
    requires source != []
    ensures r.1 <= |source| && r.1 <= 2
  {
    if source[0] == BACKSLASH then
      if |source| > 1 && IsSyntaxCharacter(source[1]) then (Literal(source[1]), 2) else (AnyUnit, 0)
    else if source[0] == DOT then (AnyUnit, 1)
    else if IsSyntaxCharacter(source[0]) then (AnyUnit, 0)
    else (Literal(source[0]), 1)
  }

  /**
   Reads a regular expression without the u flag, made of literals, identity escapes, dots,
   greedy stars and anchors; anything else is Unsupported.
   */
  function ParseRegex(source: Text): Parsed
    decreases |source|
  {
    if source == [] then Terms([])
    else if source[0] == CARET then Prepend(Start, ParseRegex(source[1..]))
    else if source[0] == DOLLAR then Prepend(End, ParseRegex(source[1..]))
    else
      var (atom, length) := ParseAtom(source);
      if length == 0 then Unsupported
      else if length < |source| && source[length] == STAR then
        if length + 1 < |source| && IsQuantifier(source[length + 1]) then Unsupported
        else Prepend(Repeat(atom), ParseRegex(source[length + 1..]))
      else if length < |source| && IsQuantifier(source[length]) then Unsupported
      else Prepend(Once(atom), ParseRegex(source[length..]))
  }

  function Prepend(t: Term, p: Parsed): Parsed {
    if p.Terms? then Terms([t] + p.terms) else Unsupported
  }

  predicate Accepts(a: Atom, u: CodeUnit) {
    match a
    case Literal(v) => u == v
    case AnyUnit => !IsLineTerminator(u)
  }

  /** The terms match the text from position i on, ending anywhere. */
  predicate MatchesFrom(terms: seq<Term>, t: Text, i: nat)
    requires i <= |t|
    decreases |terms|, |t| - i
  {
    if terms == [] then true
    else match terms[0]
      case Start => i == 0 && MatchesFrom(terms[1..], t, i)
      case End => i == |t| && MatchesFrom(terms[1..], t, i)
      case Once(a) => i < |t| && Accepts(a, t[i]) && MatchesFrom(terms[1..], t, i + 1)
      case Repeat(a) =>
        || MatchesFrom(terms[1..], t, i)
        || (i < |t| && Accepts(a, t[i]) && MatchesFrom(terms, t, i + 1))
  }

  /** RegExp.prototype.test: some position matches. */
  predicate Test(terms: seq<Term>, t: Text) {
    exists i :: 0 <= i <= |t| && MatchesFrom(terms, t, i)
  }

  predicate RegexTest(source: Text, t: Text) {
    match ParseRegex(source)
    case Terms(terms) => Test(terms, t)
    case Unsupported => false
  }

  // ---------- The rewrites preserve meaning ----------

  function TermOf(u: CodeUnit): Term {
    if u == STAR then Repeat(AnyUnit)
    else if u == QUESTION then Once(AnyUnit)
    else Once(Literal(u))
  }

  function TermsOf(pattern: Text): seq<Term> {
    if pattern == [] then [] else [TermOf(pattern[0])] + TermsOf(pattern[1..])
  }

  function UnitSource(u: CodeUnit): Text {
    if u == STAR then [DOT, STAR]
    else if u == QUESTION then [DOT]
    else if IsEscaped(u) then [BACKSLASH, u]
    else [u]
  }

  lemma {:induction false} StarsConcat(a: Text, b: Text)
    ensures ReplaceStars(a + b) == ReplaceStars(a) + ReplaceStars(b)
  {
    if a == [] {
      assert a + b == b;
    } else {
      StarsConcat(a[1..], b);
      assert (a + b)[1..] == a[1..] + b;
      Extend(StarSource(a[0]), ReplaceStars(a[1..]), ReplaceStars(a), ReplaceStars(b));
    }
  }

  lemma {:induction false} QuestionsConcat(a: Text, b: Text)
    ensures ReplaceQuestions(a + b) == ReplaceQuestions(a) + ReplaceQuestions(b)
  {
    if a == [] {
      assert a + b == b;
    } else {
      QuestionsConcat(a[1..], b);
      assert (a + b)[1..] == a[1..] + b;
      Extend([QuestionSource(a[0])], ReplaceQuestions(a[1..]), ReplaceQuestions(a), ReplaceQuestions(b));
    }
  }

  /** The rewrites do not disturb each other's output: they act unit by unit. */
  lemma BodyUnit(pattern: Text)
    requires pattern != []
    ensures RegexBody(pattern) == UnitSource(pattern[0]) + RegexBody(pattern[1..])
  {
    var u := pattern[0];
    var escaped := if IsEscaped(u) then [BACKSLASH, u] else [u];
    var rest := EscapeSpecials(pattern[1..]);
    StarsConcat(escaped, rest);
    QuestionsConcat(ReplaceStars(escaped), ReplaceStars(rest));
    assert ReplaceQuestions(ReplaceStars(escaped)) == UnitSource(u) by {
      if IsEscaped(u) {
        RewritesKeep(BACKSLASH, [u]);
        RewritesKeep(u, []);
      } else if u == STAR {
        assert ReplaceStars([STAR]) == [DOT, STAR] + ReplaceStars([]);
        RewritesKeep(DOT, [STAR]);
        assert ReplaceQuestions([DOT, STAR]) == [DOT] + ReplaceQuestions([DOT, STAR][1..]);
        assert [DOT, STAR][1..] == [STAR];
      } else if u == QUESTION {
        assert ReplaceStars([QUESTION]) == [QUESTION];
      } else {
        RewritesKeep(u, []);
      }
    }
  }

  lemma RewritesKeep(u: CodeUnit, rest: Text)
    requires u != STAR && u != QUESTION
    ensures ReplaceStars([u] + rest) == [u] + ReplaceStars(rest)
    ensures ReplaceQuestions([u] + ReplaceStars(rest)) == [u] + ReplaceQuestions(ReplaceStars(rest))
  {
    assert ([u] + rest)[1..] == rest;
    assert ([u] + ReplaceStars(rest))[1..] == ReplaceStars(rest);
  }

  lemma NoQuantifierAhead(pattern: Text)
    ensures !IsQuantifier((RegexBody(pattern) + [DOLLAR])[0])
  {
    if pattern != [] {
      BodyUnit(pattern);
      assert (RegexBody(pattern) + [DOLLAR])[0] == UnitSource(pattern[0])[0];
    }
  }

  /** The source of one unit is read as its term when no quantifier follows. */
  lemma UnitParses(u: CodeUnit, rest: Text)
    requires rest != [] && !IsQuantifier(rest[0])
    ensures ParseRegex(UnitSource(u) + rest) == Prepend(TermOf(u), ParseRegex(rest))
  {
    var head := UnitSource(u);
    var source := head + rest;
    assert source[|head|..] == rest && source[|head|] == rest[0];
    assert source[0] == head[0];
    assert |head| > 1 ==> source[1] == head[1];
  }

  /** The compiled source is always read back as the terms of the glob. */
  lemma {:induction false} BodyParses(pattern: Text)
    ensures ParseRegex(RegexBody(pattern) + [DOLLAR]) == Terms(TermsOf(pattern) + [End])
  {
    if pattern == [] {
      assert RegexBody(pattern) + [DOLLAR] == [DOLLAR];
      assert ParseRegex([DOLLAR][1..]) == Terms([]);
      assert TermsOf(pattern) + [End] == [End] + [];
    } else {
      var u, rest := pattern[0], RegexBody(pattern[1..]) + [DOLLAR];
      BodyParses(pattern[1..]);
      BodyUnit(pattern);
      Extend(UnitSource(u), RegexBody(pattern[1..]), RegexBody(pattern), [DOLLAR]);
      NoQuantifierAhead(pattern[1..]);
      UnitParses(u, rest);
      Extend([TermOf(u)], TermsOf(pattern[1..]), TermsOf(pattern), [End]);
    }
  }

  lemma GlobParses(pattern: Text)
    ensures ParseRegex(GlobToRegex(pattern)) == Terms([Start] + TermsOf(pattern) + [End])
  {
    var body := RegexBody(pattern) + [DOLLAR];
    BodyParses(pattern);
    assert GlobToRegex(pattern) == [CARET] + body;
    assert ([CARET] + body)[1..] == body;
    assert [Start] + TermsOf(pattern) + [End] == [Start] + (TermsOf(pattern) + [End]);
  }

  predicate Run(t: Text, i: nat, j: nat)
    requires i <= j <= |t|
  {
    OneLine(t[i..j])
  }

  /** The terms match from a position that a run without line terminators leads to. */
  ghost predicate AfterRun(terms: seq<Term>, t: Text, i: nat) {
    exists j :: i <= j <= |t| && Run(t, i, j) && MatchesFrom(terms, t, j)
  }

  lemma RunExtends(t: Text, i: nat, j: nat)
    requires i < j <= |t|
    ensures Run(t, i, j) <==> !IsLineTerminator(t[i]) && Run(t, i + 1, j)
  {
    assert t[i..j] == [t[i]] + t[i + 1..j];
  }

  /** A dot-star matches exactly when some run without line terminators precedes the rest. */
  lemma {:induction false} DotStar(terms: seq<Term>, t: Text, i: nat)
    requires i <= |t| && terms != [] && terms[0] == Repeat(AnyUnit)
    ensures MatchesFrom(terms, t, i) <==> AfterRun(terms[1..], t, i)
    decreases |t| - i
  {
    var rest := terms[1..];
    assert Run(t, i, i);
    if i < |t| {
      DotStar(terms, t, i + 1);
      if !IsLineTerminator(t[i]) && AfterRun(rest, t, i + 1) {
        var j :| i + 1 <= j <= |t| && Run(t, i + 1, j) && MatchesFrom(rest, t, j);
        RunExtends(t, i, j);
      }
      if AfterRun(rest, t, i) {
        var j :| i <= j <= |t| && Run(t, i, j) && MatchesFrom(rest, t, j);
        if j > i { RunExtends(t, i, j); }
      }
    }
  }

  lemma StarMeaning(pattern: Text, t: Text, i: nat)
    requires i <= |t| && pattern != [] && pattern[0] == STAR
    ensures GlobMatches(pattern, t[i..]) <==>
      exists j :: i <= j <= |t| && Run(t, i, j) && GlobMatches(pattern[1..], t[j..])
  {
    var s := t[i..];
    if GlobMatches(pattern, s) {
      var k :| 0 <= k <= |s| && OneLine(s[..k]) && GlobMatches(pattern[1..], s[k..]);
      assert s[..k] == t[i..i + k] && s[k..] == t[i + k..];
      assert Run(t, i, i + k);
    }
    if j :| i <= j <= |t| && Run(t, i, j) && GlobMatches(pattern[1..], t[j..]) {
      assert s[..j - i] == t[i..j] && s[j - i..] == t[j..];
    }
  }

  lemma {:induction false} TermsMatch(pattern: Text, t: Text, i: nat)
    requires i <= |t|
    ensures MatchesFrom(TermsOf(pattern) + [End], t, i) <==> GlobMatches(pattern, t[i..])
    decreases |pattern|
  {
    var terms := TermsOf(pattern) + [End];
    if pattern == [] {
      assert terms[1..] == [];
    } else {
      assert terms[1..] == TermsOf(pattern[1..]) + [End];
      if pattern[0] == STAR {
        DotStar(terms, t, i);
        StarMeaning(pattern, t, i);
        forall j | i <= j <= |t|
          ensures MatchesFrom(terms[1..], t, j) <==> GlobMatches(pattern[1..], t[j..])
        {
          TermsMatch(pattern[1..], t, j);
        }
      } else if i < |t| {
        TermsMatch(pattern[1..], t, i + 1);
        assert t[i..][1..] == t[i + 1..];
      }
    }
  }

  /** For every pattern and name the compiled regular expression accepts what the glob means. */
  lemma GlobToRegexPreservesMeaning(pattern: Text, name: Text)
    ensures RegexTest(GlobToRegex(pattern), name) <==> GlobMatches(pattern, name)
  {
    GlobParses(pattern);
    var terms := [Start] + TermsOf(pattern) + [End];
    assert terms[1..] == TermsOf(pattern) + [End];
    TermsMatch(pattern, name, 0);
    assert name[0..] == name;
    assert MatchesFrom(terms, name, 0) <==> GlobMatches(pattern, name);
    assert forall i :: 0 < i <= |name| ==> !MatchesFrom(terms, name, i);
  }
}
