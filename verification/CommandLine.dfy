/** The tokenizer of the interactive prompt, with simple single and double quotes. */
module CommandLine {
  import opened Sequences
  import opened Utf16
  import opened Wrappers
  import Splitting

  /** What the loop holds between two units. */
  datatype Scan = Scan(tokens: seq<Text>, current: Text, quote: Option<CodeUnit>)

  const START := Scan([], [], None)

  predicate IsQuote(u: CodeUnit) {
    u == DOUBLE_QUOTE || u == SINGLE_QUOTE
  }

  predicate IsBlank(u: CodeUnit) {
    u == SPACE || u == TAB
  }

  function Flush(s: Scan): Scan {
    if s.current == [] then s else s.(tokens := s.tokens + [s.current], current := [])
  }

  function Step(s: Scan, u: CodeUnit): Scan {
    if s.quote.Some? then
      if u == s.quote.value then s.(quote := None) else s.(current := s.current + [u])
    else if IsQuote(u) then s.(quote := Some(u))
    else if IsBlank(u) then Flush(s)
    else s.(current := s.current + [u])
  }

  function ScanAll(s: Scan, input: Text): Scan {
    if input == [] then s else Step(ScanAll(s, input[..|input| - 1]), input[|input| - 1])
  }

  function Parse(input: Text): seq<Text> {
    Flush(ScanAll(START, input)).tokens
  }

  method ParseCommandLine(input: Text) returns (tokens: seq<Text>)
    ensures tokens == Parse(input)
  {
    tokens := [];
    var current: Text := [];
    var quote: Option<CodeUnit> := None;
    for i := 0 to |input|
      invariant Scan(tokens, current, quote) == ScanAll(START, input[..i])
    {
      var ch := input[i];
      assert input[..i + 1][..i] == input[..i];
      if quote.Some? {
        if ch == quote.value {
          quote := None;
        } else {
          current := current + [ch];
        }
        continue;
      }
      if ch == DOUBLE_QUOTE || ch == SINGLE_QUOTE {
        quote := Some(ch);
        continue;
      }
      if ch == SPACE || ch == TAB {
        if |current| > 0 {
          tokens := tokens + [current];
          current := [];
        }
        continue;
      }
      current := current + [ch];
    }
    assert input[..|input|] == input;
    if |current| > 0 {
      tokens := tokens + [current];
    }
  }

  // ---------- Scanning in parts ----------

  lemma {:induction false} ScanConcat(s: Scan, a: Text, b: Text)
    ensures ScanAll(s, a + b) == ScanAll(ScanAll(s, a), b)
  {
    if b == [] {
      assert a + b == a;
    } else {
      assert (a + b)[..|a + b| - 1] == a + b[..|b| - 1];
      ScanConcat(s, a, b[..|b| - 1]);
    }
  }

  lemma ScanUnit(s: Scan, u: CodeUnit)
    ensures ScanAll(s, [u]) == Step(s, u)
  {
    assert [u][..0] == [];
  }

  function After(tokens: seq<Text>, s: Scan): Scan {
    s.(tokens := tokens + s.tokens)
  }

  /** Finished tokens only stand in front of what is found later. */
  lemma {:induction false} ScanAfter(tokens: seq<Text>, s: Scan, input: Text)
    ensures ScanAll(After(tokens, s), input) == After(tokens, ScanAll(s, input))
  {
    if input != [] {
      ScanAfter(tokens, s, input[..|input| - 1]);
      var t := ScanAll(s, input[..|input| - 1]);
      assert tokens + (t.tokens + [t.current]) == tokens + t.tokens + [t.current];
    }
  }

  lemma ParseAfter(tokens: seq<Text>, input: Text)
    ensures Flush(ScanAll(Scan(tokens, [], None), input)).tokens == tokens + Parse(input)
  {
    ScanAfter(tokens, START, input);
    assert After(tokens, START) == Scan(tokens, [], None);
    var t := ScanAll(START, input);
    assert tokens + (t.tokens + [t.current]) == tokens + t.tokens + [t.current];
  }

  // ---------- Concatenation ----------

  predicate EndsOutsideQuotes(input: Text) {
    ScanAll(START, input).quote == None
  }

  lemma ParseSpaced(a: Text, b: Text)
    requires EndsOutsideQuotes(a)
    ensures Parse(a + [SPACE] + b) == Parse(a) + Parse(b)
  {
    ScanConcat(START, a + [SPACE], b);
    ScanConcat(START, a, [SPACE]);
    ScanUnit(ScanAll(START, a), SPACE);
    ParseAfter(Parse(a), b);
  }

  /**
   A space concatenates the tokens of two inputs, whatever the second is, exactly when the
   first ends outside quotes.
   */
  lemma SpaceSeparatesExactlyWhen(a: Text)
    ensures EndsOutsideQuotes(a) <==> forall b :: Parse(a + [SPACE] + b) == Parse(a) + Parse(b)
  {
    if EndsOutsideQuotes(a) {
      forall b ensures Parse(a + [SPACE] + b) == Parse(a) + Parse(b) {
        ParseSpaced(a, b);
      }
    } else {
      var s := ScanAll(START, a);
      QuotesAreQuotes(a);
      var b := [0x78];
      ScanConcat(START, a + [SPACE], b);
      ScanConcat(START, a, [SPACE]);
      ScanUnit(s, SPACE);
      ScanUnit(Step(s, SPACE), 0x78);
      ScanUnit(START, 0x78);
      assert s.current + [SPACE] + [0x78] == s.current + [SPACE, 0x78];
      assert ScanAll(START, a + [SPACE] + b).current == s.current + [SPACE, 0x78];
      assert Parse(a + [SPACE] + b) == s.tokens + [s.current + [SPACE, 0x78]];
      assert START.current + [0x78] == b && START.tokens + [b] == [b];
      assert Parse(b) == [b];
      if s.current == [] {
        assert (Parse(a) + Parse(b))[|s.tokens|] == b;
        assert Parse(a + [SPACE] + b)[|s.tokens|] == s.current + [SPACE, 0x78];
      } else {
        assert |Parse(a) + Parse(b)| == |s.tokens| + 2;
      }
    }
  }

  lemma {:induction false} QuotesAreQuotes(a: Text)
    ensures ScanAll(START, a).quote.Some? ==> IsQuote(ScanAll(START, a).quote.value)
  {
    if a != [] { QuotesAreQuotes(a[..|a| - 1]); }
  }

  // ---------- Round trip ----------

  /** The token inside double quotes; a double quote inside it stands in single quotes. */
  function QuoteBody(token: Text): Text {
    if token == [] then []
    else
      QuoteBody(token[..|token| - 1])
      + (if token[|token| - 1] == DOUBLE_QUOTE
         then [DOUBLE_QUOTE, SINGLE_QUOTE, DOUBLE_QUOTE, SINGLE_QUOTE, DOUBLE_QUOTE]
         else [token[|token| - 1]])
  }

  function Quote(token: Text): Text {
    [DOUBLE_QUOTE] + QuoteBody(token) + [DOUBLE_QUOTE]
  }

  function Render(tokens: seq<Text>): Text {
    if tokens == [] then []
    else if |tokens| == 1 then Quote(tokens[0])
    else Render(tokens[..|tokens| - 1]) + [SPACE] + Quote(tokens[|tokens| - 1])
  }

  lemma ScanEscape(s: Scan)
    requires s.quote == Some(DOUBLE_QUOTE)
    ensures ScanAll(s, [DOUBLE_QUOTE, SINGLE_QUOTE, DOUBLE_QUOTE, SINGLE_QUOTE, DOUBLE_QUOTE])
      == s.(current := s.current + [DOUBLE_QUOTE])
  {
    ScanPair(s, DOUBLE_QUOTE, SINGLE_QUOTE);
    var inside := s.(quote := Some(SINGLE_QUOTE));
    ScanPair(inside, DOUBLE_QUOTE, SINGLE_QUOTE);
    ScanUnit(s.(current := s.current + [DOUBLE_QUOTE], quote := None), DOUBLE_QUOTE);
    ScanConcat(s, [DOUBLE_QUOTE, SINGLE_QUOTE], [DOUBLE_QUOTE, SINGLE_QUOTE]);
    ScanConcat(s, [DOUBLE_QUOTE, SINGLE_QUOTE, DOUBLE_QUOTE, SINGLE_QUOTE], [DOUBLE_QUOTE]);
    assert [DOUBLE_QUOTE, SINGLE_QUOTE] + [DOUBLE_QUOTE, SINGLE_QUOTE]
        == [DOUBLE_QUOTE, SINGLE_QUOTE, DOUBLE_QUOTE, SINGLE_QUOTE];
    assert [DOUBLE_QUOTE, SINGLE_QUOTE, DOUBLE_QUOTE, SINGLE_QUOTE] + [DOUBLE_QUOTE]
        == [DOUBLE_QUOTE, SINGLE_QUOTE, DOUBLE_QUOTE, SINGLE_QUOTE, DOUBLE_QUOTE];
  }

  lemma ScanPair(s: Scan, u: CodeUnit, v: CodeUnit)
    ensures ScanAll(s, [u, v]) == Step(Step(s, u), v)
  {
    ScanConcat(s, [u], [v]);
    ScanUnit(s, u);
    ScanUnit(Step(s, u), v);
    assert [u] + [v] == [u, v];
  }

  lemma {:induction false} ScanQuoteBody(s: Scan, token: Text)
    requires s.quote == Some(DOUBLE_QUOTE)
    ensures ScanAll(s, QuoteBody(token)) == s.(current := s.current + token)
  {
    if token == [] {
      assert s.current + token == s.current;
    } else {
      var init, last := token[..|token| - 1], token[|token| - 1];
      ScanQuoteBody(s, init);
      var mid := s.(current := s.current + init);
      assert s.current + init + [last] == s.current + token;
      if last == DOUBLE_QUOTE {
        ScanConcat(s, QuoteBody(init), [DOUBLE_QUOTE, SINGLE_QUOTE, DOUBLE_QUOTE, SINGLE_QUOTE, DOUBLE_QUOTE]);
        ScanEscape(mid);
      } else {
        ScanConcat(s, QuoteBody(init), [last]);
        ScanUnit(mid, last);
      }
    }
  }

  lemma ScanQuote(tokens: seq<Text>, token: Text)
    ensures ScanAll(Scan(tokens, [], None), Quote(token)) == Scan(tokens, token, None)
  {
    var s := Scan(tokens, [], None);
    ScanConcat(s, [DOUBLE_QUOTE] + QuoteBody(token), [DOUBLE_QUOTE]);
    ScanConcat(s, [DOUBLE_QUOTE], QuoteBody(token));
    ScanUnit(s, DOUBLE_QUOTE);
    ScanQuoteBody(s.(quote := Some(DOUBLE_QUOTE)), token);
    ScanUnit(Scan(tokens, token, Some(DOUBLE_QUOTE)), DOUBLE_QUOTE);
    assert [] + token == token;
  }

  lemma {:induction false} ScanRender(tokens: seq<Text>)
    requires tokens != [] && forall t :: t in tokens ==> t != []
    ensures ScanAll(START, Render(tokens)) == Scan(tokens[..|tokens| - 1], tokens[|tokens| - 1], None)
  {
    var init, last := tokens[..|tokens| - 1], tokens[|tokens| - 1];
    if |tokens| == 1 {
      ScanQuote([], last);
      assert init == [];
    } else {
      forall t | t in init ensures t != [] { assert t in tokens; }
      ScanRender(init);
      ScanConcat(START, Render(init) + [SPACE], Quote(last));
      ScanConcat(START, Render(init), [SPACE]);
      assert init[|init| - 1] in tokens;
      ScanUnit(Scan(init[..|init| - 1], init[|init| - 1], None), SPACE);
      assert init[..|init| - 1] + [init[|init| - 1]] == init;
      ScanQuote(init, last);
    }
  }

  /** Parsing undoes quoting, for every list of non-empty tokens over any units. */
  lemma RoundTrip(tokens: seq<Text>)
    requires forall t :: t in tokens ==> t != []
    ensures Parse(Render(tokens)) == tokens
  {
    if tokens != [] {
      ScanRender(tokens);
      assert tokens[|tokens| - 1] in tokens;
      assert tokens[..|tokens| - 1] + [tokens[|tokens| - 1]] == tokens;
    }
  }

  /** No input yields an empty token, so only lists of non-empty tokens can be read back. */
  lemma {:induction false} NoEmptyToken(input: Text)
    ensures forall t :: t in ScanAll(START, input).tokens ==> t != []
    ensures forall t :: t in Parse(input) ==> t != []
  {
    if input != [] { NoEmptyToken(input[..|input| - 1]); }
  }

  // ---------- What every input reads as ----------

  /** A part of a word: plain units, a quoted text, or one whose closing quote is missing. */
  datatype Stretch =
    | Plain(text: Text)
    | Quoted(mark: CodeUnit, text: Text)
    | Unclosed(mark: CodeUnit, text: Text)

  predicate IsPlain(t: Text) {
    forall i :: 0 <= i < |t| ==> !IsQuote(t[i]) && !IsBlank(t[i])
  }

  predicate AllBlank(t: Text) {
    forall i :: 0 <= i < |t| ==> IsBlank(t[i])
  }

  predicate Shaped(stretch: Stretch) {
    match stretch
    case Plain(text) => IsPlain(text)
    case Quoted(mark, text) => IsQuote(mark) && mark !in text
    case Unclosed(mark, text) => IsQuote(mark) && mark !in text
  }

  function Source(stretch: Stretch): Text {
    match stretch
    case Plain(text) => text
    case Quoted(mark, text) => [mark] + text + [mark]
    case Unclosed(mark, text) => [mark] + text
  }

  /** A word is written as its stretches one behind the other. */
  function WordSource(word: seq<Stretch>): Text {
    if word == [] then [] else WordSource(word[..|word| - 1]) + Source(word[|word| - 1])
  }

  /** It stands for their texts one behind the other. */
  function WordText(word: seq<Stretch>): Text {
    if word == [] then [] else WordText(word[..|word| - 1]) + word[|word| - 1].text
  }

  predicate EndsOpen(word: seq<Stretch>) {
    word != [] && word[|word| - 1].Unclosed?
  }

  predicate WordShaped(word: seq<Stretch>) {
    forall i :: 0 <= i < |word| ==> Shaped(word[i]) && (word[i].Unclosed? ==> i == |word| - 1)
  }

  /** Words with blanks around them: at least one between two words, none behind an open quote. */
  predicate Laid(words: seq<seq<Stretch>>, gaps: seq<Text>) {
    && |gaps| == |words| + 1
    && (forall i :: 0 <= i < |gaps| ==> AllBlank(gaps[i]))
    && (forall i :: 0 < i < |words| ==> gaps[i] != [])
    && (forall i :: 0 <= i < |words| ==> WordShaped(words[i]))
    && (forall i :: 0 <= i < |words| && EndsOpen(words[i]) ==> i == |words| - 1 && gaps[i + 1] == [])
  }

  function InputOf(words: seq<seq<Stretch>>, gaps: seq<Text>): Text
    requires |gaps| == |words| + 1
  {
    var n := |words|;
    if n == 0 then gaps[0] else InputOf(words[..n - 1], gaps[..n]) + WordSource(words[n - 1]) + gaps[n]
  }

  /** The texts of the words that are not empty, in order. */
  function TokensOf(words: seq<seq<Stretch>>): seq<Text> {
    if words == [] then []
    else
      var last := WordText(words[|words| - 1]);
      TokensOf(words[..|words| - 1]) + if last == [] then [] else [last]
  }

  lemma {:induction false} ScanPlain(s: Scan, t: Text)
    requires s.quote == None && IsPlain(t)
    ensures ScanAll(s, t) == s.(current := s.current + t)
  {
    if t == [] {
      assert s.current + t == s.current;
    } else {
      var init := t[..|t| - 1];
      ScanPlain(s, init);
      assert s.current + t == s.current + init + [t[|t| - 1]];
    }
  }

  lemma {:induction false} ScanInside(s: Scan, t: Text)
    requires s.quote.Some? && s.quote.value !in t
    ensures ScanAll(s, t) == s.(current := s.current + t)
  {
    if t == [] {
      assert s.current + t == s.current;
    } else {
      var init, last := t[..|t| - 1], t[|t| - 1];
      assert last in t && forall u :: u in init ==> u in t;
      ScanInside(s, init);
      assert s.current + t == s.current + init + [last];
    }
  }

  lemma {:induction false} ScanBlanks(s: Scan, t: Text)
    requires s.quote == None && AllBlank(t)
    ensures ScanAll(s, t) == if t == [] then s else Flush(s)
  {
    if t != [] { ScanBlanks(s, t[..|t| - 1]); }
  }

  function OpenMark(stretch: Stretch): Option<CodeUnit> {
    if stretch.Unclosed? then Some(stretch.mark) else None
  }

  lemma ScanStretch(s: Scan, stretch: Stretch)
    requires s.quote == None && Shaped(stretch)
    ensures ScanAll(s, Source(stretch)) == s.(current := s.current + stretch.text, quote := OpenMark(stretch))
  {
    if stretch.Plain? {
      ScanPlain(s, stretch.text);
    } else {
      var mark, text := stretch.mark, stretch.text;
      ScanConcat(s, [mark], text);
      ScanUnit(s, mark);
      ScanInside(s.(quote := Some(mark)), text);
      if stretch.Quoted? {
        ScanConcat(s, [mark] + text, [mark]);
        ScanUnit(s.(current := s.current + text, quote := Some(mark)), mark);
      }
    }
  }

  lemma InitShaped(word: seq<Stretch>)
    requires WordShaped(word) && word != []
    ensures WordShaped(word[..|word| - 1]) && !EndsOpen(word[..|word| - 1]) && Shaped(word[|word| - 1])
  {
  }

  lemma {:induction false} ScanWord(s: Scan, word: seq<Stretch>)
    requires s.quote == None && WordShaped(word)
    ensures ScanAll(s, WordSource(word))
      == s.(current := s.current + WordText(word),
            quote := if EndsOpen(word) then Some(word[|word| - 1].mark) else None)
  {
    if word == [] {
      assert s.current + [] == s.current;
    } else {
      var init, last := word[..|word| - 1], word[|word| - 1];
      InitShaped(word);
      ScanWord(s, init);
      var mid := s.(current := s.current + WordText(init));
      ScanConcat(s, WordSource(init), Source(last));
      ScanStretch(mid, last);
      Extend(s.current, WordText(init), mid.current, last.text);
    }
  }

  /** What is left to flush behind the words is at most the text of the last one. */
  lemma ScanNextWord(before: Text, word: seq<Stretch>, gap: Text)
    requires ScanAll(START, before).current == [] && ScanAll(START, before).quote == None
    requires WordShaped(word) && AllBlank(gap) && (EndsOpen(word) ==> gap == [])
    ensures var s, t := ScanAll(START, before), ScanAll(START, before + WordSource(word) + gap);
      && Flush(t).tokens == s.tokens + (if WordText(word) == [] then [] else [WordText(word)])
      && (gap != [] ==> t.current == [])
      && (t.quote.Some? <==> EndsOpen(word))
  {
    var s := ScanAll(START, before);
    ScanConcat(START, before, WordSource(word));
    ScanWord(s, word);
    assert [] + WordText(word) == WordText(word);
    ScanConcat(START, before + WordSource(word), gap);
    if gap == [] {
      assert before + WordSource(word) + gap == before + WordSource(word);
    } else {
      ScanBlanks(ScanAll(s, WordSource(word)), gap);
    }
  }

  lemma LaidInit(words: seq<seq<Stretch>>, gaps: seq<Text>)
    requires Laid(words, gaps) && words != []
    ensures var n := |words|;
      && Laid(words[..n - 1], gaps[..n])
      && (n > 1 ==> gaps[n - 1] != [] && !EndsOpen(words[n - 2]))
      && WordShaped(words[n - 1]) && AllBlank(gaps[n]) && (EndsOpen(words[n - 1]) ==> gaps[n] == [])
  {
  }

  lemma {:induction false} ScanLaid(words: seq<seq<Stretch>>, gaps: seq<Text>)
    requires Laid(words, gaps)
    ensures var s := ScanAll(START, InputOf(words, gaps));
      && Flush(s).tokens == TokensOf(words)
      && (gaps[|words|] != [] || words == [] ==> s.current == [])
      && (s.quote.Some? <==> words != [] && EndsOpen(words[|words| - 1]))
  {
    var n := |words|;
    if n == 0 {
      ScanBlanks(START, gaps[0]);
    } else {
      LaidInit(words, gaps);
      ScanLaid(words[..n - 1], gaps[..n]);
      ScanNextWord(InputOf(words[..n - 1], gaps[..n]), words[n - 1], gaps[n]);
    }
  }

  /**
   The tokens of an input are the texts of its words that are not empty: neighbouring plain and
   quoted stretches make one token, and blanks outside quotes stand between tokens.
   */
  lemma ParseMeans(words: seq<seq<Stretch>>, gaps: seq<Text>)
    requires Laid(words, gaps)
    ensures Parse(InputOf(words, gaps)) == TokensOf(words)
  {
    ScanLaid(words, gaps);
  }

  lemma LaidMore(words: seq<seq<Stretch>>, gaps: seq<Text>, word: seq<Stretch>)
    requires Laid(words, gaps) && WordShaped(word)
    requires words == [] || (gaps[|words|] != [] && !EndsOpen(words[|words| - 1]))
    ensures Laid(words + [word], gaps + [[]])
  {
  }

  lemma InputNext(words: seq<seq<Stretch>>, gaps: seq<Text>, word: seq<Stretch>, gap: Text)
    requires |gaps| == |words| + 1
    ensures InputOf(words + [word], gaps + [gap]) == InputOf(words, gaps) + WordSource(word) + gap
  {
    assert (words + [word])[..|words|] == words && (gaps + [gap])[..|words| + 1] == gaps;
  }

  lemma OneMoreWord(words: seq<seq<Stretch>>, gaps: seq<Text>, stretch: Stretch)
    requires Laid(words, gaps) && Shaped(stretch)
    requires words == [] || (gaps[|words|] != [] && !EndsOpen(words[|words| - 1]))
    ensures Laid(words + [[stretch]], gaps + [[]])
    ensures InputOf(words + [[stretch]], gaps + [[]]) == InputOf(words, gaps) + Source(stretch)
  {
    OneStretch(stretch);
    LaidMore(words, gaps, [stretch]);
    InputNext(words, gaps, [stretch], []);
    NothingBehind(InputOf(words, gaps) + Source(stretch));
  }

  lemma OneStretch(stretch: Stretch)
    ensures WordSource([stretch]) == Source(stretch) && WordText([stretch]) == stretch.text
    ensures Shaped(stretch) ==> WordShaped([stretch])
  {
    assert [stretch][..0] == [] && [] + Source(stretch) == Source(stretch) && [] + stretch.text == stretch.text;
  }

  lemma NothingBehind(t: Text)
    ensures t + [] == t
  {
  }

  /** The last word is replaced by another that ends differently. */
  lemma LastWordReplaced(words: seq<seq<Stretch>>, gaps: seq<Text>, word: seq<Stretch>)
    requires Laid(words, gaps) && words != [] && gaps[|words|] == [] && WordShaped(word)
    ensures Laid(words[..|words| - 1] + [word], gaps)
    ensures InputOf(words[..|words| - 1] + [word], gaps)
      == InputOf(words[..|words| - 1], gaps[..|words|]) + WordSource(word)
  {
    var init := words[..|words| - 1];
    assert (init + [word])[..|init|] == init;
  }

  lemma GapLonger(words: seq<seq<Stretch>>, gaps: seq<Text>, u: CodeUnit)
    requires Laid(words, gaps) && IsBlank(u) && (words != [] ==> !EndsOpen(words[|words| - 1]))
    ensures var n := |words|;
      Laid(words, gaps[n := gaps[n] + [u]]) && InputOf(words, gaps[n := gaps[n] + [u]]) == InputOf(words, gaps) + [u]
  {
    var n := |words|;
    assert gaps[n := gaps[n] + [u]][..n] == gaps[..n];
    if n > 0 {
      var before := InputOf(words[..n - 1], gaps[..n]) + WordSource(words[n - 1]);
      assert before + (gaps[n] + [u]) == before + gaps[n] + [u];
    }
  }

  /** The last word with one more unit, its open quote going on or ending there. */
  function Continued(word: seq<Stretch>, u: CodeUnit): seq<Stretch> {
    if !EndsOpen(word) then word + [if IsQuote(u) then Unclosed(u, []) else Plain([u])]
    else
      var init, last := word[..|word| - 1], word[|word| - 1];
      init + [if u == last.mark then Quoted(last.mark, last.text) else Unclosed(last.mark, last.text + [u])]
  }

  lemma ContinuedSource(word: seq<Stretch>, u: CodeUnit)
    requires WordShaped(word) && (EndsOpen(word) || !IsBlank(u))
    ensures WordShaped(Continued(word, u)) && WordSource(Continued(word, u)) == WordSource(word) + [u]
  {
    var longer := Continued(word, u);
    if !EndsOpen(word) {
      assert longer[..|word|] == word;
    } else {
      var init, last := word[..|word| - 1], word[|word| - 1];
      assert longer[..|init|] == init;
      assert WordSource(init) + ([last.mark] + last.text + [u]) == WordSource(init) + ([last.mark] + last.text) + [u];
      assert [last.mark] + (last.text + [u]) == [last.mark] + last.text + [u];
    }
  }

  /** One more unit of input makes the last word or the last gap longer or begins a word. */
  lemma LaidNext(words: seq<seq<Stretch>>, gaps: seq<Text>, u: CodeUnit)
    returns (w: seq<seq<Stretch>>, g: seq<Text>)
    requires Laid(words, gaps)
    ensures Laid(w, g) && InputOf(w, g) == InputOf(words, gaps) + [u]
  {
    var n := |words|;
    if n > 0 && (EndsOpen(words[n - 1]) || (gaps[n] == [] && !IsBlank(u))) {
      w, g := words[..n - 1] + [Continued(words[n - 1], u)], gaps;
      LastWordLonger(words, gaps, u);
    } else if IsBlank(u) {
      w, g := words, gaps[n := gaps[n] + [u]];
      GapLonger(words, gaps, u);
    } else {
      var stretch := if IsQuote(u) then Unclosed(u, []) else Plain([u]);
      w, g := words + [[stretch]], gaps + [[]];
      OneMoreWord(words, gaps, stretch);
    }
  }

  lemma LastWordLonger(words: seq<seq<Stretch>>, gaps: seq<Text>, u: CodeUnit)
    requires Laid(words, gaps) && words != [] && gaps[|words|] == []
    requires EndsOpen(words[|words| - 1]) || !IsBlank(u)
    ensures var w := words[..|words| - 1] + [Continued(words[|words| - 1], u)];
      Laid(w, gaps) && InputOf(w, gaps) == InputOf(words, gaps) + [u]
  {
    var init, last := words[..|words| - 1], words[|words| - 1];
    ContinuedSource(last, u);
    LastWordReplaced(words, gaps, last);
    LastWordReplaced(words, gaps, Continued(last, u));
    assert init + [last] == words;
    var before := InputOf(init, gaps[..|words|]);
    Extend(before, WordSource(last), before + WordSource(last), [u]);
  }

  /** Every input is such words with such gaps: together they say what every input parses to. */
  lemma {:induction false} EveryInputLaid(input: Text) returns (words: seq<seq<Stretch>>, gaps: seq<Text>)
    ensures Laid(words, gaps) && InputOf(words, gaps) == input
  {
    if input == [] {
      words, gaps := [], [[]];
    } else {
      LastApart([], input);
      var w, g := EveryInputLaid(input[..|input| - 1]);
      words, gaps := LaidNext(w, g, input[|input| - 1]);
    }
  }

  // ---------- Plain words ----------

  function PlainWords(tokens: seq<Text>): (words: seq<seq<Stretch>>)
    ensures |words| == |tokens|
  {
    seq(|tokens|, i requires 0 <= i < |tokens| => [Plain(tokens[i])])
  }

  /** One separator between two words, none around them. */
  function SingleGaps(n: nat, separator: CodeUnit): (gaps: seq<Text>)
    ensures |gaps| == n + 1
  {
    seq(n + 1, i => if 0 < i < n then [separator] else [])
  }

  lemma TokensNext(words: seq<seq<Stretch>>, word: seq<Stretch>)
    ensures TokensOf(words + [word]) == TokensOf(words) + if WordText(word) == [] then [] else [WordText(word)]
  {
    assert (words + [word])[..|words|] == words;
  }

  lemma PlainNext(tokens: seq<Text>, token: Text)
    ensures PlainWords(tokens + [token]) == PlainWords(tokens) + [[Plain(token)]]
  {
  }

  lemma {:induction false} PlainTokens(tokens: seq<Text>)
    requires [] !in tokens
    ensures TokensOf(PlainWords(tokens)) == tokens
  {
    if tokens != [] {
      var init, last := tokens[..|tokens| - 1], tokens[|tokens| - 1];
      LastApart([], tokens);
      PlainTokens(init);
      PlainNext(init, last);
      OneStretch(Plain(last));
      TokensNext(PlainWords(init), [Plain(last)]);
    }
  }

  lemma {:induction false} PlainInput(tokens: seq<Text>, gaps: seq<Text>, separator: CodeUnit)
    requires |gaps| == |tokens| + 1 && gaps[0] == []
    requires forall i :: 0 < i < |tokens| ==> gaps[i] == [separator]
    ensures InputOf(PlainWords(tokens), gaps)
      == Splitting.Joined(tokens, separator) + if tokens == [] then [] else gaps[|tokens|]
  {
    var n := |tokens|;
    if n > 0 {
      var init, last := tokens[..n - 1], tokens[n - 1];
      PlainInput(init, gaps[..n], separator);
      LastApart([], tokens);
      LastApart([], gaps);
      PlainNext(init, last);
      OneStretch(Plain(last));
      InputNext(PlainWords(init), gaps[..n], [Plain(last)], gaps[n]);
      assert [] + last == last;
    }
  }

  /** Words without quotes and blanks come back from their text as typed, with spaces or tabs between them. */
  lemma PlainJoined(tokens: seq<Text>, separator: CodeUnit)
    requires IsBlank(separator)
    requires forall i :: 0 <= i < |tokens| ==> tokens[i] != [] && IsPlain(tokens[i])
    ensures Parse(Splitting.Joined(tokens, separator)) == tokens
  {
    var words, gaps := PlainWords(tokens), SingleGaps(|tokens|, separator);
    assert Laid(words, gaps);
    PlainInput(tokens, gaps, separator);
    PlainTokens(tokens);
    ParseMeans(words, gaps);
    assert Splitting.Joined(tokens, separator) + [] == Splitting.Joined(tokens, separator);
  }
}
