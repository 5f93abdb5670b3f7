/**
 Greedy line wrapping to a column width. The display width of a string is a parameter; the
 width of a line is the widths of its words plus one column for each space between them.
 */
module Terminal {
  import opened Sequences
  import Splitting
  import opened Utf16

  datatype WrapOptions = WrapOptions(hard: bool, wordWrap: bool, trim: bool)

  // ---------- Splitting at white space ----------

  /** The length of the leading run of units that are, or are not, white space. */
  function RunLength(t: Text, space: bool): (n: nat)
    ensures n <= |t|
    ensures forall i :: 0 <= i < n ==> IsSpace(t[i]) == space
    ensures n < |t| ==> IsSpace(t[n]) != space
  {
    if t == [] || IsSpace(t[0]) != space then 0 else 1 + RunLength(t[1..], space)
  }

  /** The parts of a text between its runs of white space. */
  function Split(t: Text): (words: seq<Text>)
    ensures words != []
    decreases |t|
  {
    var n := RunLength(t, false);
    if n == |t| then [t]
    else [t[..n]] + Split(t[n + RunLength(t[n..], true)..])
  }

  // ---------- What wrapping may not change ----------

  /** The units that are not white space, in order. */
  function Visible(t: Text): Text {
    if t == [] then []
    else Visible(t[..|t| - 1]) + if IsSpace(t[|t| - 1]) then [] else [t[|t| - 1]]
  }

  /** The words of a text: its maximal runs without white space, in order. */
  function Words(t: Text): seq<Text>
    decreases |t|
  {
    var n := RunLength(t, false);
    if t == [] then []
    else if n == 0 then Words(t[1..])
    else [t[..n]] + Words(t[n..])
  }

  function VisibleOf(parts: seq<Text>): Text {
    if parts == [] then [] else VisibleOf(parts[..|parts| - 1]) + Visible(parts[|parts| - 1])
  }

  function WordsOf(parts: seq<Text>): seq<Text> {
    if parts == [] then [] else WordsOf(parts[..|parts| - 1]) + Words(parts[|parts| - 1])
  }

  lemma {:induction false} VisibleConcat(a: Text, b: Text)
    ensures Visible(a + b) == Visible(a) + Visible(b)
  {
    if b == [] {
      assert a + b == a;
    } else {
      var init := b[..|b| - 1];
      assert (a + b)[..|a + b| - 1] == a + init;
      VisibleConcat(a, init);
    }
  }

  lemma {:induction false} VisibleOfSpaces(t: Text)
    requires forall i :: 0 <= i < |t| ==> IsSpace(t[i])
    ensures Visible(t) == []
  {
    if t != [] { VisibleOfSpaces(t[..|t| - 1]); }
  }

  lemma {:induction false} VisibleTrim(t: Text)
    ensures Visible(TrimEnd(t)) == Visible(t)
  {
    if t != [] && IsSpace(t[|t| - 1]) { VisibleTrim(t[..|t| - 1]); }
  }

  lemma FirstWord(t: Text)
    requires t != []
    ensures var n := RunLength(t, false);
      Words(t) == if n == 0 then Words(t[1..]) else [t[..n]] + Words(t[n..])
  {
  }

  lemma CutAround<T>(a: seq<T>, s: T, b: seq<T>, m: nat)
    requires m <= |a|
    ensures (a + [s] + b)[m..] == a[m..] + [s] + b
    ensures (a + [s] + b)[..m] == a[..m]
  {
  }

  /** A white space unit separates the words before it from the words after it. */
  lemma {:induction false} WordsConcat(a: Text, s: CodeUnit, b: Text)
    requires IsSpace(s)
    ensures Words(a + [s] + b) == Words(a) + Words(b)
    decreases |a|
  {
    FirstWord(a + [s] + b);
    RunStops(a, s, b);
    var n := RunLength(a, false);
    if a == [] {
      assert (a + [s] + b)[1..] == b;
      assert [] + Words(b) == Words(b);
    } else if n == 0 {
      FirstWord(a);
      CutAround(a, s, b, 1);
      WordsConcat(a[1..], s, b);
    } else {
      FirstWord(a);
      CutAround(a, s, b, n);
      WordsConcat(a[n..], s, b);
      Extend([a[..n]], Words(a[n..]), Words(a), Words(b));
    }
  }

  lemma {:induction false} RunStops(a: Text, s: CodeUnit, b: Text)
    requires IsSpace(s)
    ensures RunLength(a + [s] + b, false) == RunLength(a, false)
  {
    var t := a + [s] + b;
    var n, m := RunLength(a, false), RunLength(t, false);
    assert t[|a|] == s;
    assert n < |a| ==> t[n] == a[n];
    assert m < |a| ==> t[m] == a[m];
  }

  lemma {:induction false} WordsTrim(t: Text)
    ensures Words(TrimEnd(t)) == Words(t)
  {
    if t != [] && IsSpace(t[|t| - 1]) {
      var init := t[..|t| - 1];
      WordsTrim(init);
      WordsConcat(init, t[|t| - 1], []);
      assert t == init + [t[|t| - 1]] + [];
    }
  }

  lemma {:induction false} WordsAfterSpaces(t: Text, n: nat)
    requires n <= |t| && forall i :: 0 <= i < n ==> IsSpace(t[i])
    ensures Words(t[n..]) == Words(t)
  {
    if n > 0 {
      assert t == [] + [t[0]] + t[1..];
      WordsConcat([], t[0], t[1..]);
      WordsAfterSpaces(t[1..], n - 1);
      assert t[1..][n - 1..] == t[n..];
    } else {
      assert t[0..] == t;
    }
  }

  lemma OfLast(words: seq<Text>, word: Text)
    ensures VisibleOf(words + [word]) == VisibleOf(words) + Visible(word)
    ensures WordsOf(words + [word]) == WordsOf(words) + Words(word)
  {
    assert (words + [word])[..|words|] == words;
  }

  lemma OfOne(word: Text)
    ensures VisibleOf([word]) == Visible(word) && WordsOf([word]) == Words(word)
  {
    OfLast([], word);
    assert [] + [word] == [word];
    assert [] + Visible(word) == Visible(word) && [] + Words(word) == Words(word);
  }

  lemma {:induction false} OfConcat(a: seq<Text>, b: seq<Text>)
    ensures VisibleOf(a + b) == VisibleOf(a) + VisibleOf(b)
    ensures WordsOf(a + b) == WordsOf(a) + WordsOf(b)
  {
    if b == [] {
      assert a + b == a;
    } else {
      var init, last := b[..|b| - 1], b[|b| - 1];
      OfConcat(a, init);
      OfLast(a + init, last);
      OfLast(init, last);
      LastApart(a, b);
      Extend(VisibleOf(a), VisibleOf(init), VisibleOf(a + init), Visible(last));
      Extend(WordsOf(a), WordsOf(init), WordsOf(a + init), Words(last));
    }
  }

  lemma OfFirst(p: Text, parts: seq<Text>)
    ensures VisibleOf([p] + parts) == Visible(p) + VisibleOf(parts)
    ensures WordsOf([p] + parts) == Words(p) + WordsOf(parts)
  {
    OfConcat([p], parts);
    OfOne(p);
  }

  lemma VisibleAfterSpaces(spaces: Text, rest: Text)
    requires forall i :: 0 <= i < |spaces| ==> IsSpace(spaces[i])
    ensures Visible(spaces + rest) == Visible(rest)
    ensures Visible(rest + spaces) == Visible(rest)
  {
    VisibleConcat(spaces, rest);
    VisibleConcat(rest, spaces);
    VisibleOfSpaces(spaces);
    assert [] + Visible(rest) == Visible(rest) + [] == Visible(rest);
  }

  lemma VisibleAround(word: Text, spaces: Text, rest: Text)
    requires forall i :: 0 <= i < |spaces| ==> IsSpace(spaces[i])
    ensures Visible(word + (spaces + rest)) == Visible(word) + Visible(rest)
  {
    VisibleConcat(word, spaces + rest);
    VisibleAfterSpaces(spaces, rest);
  }

  lemma WordsAround(word: Text, spaces: Text, rest: Text)
    requires RunLength(word + (spaces + rest), false) == |word| && spaces != []
    requires forall i :: 0 <= i < |spaces| ==> IsSpace(spaces[i])
    ensures Words(word + (spaces + rest)) == Words(word) + Words(rest)
  {
    var t := word + (spaces + rest);
    assert t[..|word|] == word && t[|word|..] == spaces + rest;
    WordOfRun(t, |word|);
    WordsAfterSpaces(spaces + rest, |spaces|);
    assert (spaces + rest)[|spaces|..] == rest;
  }

  lemma CutTwice<T>(t: seq<T>, n: nat, m: nat)
    requires n + m <= |t|
    ensures t[n..][m..] == t[n + m..]
    ensures t == t[..n] + (t[n..][..m] + t[n + m..])
  {
  }

  /** The first cut that splitting makes: a word, a run of white space, and the rest. */
  ghost predicate FirstCut(t: Text, word: Text, spaces: Text, rest: Text) {
    && t == word + (spaces + rest)
    && |word| == RunLength(t, false) < |t|
    && |spaces| == RunLength(t[|word|..], true)
  }

  lemma CutFirst(t: Text) returns (word: Text, spaces: Text, rest: Text)
    requires RunLength(t, false) < |t|
    ensures FirstCut(t, word, spaces, rest)
  {
    var n := RunLength(t, false);
    var m := RunLength(t[n..], true);
    CutTwice(t, n, m);
    word, spaces, rest := t[..n], t[n..][..m], t[n + m..];
  }

  lemma SpacesOfCut(t: Text, word: Text, spaces: Text, rest: Text)
    requires FirstCut(t, word, spaces, rest)
    ensures spaces != []
    ensures forall i :: 0 <= i < |spaces| ==> IsSpace(spaces[i])
    ensures rest != [] ==> !IsSpace(rest[0])
  {
    var suffix := t[|word|..];
    assert suffix == spaces + rest;
    assert suffix[0] == t[|word|];
    if rest != [] {
      assert |spaces| < |suffix| && suffix[|spaces|] == rest[0];
      assert !IsSpace(suffix[|spaces|]);
    }
    forall i | 0 <= i < |spaces| ensures IsSpace(spaces[i]) {
      assert spaces[i] == suffix[i];
    }
  }

  lemma SplitStep(t: Text, n: nat, m: nat)
    requires n == RunLength(t, false) < |t| && m == RunLength(t[n..], true)
    ensures Split(t) == [t[..n]] + Split(t[n + m..])
  {
  }

  lemma SplitOfCut(t: Text, word: Text, spaces: Text, rest: Text)
    requires FirstCut(t, word, spaces, rest)
    ensures Split(t) == [word] + Split(rest)
  {
    SplitStep(t, |word|, |spaces|);
    assert t[..|word|] == word;
    assert t[|word| + |spaces|..] == rest;
  }

  /** Parts with gaps between them. */
  function Interleaved(parts: seq<Text>, gaps: seq<Text>): Text
    requires |parts| == |gaps| + 1
  {
    if gaps == [] then parts[0] else parts[0] + (gaps[0] + Interleaved(parts[1..], gaps[1..]))
  }

  ghost predicate AllSpace(t: Text) {
    forall i :: 0 <= i < |t| ==> IsSpace(t[i])
  }

  ghost predicate NoSpace(t: Text) {
    forall i :: 0 <= i < |t| ==> !IsSpace(t[i])
  }

  /** The parts hold no white space, and non-empty runs of white space between them make up the text. */
  lemma {:induction false} SplitMeans(t: Text) returns (gaps: seq<Text>)
    ensures |Split(t)| == |gaps| + 1 && Interleaved(Split(t), gaps) == t
    ensures forall i :: 0 <= i < |Split(t)| ==> NoSpace(Split(t)[i])
    ensures forall i :: 0 <= i < |gaps| ==> gaps[i] != [] && AllSpace(gaps[i])
    ensures forall i :: 0 < i < |gaps| ==> Split(t)[i] != []
    decreases |t|
  {
    if RunLength(t, false) == |t| {
      gaps := [];
    } else {
      var word, spaces, rest := CutFirst(t);
      SpacesOfCut(t, word, spaces, rest);
      SplitOfCut(t, word, spaces, rest);
      var later := SplitMeans(rest);
      gaps := [spaces] + later;
      assert ([word] + Split(rest))[1..] == Split(rest) && gaps[1..] == later;
      assert NoSpace(word);
      if later != [] {
        assert Split(rest)[0] == rest[..RunLength(rest, false)];
      }
      forall i | 0 < i < |gaps| ensures Split(t)[i] != [] {
        assert Split(t)[i] == Split(rest)[i - 1];
      }
    }
  }

  /** Splitting loses no visible unit. */
  lemma {:induction false} SplitKeepsVisible(t: Text)
    ensures VisibleOf(Split(t)) == Visible(t)
    decreases |t|
  {
    if RunLength(t, false) == |t| {
      OfOne(t);
    } else {
      var word, spaces, rest := CutFirst(t);
      SpacesOfCut(t, word, spaces, rest);
      SplitOfCut(t, word, spaces, rest);
      SplitKeepsVisible(rest);
      OfFirst(word, Split(rest));
      VisibleAround(word, spaces, rest);
    }
  }

  /** Splitting keeps the words; its other parts are empty. */
  lemma {:induction false} SplitKeepsWords(t: Text)
    ensures WordsOf(Split(t)) == Words(t)
    decreases |t|
  {
    if RunLength(t, false) == |t| {
      OfOne(t);
    } else {
      var word, spaces, rest := CutFirst(t);
      SpacesOfCut(t, word, spaces, rest);
      SplitOfCut(t, word, spaces, rest);
      SplitKeepsWords(rest);
      OfFirst(word, Split(rest));
      WordsAround(word, spaces, rest);
    }
  }

  lemma WholeRun(w: Text)
    requires w != [] && forall i :: 0 <= i < |w| ==> !IsSpace(w[i])
    ensures RunLength(w, false) == |w| && Words(w) == [w]
  {
    var n := RunLength(w, false);
    assert n == |w|;
    assert w[..n] == w && w[n..] == [];
    assert [w] + [] == [w];
  }

  lemma WordOfRun(t: Text, n: nat)
    requires n == RunLength(t, false) < |t|
    ensures Words(t) == Words(t[..n]) + Words(t[n..])
  {
    var w := t[..n];
    if n == 0 {
      assert w == [] && t[0..] == t;
      assert [] + Words(t) == Words(t);
    } else {
      assert w[..n] == w && w[n..] == [];
      assert Words(w) == [w] by { WholeRun(w); }
    }
  }

  // ---------- Layout ----------

  /** The width of a line made of these words and single spaces. */
  function LineWidth(width: Text -> nat, words: seq<Text>): nat {
    if words == [] then 0
    else
      LineWidth(width, words[..|words| - 1])
      + (if |words| > 1 then 1 else 0) + width(words[|words| - 1])
  }

  /** The number of words, k or more, after which the next one no longer fits. */
  function FitCount(width: Text -> nat, words: seq<Text>, columns: int, k: nat): (n: nat)
    requires 1 <= k <= |words|
    ensures k <= n <= |words|
    decreases |words| - k
  {
    if k < |words| && LineWidth(width, words[..k + 1]) <= columns then FitCount(width, words, columns, k + 1)
    else k
  }

  /** The greedy division of words into lines. */
  function GreedyLines(width: Text -> nat, words: seq<Text>, columns: int): seq<seq<Text>>
    decreases |words|
  {
    if words == [] then []
    else
      var k := FitCount(width, words, columns, 1);
      [words[..k]] + GreedyLines(width, words[k..], columns)
  }

  /** A line fits when it is no wider than the columns or holds a single word. */
  predicate Fits(width: Text -> nat, columns: int, line: seq<Text>) {
    line != [] && (LineWidth(width, line) <= columns || |line| == 1)
  }

  /** A division of the words into consecutive lines that fit. */
  ghost predicate Legal(width: Text -> nat, columns: int, words: seq<Text>, lines: seq<seq<Text>>) {
    && Flatten(lines) == words
    && forall i :: 0 <= i < |lines| ==> Fits(width, columns, lines[i])
  }

  lemma {:induction false} WidthFromFront(width: Text -> nat, words: seq<Text>)
    requires |words| > 1
    ensures LineWidth(width, words) == width(words[0]) + 1 + LineWidth(width, words[1..])
  {
    var init := words[..|words| - 1];
    if |words| == 2 {
      assert init == [words[0]] && words[1..] == [words[1]];
      assert init[..0] == [] && words[1..][..0] == [];
    } else {
      WidthFromFront(width, init);
      assert init[1..] == words[1..][..|words| - 2];
    }
  }

  lemma {:induction false} WidthOfPart(width: Text -> nat, words: seq<Text>, i: nat, j: nat)
    requires i <= j <= |words|
    ensures LineWidth(width, words[i..j]) <= LineWidth(width, words)
    decreases |words|
  {
    if i > 0 {
      if i == |words| {
        assert words[i..j] == [];
      } else {
        WidthFromFront(width, words);
        WidthOfPart(width, words[1..], i - 1, j - 1);
        assert words[1..][i - 1..j - 1] == words[i..j];
      }
    } else if j < |words| {
      var init := words[..|words| - 1];
      WidthOfPart(width, init, 0, j);
      assert init[0..j] == words[i..j];
    } else {
      assert words[i..j] == words;
    }
  }

  /** FitCount is the longest prefix that fits, counted from a prefix that fits. */
  lemma {:induction false} FitCountLongest(width: Text -> nat, words: seq<Text>, columns: int, k: nat)
    requires 1 <= k <= |words| && Fits(width, columns, words[..k])
    ensures var n := FitCount(width, words, columns, k);
      && Fits(width, columns, words[..n])
      && (forall m :: n < m <= |words| ==> !Fits(width, columns, words[..m]))
    decreases |words| - k
  {
    if k < |words| && LineWidth(width, words[..k + 1]) <= columns {
      FitCountLongest(width, words, columns, k + 1);
    } else {
      forall m | k < m <= |words| ensures !Fits(width, columns, words[..m]) {
        WidthOfPart(width, words[..m], 0, k + 1);
        assert words[..m][0..k + 1] == words[..k + 1];
      }
    }
  }

  lemma AllFit(width: Text -> nat, columns: int, line: seq<Text>, rest: seq<seq<Text>>)
    requires Fits(width, columns, line)
    requires forall i :: 0 <= i < |rest| ==> Fits(width, columns, rest[i])
    ensures forall i :: 0 <= i < |[line] + rest| ==> Fits(width, columns, ([line] + rest)[i])
  {
  }

  /** A legal division is a line that fits and a legal division of the words after it. */
  lemma LegalTail(width: Text -> nat, columns: int, words: seq<Text>, lines: seq<seq<Text>>)
    requires Legal(width, columns, words, lines) && lines != []
    ensures words == lines[0] + Flatten(lines[1..]) && Fits(width, columns, lines[0])
    ensures Legal(width, columns, Flatten(lines[1..]), lines[1..])
  {
    FlattenCons(lines[0], lines[1..]);
    assert lines == [lines[0]] + lines[1..];
  }

  /** The greedy lines hold exactly the words, in order, and every line fits. */
  lemma {:induction false} GreedyLegal(width: Text -> nat, words: seq<Text>, columns: int)
    ensures Legal(width, columns, words, GreedyLines(width, words, columns))
    decreases |words|
  {
    if words != [] {
      FitCountLongest(width, words, columns, 1);
      var k := FitCount(width, words, columns, 1);
      var rest := GreedyLines(width, words[k..], columns);
      GreedyLegal(width, words[k..], columns);
      FlattenCons(words[..k], rest);
      assert words == words[..k] + words[k..];
      AllFit(width, columns, words[..k], rest);
    }
  }

  /** Dropping leading words from a legal division leaves a legal one with no more lines. */
  lemma {:induction false} DropWords(width: Text -> nat, columns: int, lines: seq<seq<Text>>, m: nat)
    returns (rest: seq<seq<Text>>)
    requires Legal(width, columns, Flatten(lines), lines)
    requires m <= |Flatten(lines)|
    ensures Legal(width, columns, Flatten(lines)[m..], rest)
    ensures |rest| <= |lines|
    decreases |lines|
  {
    if lines == [] {
      rest := [];
    } else {
      var first, tail := lines[0], lines[1..];
      LegalTail(width, columns, Flatten(lines), lines);
      if m >= |first| {
        rest := DropWords(width, columns, tail, m - |first|);
        assert Flatten(lines)[m..] == Flatten(tail)[m - |first|..];
      } else {
        WidthOfPart(width, first, m, |first|);
        assert first[m..|first|] == first[m..];
        rest := [first[m..]] + tail;
        FlattenCons(first[m..], tail);
        assert Flatten(lines)[m..] == first[m..] + Flatten(tail);
        AllFit(width, columns, first[m..], tail);
      }
    }
  }

  /** Greedy wrapping is optimal: no legal division of the same words has fewer lines. */
  lemma {:induction false} GreedyOptimal(width: Text -> nat, columns: int, words: seq<Text>, lines: seq<seq<Text>>)
    requires Legal(width, columns, words, lines)
    ensures |GreedyLines(width, words, columns)| <= |lines|
    decreases |words|
  {
    if words != [] {
      var first, tail := lines[0], lines[1..];
      LegalTail(width, columns, words, lines);
      FitCountLongest(width, words, columns, 1);
      var k := FitCount(width, words, columns, 1);
      assert words[..|first|] == first;
      assert |first| <= k;
      var rest := DropWords(width, columns, tail, k - |first|);
      assert Flatten(tail)[k - |first|..] == words[k..];
      GreedyOptimal(width, columns, words[k..], rest);
    }
  }

  // ---------- Wrapping ----------

  function Render(line: seq<Text>, trim: bool): Text {
    if trim then TrimEnd(Splitting.Joined(line, SPACE)) else Splitting.Joined(line, SPACE)
  }

  /** A word cut into pieces of at most size units. */
  function Pieces(word: Text, size: nat): seq<Text>
    requires size > 0
    decreases |word|
  {
    if word == [] then []
    else if |word| <= size then [word]
    else [word[..size]] + Pieces(word[size..], size)
  }

  /** The lines that wrapping produces from words none of which is empty. */
  function Layout(width: Text -> nat, words: seq<Text>, columns: int, o: WrapOptions): seq<Text>
    requires columns > 0
    decreases |words|
  {
    if words == [] then []
    else if o.hard && width(words[0]) > columns then
      Pieces(words[0], columns) + Layout(width, words[1..], columns, o)
    else
      var k := FitCount(width, words, columns, 1);
      [Render(words[..k], o.trim)] + Layout(width, words[k..], columns, o)
  }

  function RenderAll(lines: seq<seq<Text>>, trim: bool): seq<Text> {
    if lines == [] then [] else [Render(lines[0], trim)] + RenderAll(lines[1..], trim)
  }

  /** Without hard wrapping the layout is the greedy division. */
  lemma {:induction false} SoftLayout(width: Text -> nat, words: seq<Text>, columns: int, o: WrapOptions)
    requires columns > 0 && !o.hard
    ensures Layout(width, words, columns, o) == RenderAll(GreedyLines(width, words, columns), o.trim)
    decreases |words|
  {
    if words != [] {
      var k := FitCount(width, words, columns, 1);
      SoftLayout(width, words[k..], columns, o);
      var lines := GreedyLines(width, words, columns);
      assert lines[1..] == GreedyLines(width, words[k..], columns);
    }
  }

  function TextWords(text: Text, o: WrapOptions): seq<Text> {
    if o.wordWrap then Split(text) else [text]
  }

  /** Nothing visible is lost so far and, without hard wrapping, no word is cut or merged. */
  ghost predicate Conserves(o: WrapOptions, words: seq<Text>, lines: seq<Text>, currentLine: Text) {
    && VisibleOf(lines) + Visible(currentLine) == VisibleOf(words)
    && (!o.hard ==> WordsOf(lines) + Words(currentLine) == WordsOf(words))
  }

  function Finished(currentLine: Text, trim: bool): Text {
    if trim then TrimEnd(currentLine) else currentLine
  }

  lemma FlushConserves(o: WrapOptions, words: seq<Text>, lines: seq<Text>, currentLine: Text)
    requires Conserves(o, words, lines, currentLine)
    ensures Conserves(o, words, lines + [Finished(currentLine, o.trim)], [])
  {
    VisibleTrim(currentLine);
    WordsTrim(currentLine);
    assert (lines + [Finished(currentLine, o.trim)])[..|lines|] == lines;
  }

  function Extended(currentLine: Text, word: Text): Text {
    if currentLine == [] then word else currentLine + [SPACE] + word
  }

  lemma ExtendedVisible(currentLine: Text, word: Text)
    ensures Visible(Extended(currentLine, word)) == Visible(currentLine) + Visible(word)
  {
    JoinOnce(currentLine, SPACE, word);
    assert [] + Visible(word) == Visible(word);
  }

  lemma ExtendedWords(currentLine: Text, word: Text)
    ensures Words(Extended(currentLine, word)) == Words(currentLine) + Words(word)
  {
    WordsConcat(currentLine, SPACE, word);
    assert Words([]) + Words(word) == Words(word);
  }

  lemma AppendConserves(o: WrapOptions, words: seq<Text>, lines: seq<Text>, currentLine: Text, word: Text)
    requires Conserves(o, words, lines, currentLine)
    ensures Conserves(o, words + [word], lines, Extended(currentLine, word))
  {
    OfLast(words, word);
    ExtendedVisible(currentLine, word);
    Extend(VisibleOf(lines), Visible(currentLine), VisibleOf(words), Visible(word));
    if !o.hard {
      ExtendedWords(currentLine, word);
      Extend(WordsOf(lines), Words(currentLine), WordsOf(words), Words(word));
    }
  }

  lemma {:induction false} PiecesKeep(word: Text, size: nat)
    requires size > 0
    ensures VisibleOf(Pieces(word, size)) == Visible(word)
    decreases |word|
  {
    if word == [] {
    } else if |word| <= size {
      OfOne(word);
    } else {
      PiecesKeep(word[size..], size);
      OfFirst(word[..size], Pieces(word[size..], size));
      VisibleConcat(word[..size], word[size..]);
      assert word == word[..size] + word[size..];
    }
  }

  lemma PiecesConserve(o: WrapOptions, words: seq<Text>, lines: seq<Text>, word: Text, size: nat)
    requires size > 0 && o.hard
    requires Conserves(o, words, lines, [])
    ensures Conserves(o, words + [word], lines + Pieces(word, size), [])
  {
    OfLast(words, word);
    OfConcat(lines, Pieces(word, size));
    PiecesKeep(word, size);
    assert VisibleOf(lines) + Visible([]) == VisibleOf(lines);
  }

  lemma JoinOnce(text: Text, separator: CodeUnit, last: Text)
    requires IsSpace(separator)
    ensures Visible(text + [separator] + last) == Visible(text) + Visible(last)
    ensures Words(text + [separator] + last) == Words(text) + Words(last)
  {
    WordsConcat(text, separator, last);
    VisibleConcat(text + [separator], last);
    VisibleAfterSpaces([separator], text);
  }

  lemma JoinLast(separator: CodeUnit, parts: seq<Text>)
    requires |parts| > 1
    ensures Splitting.Joined(parts, separator)
         == Splitting.Joined(parts[..|parts| - 1], separator) + [separator] + parts[|parts| - 1]
  {
  }

  lemma {:induction false} JoinConserves(lines: seq<Text>, separator: CodeUnit)
    requires IsSpace(separator)
    ensures Visible(Splitting.Joined(lines, separator)) == VisibleOf(lines)
    ensures Words(Splitting.Joined(lines, separator)) == WordsOf(lines)
  {
    if |lines| == 1 {
      OfOne(lines[0]);
      assert lines == [lines[0]];
    } else if |lines| > 1 {
      var init, last := lines[..|lines| - 1], lines[|lines| - 1];
      JoinConserves(init, separator);
      JoinOnce(Splitting.Joined(init, separator), separator, last);
      OfLast(init, last);
      assert lines == init + [last];
      JoinLast(separator, lines);
    }
  }

  // ---------- The loop ----------

  /** The finished lines, the line being filled and its width. */
  datatype Wrap = Wrap(lines: seq<Text>, line: Text, width: int)

  const START := Wrap([], [], 0)

  function Flushed(s: Wrap, trim: bool): Wrap {
    if s.line == [] then s else Wrap(s.lines + [Finished(s.line, trim)], [], 0)
  }

  function Appended(s: Wrap, word: Text, wordWidth: nat): Wrap {
    Wrap(s.lines, Extended(s.line, word), (if s.line == [] then 0 else 1) + s.width + wordWidth)
  }

  /** One round of the loop. */
  function Place(width: Text -> nat, columns: int, o: WrapOptions, s: Wrap, word: Text): Wrap
    requires columns > 0
  {
    var fits := s.width + width(word) + (if s.line == [] then 0 else 1) <= columns;
    if fits then Appended(s, word, width(word))
    else
      var next := Flushed(s, o.trim);
      if width(word) > columns && o.hard then next.(lines := next.lines + Pieces(word, columns))
      else Appended(next, word, width(word))
  }

  function PlaceAll(width: Text -> nat, columns: int, o: WrapOptions, words: seq<Text>): Wrap
    requires columns > 0
  {
    if words == [] then START
    else Place(width, columns, o, PlaceAll(width, columns, o, words[..|words| - 1]), words[|words| - 1])
  }

  /** The lines after the loop over these words. */
  function LinesOf(width: Text -> nat, columns: int, o: WrapOptions, words: seq<Text>): seq<Text>
    requires columns > 0
  {
    Flushed(PlaceAll(width, columns, o, words), o.trim).lines
  }

  lemma PlaceNext(width: Text -> nat, columns: int, o: WrapOptions, words: seq<Text>, i: nat)
    requires columns > 0 && i < |words|
    ensures PlaceAll(width, columns, o, words[..i + 1])
      == Place(width, columns, o, PlaceAll(width, columns, o, words[..i]), words[i])
  {
    assert words[..i + 1][..i] == words[..i];
  }

  /** Cuts an over-wide word into pieces and adds them to the lines. */
  method PushPieces(lines: seq<Text>, word: Text, columns: nat) returns (r: seq<Text>)
    requires columns > 0
    ensures r == lines + Pieces(word, columns)
  {
    r := lines;
    var remaining := word;
    while |remaining| > 0
      invariant r + Pieces(remaining, columns) == lines + Pieces(word, columns)
      decreases |remaining|
    {
      var end := if |remaining| <= columns then |remaining| else columns;
      assert remaining[..|remaining|] == remaining;
      r := r + [remaining[..end]];
      remaining := remaining[end..];
    }
  }

  /** Adds a word to the current line, after a space unless the line is empty. */
  method AppendWord(line0: Text, width0: int, word: Text, wordWidth: nat)
    returns (currentLine: Text, currentWidth: int)
    ensures currentLine == Extended(line0, word)
    ensures currentWidth == (if line0 == [] then 0 else 1) + width0 + wordWidth
  {
    currentLine, currentWidth := line0, width0;
    if |currentLine| > 0 {
      currentLine := currentLine + [SPACE];
      currentWidth := currentWidth + 1;
    }
    currentLine := currentLine + word;
    currentWidth := currentWidth + wordWidth;
  }

  /** The body of the loop: puts a word on the current line or on a new one. */
  method PlaceWord(width: Text -> nat, columns: int, o: WrapOptions,
                   lines0: seq<Text>, line0: Text, width0: int, word: Text)
    returns (lines: seq<Text>, currentLine: Text, currentWidth: int)
    requires columns > 0
    ensures Wrap(lines, currentLine, currentWidth) == Place(width, columns, o, Wrap(lines0, line0, width0), word)
  {
    lines, currentLine, currentWidth := lines0, line0, width0;
    var wordWidth := width(word);
    if currentWidth + wordWidth + (if |currentLine| > 0 then 1 else 0) > columns {
      if |currentLine| > 0 {
        lines := lines + [if o.trim then TrimEnd(currentLine) else currentLine];
        currentLine := [];
        currentWidth := 0;
      }
      if wordWidth > columns && o.hard {
        lines := PushPieces(lines, word, columns);
        return;
      }
    }
    currentLine, currentWidth := AppendWord(currentLine, currentWidth, word, wordWidth);
  }

  /** The lines with a space between each two words. */
  function SpacedLines(lines: seq<seq<Text>>): seq<Text> {
    seq(|lines|, i requires 0 <= i < |lines| => Splitting.Joined(lines[i], SPACE))
  }

  /** The greedy division of the words of a text into lines, wrapped at the columns. */
  ghost predicate Wraps(width: Text -> nat, columns: int, o: WrapOptions, text: Text,
                        lines: seq<seq<Text>>, r: Text)
  {
    && Legal(width, columns, Words(text), lines) && Filled(width, columns, lines)
    && (forall other :: Legal(width, columns, Words(text), other) ==> |lines| <= |other|)
    && r == Splitting.Joined(SpacedLines(lines), LINE_FEED)
      + (if EndsBlank(text) && !o.trim && lines != [] && LineWidth(width, lines[|lines| - 1]) < columns
         then [SPACE] else [])
  }

  /**
   Wrapping keeps every visible unit and, without hard breaks, every word. Wrapped at words, its
   lines are full lines that hold the words of the text in order, in the least number; a text that
   is not split stays whole.
   */
  method WrapAnsi(width: Text -> nat, text: Text, columns: int, o: WrapOptions) returns (r: Text)
    requires width([]) == 0
    ensures columns <= 0 || text == [] ==> r == text
    ensures Visible(r) == Visible(text)
    ensures !o.hard ==> Words(r) == Words(text)
    ensures columns > 0 && text != [] && o.wordWrap ==>
      r == WrappedText(width, text, columns, o)
    ensures columns > 0 && text != [] && o.wordWrap && !o.hard ==>
      exists lines :: Wraps(width, columns, o, text, lines, r)
    ensures columns > 0 && text != [] && !o.wordWrap ==>
      r == if o.hard && width(text) > columns then Splitting.Joined(Pieces(text, columns), LINE_FEED)
           else if o.trim then TrimEnd(text) else text
  {
    if columns <= 0 || text == [] {
      return text;
    }
    var lines: seq<Text> := [];
    var currentLine: Text := [];
    var currentWidth := 0;
    var words := TextWords(text, o);
    for i := 0 to |words|
      invariant Wrap(lines, currentLine, currentWidth) == PlaceAll(width, columns, o, words[..i])
    {
      PlaceNext(width, columns, o, words, i);
      lines, currentLine, currentWidth :=
        PlaceWord(width, columns, o, lines, currentLine, currentWidth, words[i]);
    }
    if |currentLine| > 0 {
      lines := lines + [if o.trim then TrimEnd(currentLine) else currentLine];
    }
    assert words[..|words|] == words;
    LinesConserve(width, text, columns, o);
    TextWrapped(width, text, columns, o);
    r := Splitting.Joined(lines, LINE_FEED);
  }

  // ---------- What the loop conserves ----------

  lemma FlushedConserves(o: WrapOptions, words: seq<Text>, s: Wrap)
    requires Conserves(o, words, s.lines, s.line)
    ensures var f := Flushed(s, o.trim); f.line == [] && Conserves(o, words, f.lines, [])
  {
    if s.line != [] { FlushConserves(o, words, s.lines, s.line); }
  }

  lemma PlaceConserves(width: Text -> nat, columns: int, o: WrapOptions, words: seq<Text>, s: Wrap, word: Text)
    requires columns > 0 && Conserves(o, words, s.lines, s.line)
    ensures var n := Place(width, columns, o, s, word); Conserves(o, words + [word], n.lines, n.line)
  {
    var flushed := Flushed(s, o.trim);
    FlushedConserves(o, words, s);
    AppendConserves(o, words, s.lines, s.line, word);
    AppendConserves(o, words, flushed.lines, [], word);
    if o.hard { PiecesConserve(o, words, flushed.lines, word, columns); }
  }

  lemma {:induction false} AllConserve(width: Text -> nat, columns: int, o: WrapOptions, words: seq<Text>)
    requires columns > 0
    ensures var s := PlaceAll(width, columns, o, words); Conserves(o, words, s.lines, s.line)
  {
    if words != [] {
      var init, last := words[..|words| - 1], words[|words| - 1];
      AllConserve(width, columns, o, init);
      PlaceConserves(width, columns, o, init, PlaceAll(width, columns, o, init), last);
      assert words == init + [last];
    }
  }

  lemma TextWordsKeep(text: Text, o: WrapOptions)
    ensures VisibleOf(TextWords(text, o)) == Visible(text)
    ensures WordsOf(TextWords(text, o)) == Words(text)
  {
    if o.wordWrap {
      SplitKeepsVisible(text);
      SplitKeepsWords(text);
    } else {
      OfOne(text);
    }
  }

  lemma LinesConserve(width: Text -> nat, text: Text, columns: int, o: WrapOptions)
    requires columns > 0
    ensures var r := Splitting.Joined(LinesOf(width, columns, o, TextWords(text, o)), LINE_FEED);
      Visible(r) == Visible(text) && (!o.hard ==> Words(r) == Words(text))
  {
    var words := TextWords(text, o);
    TextWordsKeep(text, o);
    AllConserve(width, columns, o, words);
    FlushedConserves(o, words, PlaceAll(width, columns, o, words));
    var lines := LinesOf(width, columns, o, words);
    JoinConserves(lines, LINE_FEED);
    assert VisibleOf(lines) + Visible([]) == VisibleOf(lines) && WordsOf(lines) + Words([]) == WordsOf(lines);
  }

  // ---------- The lines of words none of which is empty ----------

  /** The words on the last line, none when the last word was cut. */
  function LastKept(width: Text -> nat, words: seq<Text>, columns: int, o: WrapOptions): seq<Text>
    requires columns > 0
    decreases |words|
  {
    if words == [] then []
    else if o.hard && width(words[0]) > columns then LastKept(width, words[1..], columns, o)
    else
      var k := FitCount(width, words, columns, 1);
      if k == |words| then words else LastKept(width, words[k..], columns, o)
  }

  /** Words that stand on one line. */
  ghost predicate OneLine(width: Text -> nat, columns: int, o: WrapOptions, kept: seq<Text>) {
    Fits(width, columns, kept) && (o.hard ==> LineWidth(width, kept) <= columns)
  }

  /** After i words: the finished lines, then the layout of the words kept back and the rest. */
  ghost predicate Progress(width: Text -> nat, words: seq<Text>, columns: int, o: WrapOptions,
                           i: nat, lines: seq<Text>, kept: seq<Text>)
    requires columns > 0 && i <= |words|
  {
    && (kept != [] ==> OneLine(width, columns, o, kept))
    && Layout(width, words, columns, o) == lines + Layout(width, kept + words[i..], columns, o)
    && LastKept(width, words, columns, o) == LastKept(width, kept + words[i..], columns, o)
  }

  lemma NoLonger(width: Text -> nat, words: seq<Text>, columns: int, n: nat)
    requires 1 <= n < |words| && LineWidth(width, words[..n + 1]) > columns
    ensures forall m :: n < m <= |words| ==> !Fits(width, columns, words[..m])
  {
    forall m | n < m <= |words| ensures !Fits(width, columns, words[..m]) {
      WidthOfPart(width, words[..m], 0, n + 1);
      assert words[..m][0..n + 1] == words[..n + 1];
    }
  }

  /** The first line ends in front of a word that does not fit on it. */
  lemma FullCount(width: Text -> nat, kept: seq<Text>, rest: seq<Text>, columns: int, o: WrapOptions)
    requires columns > 0 && kept != [] && OneLine(width, columns, o, kept)
    requires rest != [] ==> LineWidth(width, kept + [rest[0]]) > columns
    ensures FitCount(width, kept + rest, columns, 1) == |kept|
    ensures o.hard ==> width(kept[0]) <= columns
  {
    var all := kept + rest;
    WidthOfPart(width, kept, 0, 1);
    var first := [kept[0]];
    assert kept[0..1] == first && first[..0] == [];
    FitCountLongest(width, all, columns, 1);
    assert all[..|kept|] == kept;
    if rest != [] {
      assert all[..|kept| + 1] == kept + [rest[0]];
      NoLonger(width, all, columns, |kept|);
    }
  }

  /** The layout of a full line followed by a word that does not fit on it. */
  lemma FullLine(width: Text -> nat, kept: seq<Text>, rest: seq<Text>, columns: int, o: WrapOptions)
    requires columns > 0 && kept != [] && OneLine(width, columns, o, kept)
    requires rest != [] ==> LineWidth(width, kept + [rest[0]]) > columns
    ensures Layout(width, kept + rest, columns, o) == [Render(kept, o.trim)] + Layout(width, rest, columns, o)
    ensures LastKept(width, kept + rest, columns, o) == if rest == [] then kept else LastKept(width, rest, columns, o)
  {
    FullCount(width, kept, rest, columns, o);
    var all := kept + rest;
    assert all[..|kept|] == kept && all[|kept|..] == rest && all[0] == kept[0];
    if rest == [] { assert all == kept; }
  }

  lemma FlushProgress(width: Text -> nat, words: seq<Text>, columns: int, o: WrapOptions,
                      i: nat, lines: seq<Text>, kept: seq<Text>)
    requires columns > 0 && i < |words| && kept != []
    requires Progress(width, words, columns, o, i, lines, kept)
    requires LineWidth(width, kept + [words[i]]) > columns
    ensures Progress(width, words, columns, o, i, lines + [Render(kept, o.trim)], [])
  {
    var tail := words[i..];
    FullLine(width, kept, tail, columns, o);
    assert [] + tail == tail;
    var line, after := [Render(kept, o.trim)], Layout(width, tail, columns, o);
    Extend(lines, line, lines + line, after);
  }

  lemma KeepProgress(width: Text -> nat, words: seq<Text>, columns: int, o: WrapOptions,
                     i: nat, lines: seq<Text>, kept: seq<Text>)
    requires columns > 0 && i < |words|
    requires Progress(width, words, columns, o, i, lines, kept)
    requires LineWidth(width, kept + [words[i]]) <= columns || (kept == [] && !o.hard)
    ensures Progress(width, words, columns, o, i + 1, lines, kept + [words[i]])
  {
    assert kept + words[i..] == kept + [words[i]] + words[i + 1..];
  }

  lemma CutProgress(width: Text -> nat, words: seq<Text>, columns: int, o: WrapOptions,
                    i: nat, lines: seq<Text>)
    requires columns > 0 && i < |words| && o.hard && width(words[i]) > columns
    requires Progress(width, words, columns, o, i, lines, [])
    ensures Progress(width, words, columns, o, i + 1, lines + Pieces(words[i], columns), [])
  {
    var tail, rest := words[i..], words[i + 1..];
    assert [] + tail == tail && [] + rest == rest && tail[1..] == rest;
    var pieces, after := Pieces(words[i], columns), Layout(width, rest, columns, o);
    assert Layout(width, tail, columns, o) == pieces + after;
    Extend(lines, pieces, lines + pieces, after);
  }

  /** The finished lines and the line being filled stand for the words read so far. */
  ghost predicate Tracks(width: Text -> nat, words: seq<Text>, columns: int, o: WrapOptions, i: nat,
                         s: Wrap, kept: seq<Text>)
    requires columns > 0 && i <= |words|
  {
    && Progress(width, words, columns, o, i, s.lines, kept)
    && s.line == Splitting.Joined(kept, SPACE)
    && s.width == LineWidth(width, kept)
    && (s.line == [] <==> kept == [])
  }

  lemma FlushTracks(width: Text -> nat, words: seq<Text>, columns: int, o: WrapOptions, i: nat,
                    s: Wrap, kept: seq<Text>)
    requires columns > 0 && i < |words| && Tracks(width, words, columns, o, i, s, kept)
    requires s.width + width(words[i]) + (if s.line == [] then 0 else 1) > columns
    ensures Tracks(width, words, columns, o, i, Flushed(s, o.trim), [])
  {
    if kept != [] {
      assert (kept + [words[i]])[..|kept|] == kept;
      FlushProgress(width, words, columns, o, i, s.lines, kept);
    }
  }

  lemma AppendTracks(width: Text -> nat, words: seq<Text>, columns: int, o: WrapOptions, i: nat,
                     s: Wrap, kept: seq<Text>)
    requires columns > 0 && i < |words| && words[i] != [] && Tracks(width, words, columns, o, i, s, kept)
    requires s.width + width(words[i]) + (if s.line == [] then 0 else 1) <= columns || (kept == [] && !o.hard)
    ensures Tracks(width, words, columns, o, i + 1, Appended(s, words[i], width(words[i])), kept + [words[i]])
  {
    assert (kept + [words[i]])[..|kept|] == kept;
    KeepProgress(width, words, columns, o, i, s.lines, kept);
  }

  lemma PlaceTracks(width: Text -> nat, words: seq<Text>, columns: int, o: WrapOptions, i: nat,
                    s: Wrap, kept: seq<Text>) returns (next: seq<Text>)
    requires columns > 0 && i < |words| && words[i] != [] && Tracks(width, words, columns, o, i, s, kept)
    ensures Tracks(width, words, columns, o, i + 1, Place(width, columns, o, s, words[i]), next)
  {
    if s.width + width(words[i]) + (if s.line == [] then 0 else 1) <= columns {
      AppendTracks(width, words, columns, o, i, s, kept);
      next := kept + [words[i]];
    } else {
      var flushed := Flushed(s, o.trim);
      FlushTracks(width, words, columns, o, i, s, kept);
      if width(words[i]) > columns && o.hard {
        CutProgress(width, words, columns, o, i, flushed.lines);
        next := [];
      } else {
        AppendTracks(width, words, columns, o, i, flushed, []);
        next := [] + [words[i]];
      }
    }
  }

  lemma {:induction false} AllTrack(width: Text -> nat, words: seq<Text>, columns: int, o: WrapOptions, i: nat)
    returns (kept: seq<Text>)
    requires columns > 0 && i <= |words| && [] !in words
    ensures Tracks(width, words, columns, o, i, PlaceAll(width, columns, o, words[..i]), kept)
  {
    kept := [];
    if i == 0 {
      assert [] + words[0..] == words;
    } else {
      kept := AllTrack(width, words, columns, o, i - 1);
      PlaceNext(width, columns, o, words, i - 1);
      kept := PlaceTracks(width, words, columns, o, i - 1, PlaceAll(width, columns, o, words[..i - 1]), kept);
    }
  }

  /** When no word is empty the loop leaves the layout of the words, its last line unfinished. */
  lemma LoopLaysOut(width: Text -> nat, words: seq<Text>, columns: int, o: WrapOptions)
    requires columns > 0 && [] !in words
    ensures var s, kept := PlaceAll(width, columns, o, words), LastKept(width, words, columns, o);
      && s.line == Splitting.Joined(kept, SPACE) && s.width == LineWidth(width, kept)
      && (s.line == [] <==> kept == [])
      && Layout(width, words, columns, o) == s.lines + if kept == [] then [] else [Render(kept, o.trim)]
    ensures LinesOf(width, columns, o, words) == Layout(width, words, columns, o)
  {
    var kept := AllTrack(width, words, columns, o, |words|);
    assert words[..|words|] == words && kept + words[|words|..] == kept;
    if kept != [] {
      FullLine(width, kept, [], columns, o);
      assert kept + [] == kept;
    }
  }

  // ---------- Outer white space ----------

  /** The last line has room for the space that stands for white space at the end of a text. */
  predicate RoomBehind(width: Text -> nat, words: seq<Text>, columns: int, o: WrapOptions)
    requires columns > 0
  {
    var kept := LastKept(width, words, columns, o);
    !o.trim && kept != [] && LineWidth(width, kept) < columns
  }

  /** The empty part that splitting leaves at an end. */
  function EmptyIf(b: bool): seq<Text> {
    if b then [[]] else []
  }

  lemma {:induction false} FirstSkipped(width: Text -> nat, columns: int, o: WrapOptions, words: seq<Text>)
    requires columns > 0 && width([]) == 0
    ensures PlaceAll(width, columns, o, [[]] + words) == PlaceAll(width, columns, o, words)
  {
    if words == [] {
      assert [[]] + words == [[]] && ([[]] + words)[..0] == words;
    } else {
      var init, last := words[..|words| - 1], words[|words| - 1];
      FirstSkipped(width, columns, o, init);
      assert ([[]] + words)[..|words|] == [[]] + init;
    }
  }

  lemma LastPlaced(width: Text -> nat, columns: int, o: WrapOptions, words: seq<Text>)
    requires columns > 0
    ensures PlaceAll(width, columns, o, words + [[]])
      == Place(width, columns, o, PlaceAll(width, columns, o, words), [])
  {
    assert (words + [[]])[..|words|] == words;
  }

  lemma TrimmedSpace(line: Text)
    ensures TrimEnd(line + [SPACE]) == TrimEnd(line)
  {
    assert (line + [SPACE])[..|line|] == line;
  }

  /** What an empty word at the end does to the lines. */
  lemma EmptyWordLast(width: Text -> nat, columns: int, o: WrapOptions, s: Wrap)
    requires columns > 0 && width([]) == 0 && (s.line == [] ==> s.width == 0)
    ensures Flushed(Place(width, columns, o, s, []), o.trim).lines
      == if s.line != [] && s.width < columns && !o.trim then s.lines + [s.line + [SPACE]]
         else Flushed(s, o.trim).lines
  {
    TrimmedSpace(s.line);
    assert s.line + [SPACE] + [] == s.line + [SPACE];
  }

  function WithSpace(lines: seq<Text>): seq<Text> {
    if lines == [] then [] else lines[..|lines| - 1] + [lines[|lines| - 1] + [SPACE]]
  }

  lemma EmptyLast(width: Text -> nat, columns: int, o: WrapOptions, words: seq<Text>)
    requires columns > 0 && width([]) == 0 && [] !in words
    ensures var lines := Layout(width, words, columns, o);
      LinesOf(width, columns, o, words + [[]])
        == if RoomBehind(width, words, columns, o) then WithSpace(lines) else lines
  {
    LoopLaysOut(width, words, columns, o);
    LastPlaced(width, columns, o, words);
    EmptyWordLast(width, columns, o, PlaceAll(width, columns, o, words));
  }

  /** Empty parts around the words change at most the end of the last line. */
  lemma OuterLines(width: Text -> nat, columns: int, o: WrapOptions, words: seq<Text>, first: bool, last: bool)
    requires columns > 0 && width([]) == 0 && [] !in words
    ensures var lines := Layout(width, words, columns, o);
      LinesOf(width, columns, o, EmptyIf(first) + words + EmptyIf(last))
        == if last && RoomBehind(width, words, columns, o) then WithSpace(lines) else lines
  {
    var inner := words + EmptyIf(last);
    if first {
      FirstSkipped(width, columns, o, inner);
      assert EmptyIf(first) + words + EmptyIf(last) == [[]] + inner;
    } else {
      assert EmptyIf(first) + words + EmptyIf(last) == inner;
    }
    if last {
      EmptyLast(width, columns, o, words);
    } else {
      assert inner == words;
      LoopLaysOut(width, words, columns, o);
    }
  }

  // ---------- The words of a text ----------

  lemma WordsOfCut(t: Text, word: Text, spaces: Text, rest: Text)
    requires FirstCut(t, word, spaces, rest)
    ensures Words(t) == (if word == [] then [] else [word]) + Words(rest)
  {
    SpacesOfCut(t, word, spaces, rest);
    WordsAround(word, spaces, rest);
    if word != [] { WholeRun(word); }
  }

  predicate StartsBlank(t: Text) {
    t != [] && IsSpace(t[0])
  }

  predicate EndsBlank(t: Text) {
    t != [] && IsSpace(t[|t| - 1])
  }

  /** The words, with an empty part for white space at either end, and one for an empty text. */
  ghost predicate PartsOf(t: Text, parts: seq<Text>) {
    parts == EmptyIf(t == [] || StartsBlank(t)) + Words(t) + EmptyIf(EndsBlank(t))
  }

  lemma OuterOfCut(t: Text, word: Text, spaces: Text, rest: Text)
    requires FirstCut(t, word, spaces, rest)
    ensures StartsBlank(t) <==> word == []
    ensures !StartsBlank(rest) && (EndsBlank(t) <==> rest == [] || EndsBlank(rest))
  {
    SpacesOfCut(t, word, spaces, rest);
    assert t[|t| - 1] == if rest == [] then spaces[|spaces| - 1] else rest[|rest| - 1];
    assert t[0] == if word == [] then spaces[0] else word[0];
    assert word != [] ==> RunLength(t, false) > 0;
  }

  lemma PartsOfCut(word: Text, none: bool, words: seq<Text>, last: bool, parts: seq<Text>)
    requires parts == EmptyIf(none) + words + EmptyIf(last) && (none ==> words == [] && !last)
    ensures [word] + parts
      == EmptyIf(word == []) + ((if word == [] then [] else [word]) + words) + EmptyIf(none || last)
  {
  }

  lemma UnbrokenParts(t: Text)
    requires RunLength(t, false) == |t|
    ensures PartsOf(t, [t])
  {
    if t != [] {
      WholeRun(t);
      assert EmptyIf(false) + [t] + EmptyIf(false) == [t];
    }
  }

  /** Splitting a text gives its words, and an empty part for white space at either end. */
  lemma {:induction false} SplitIsWords(t: Text)
    ensures PartsOf(t, Split(t))
    decreases |t|
  {
    if RunLength(t, false) == |t| {
      UnbrokenParts(t);
    } else {
      var word, spaces, rest := CutFirst(t);
      OuterOfCut(t, word, spaces, rest);
      SplitOfCut(t, word, spaces, rest);
      WordsOfCut(t, word, spaces, rest);
      SplitIsWords(rest);
      PartsOfCut(word, rest == [], Words(rest), EndsBlank(rest), Split(rest));
    }
  }

  lemma {:induction false} WordsNonEmpty(t: Text)
    ensures [] !in Words(t)
    decreases |t|
  {
    var n := RunLength(t, false);
    if t != [] {
      if n == 0 { WordsNonEmpty(t[1..]); } else { WordsNonEmpty(t[n..]); }
    }
  }

  /** The space that stands for white space at the end of a text. */
  function EndSpace(width: Text -> nat, text: Text, columns: int, o: WrapOptions): Text
    requires columns > 0
  {
    if EndsBlank(text) && RoomBehind(width, Words(text), columns, o) then [SPACE] else []
  }

  /** The layout of the words of a text, line by line. */
  function WrappedText(width: Text -> nat, text: Text, columns: int, o: WrapOptions): Text
    requires columns > 0
  {
    Splitting.Joined(Layout(width, Words(text), columns, o), LINE_FEED) + EndSpace(width, text, columns, o)
  }

  lemma JoinedEnd(lines: seq<Text>, separator: CodeUnit)
    requires lines != []
    ensures Splitting.Joined(WithSpace(lines), separator) == Splitting.Joined(lines, separator) + [SPACE]
  {
    var init, last := lines[..|lines| - 1], lines[|lines| - 1];
    assert WithSpace(lines)[..|init|] == init;
    if init != [] {
      Extend(Splitting.Joined(init, separator) + [separator], last, Splitting.Joined(lines, separator), [SPACE]);
    }
  }

  lemma KeptMeansLines(width: Text -> nat, words: seq<Text>, columns: int, o: WrapOptions)
    requires columns > 0 && LastKept(width, words, columns, o) != []
    ensures Layout(width, words, columns, o) != []
  {
    if o.hard && width(words[0]) > columns {
      KeptMeansLines(width, words[1..], columns, o);
    }
  }

  /** What wrapping at words makes of a text, white space at its ends included. */
  lemma WrappedWords(width: Text -> nat, text: Text, columns: int, o: WrapOptions)
    requires columns > 0 && width([]) == 0 && text != [] && o.wordWrap
    ensures Splitting.Joined(LinesOf(width, columns, o, TextWords(text, o)), LINE_FEED)
      == WrappedText(width, text, columns, o)
  {
    SplitIsWords(text);
    WordsNonEmpty(text);
    OuterLines(width, columns, o, Words(text), StartsBlank(text), EndsBlank(text));
    var lines := Layout(width, Words(text), columns, o);
    if EndsBlank(text) && RoomBehind(width, Words(text), columns, o) {
      KeptMeansLines(width, Words(text), columns, o);
      JoinedEnd(lines, LINE_FEED);
    } else {
      assert Splitting.Joined(lines, LINE_FEED) + [] == Splitting.Joined(lines, LINE_FEED);
    }
  }

  /** What becomes of a text that is not split at all. */
  lemma WrappedWhole(width: Text -> nat, text: Text, columns: int, o: WrapOptions)
    requires columns > 0 && text != [] && !o.wordWrap
    ensures LinesOf(width, columns, o, TextWords(text, o))
      == if o.hard && width(text) > columns then Pieces(text, columns) else [Finished(text, o.trim)]
  {
    var words := TextWords(text, o);
    assert PlaceAll(width, columns, o, words[..0]) == START;
    assert PlaceAll(width, columns, o, words) == Place(width, columns, o, START, text);
    assert START.lines + Pieces(text, columns) == Pieces(text, columns);
    assert START.lines + [Finished(text, o.trim)] == [Finished(text, o.trim)];
  }

  // ---------- Full lines ----------

  /** No line but the last has room for the first word of the next one. */
  ghost predicate Filled(width: Text -> nat, columns: int, lines: seq<seq<Text>>) {
    forall i :: 0 <= i < |lines| - 1 && lines[i + 1] != [] ==>
      LineWidth(width, lines[i] + [lines[i + 1][0]]) > columns
  }

  lemma FilledFirst(width: Text -> nat, columns: int, line: seq<Text>, rest: seq<seq<Text>>)
    requires Filled(width, columns, rest)
    requires rest != [] && rest[0] != [] ==> LineWidth(width, line + [rest[0][0]]) > columns
    ensures Filled(width, columns, [line] + rest)
  {
    var all := [line] + rest;
    forall i | 0 <= i < |all| - 1 && all[i + 1] != []
      ensures LineWidth(width, all[i] + [all[i + 1][0]]) > columns
    {
      assert all[i + 1] == rest[i];
      if i > 0 { assert all[i] == rest[i - 1]; }
    }
  }

  lemma {:induction false} GreedyFilled(width: Text -> nat, words: seq<Text>, columns: int)
    ensures Filled(width, columns, GreedyLines(width, words, columns))
    decreases |words|
  {
    if words != [] {
      var k := FitCount(width, words, columns, 1);
      var rest := GreedyLines(width, words[k..], columns);
      GreedyFilled(width, words[k..], columns);
      FitCountLongest(width, words, columns, 1);
      if k < |words| {
        assert rest[0][0] == words[k];
        assert words[..k] + [words[k]] == words[..k + 1];
      }
      FilledFirst(width, columns, words[..k], rest);
    }
  }

  /** A legal division into full lines is the greedy one, so there is only one. */
  lemma {:induction false} FilledIsGreedy(width: Text -> nat, columns: int, words: seq<Text>, lines: seq<seq<Text>>)
    requires Legal(width, columns, words, lines) && Filled(width, columns, lines)
    ensures lines == GreedyLines(width, words, columns)
    decreases |words|
  {
    if lines != [] {
      var first, tail := lines[0], lines[1..];
      LegalTail(width, columns, words, lines);
      var rest := Flatten(tail);
      if tail != [] {
        LegalTail(width, columns, rest, tail);
        assert rest[0] == lines[1][0];
      }
      FirstFull(width, columns, first, rest);
      assert words[|first|..] == rest;
      FilledIsGreedy(width, columns, rest, tail);
      assert lines == [first] + tail;
    }
  }

  lemma FirstFull(width: Text -> nat, columns: int, first: seq<Text>, rest: seq<Text>)
    requires Fits(width, columns, first)
    requires rest != [] ==> LineWidth(width, first + [rest[0]]) > columns
    ensures FitCount(width, first + rest, columns, 1) == |first|
    ensures (first + rest)[..|first|] == first
  {
    var all := first + rest;
    WidthOfPart(width, first, 0, 1);
    var one := [first[0]];
    assert all[..1] == first[..1] == first[0..1] == one && one[..0] == [];
    FitCountLongest(width, all, columns, 1);
    assert all[..|first|] == first;
    if rest != [] {
      assert all[..|first| + 1] == first + [rest[0]];
      NoLonger(width, all, columns, |first|);
    }
  }

  lemma {:induction false} LastGreedy(width: Text -> nat, words: seq<Text>, columns: int, o: WrapOptions)
    requires columns > 0 && !o.hard
    ensures var lines := GreedyLines(width, words, columns);
      LastKept(width, words, columns, o) == if lines == [] then [] else lines[|lines| - 1]
    decreases |words|
  {
    if words != [] {
      var k := FitCount(width, words, columns, 1);
      LastGreedy(width, words[k..], columns, o);
      assert GreedyLines(width, words, columns) == [words[..k]] + GreedyLines(width, words[k..], columns);
      assert k < |words| ==> GreedyLines(width, words[k..], columns) != [];
      assert k == |words| ==> words[..k] == words;
    }
  }

  lemma {:induction false} WordsUnbroken(t: Text)
    ensures forall i :: 0 <= i < |Words(t)| ==> Words(t)[i] != [] && NoSpace(Words(t)[i])
    decreases |t|
  {
    var n := RunLength(t, false);
    if t != [] {
      if n == 0 { WordsUnbroken(t[1..]); } else { WordsUnbroken(t[n..]); }
    }
  }

  lemma Untrimmed(t: Text)
    requires t != [] && !IsSpace(t[|t| - 1])
    ensures TrimEnd(t) == t
  {
  }

  lemma JoinedLast(line: seq<Text>)
    requires line != [] && line[|line| - 1] != []
    ensures var t, last := Splitting.Joined(line, SPACE), line[|line| - 1];
      t != [] && t[|t| - 1] == last[|last| - 1]
  {
  }

  /** A line of words has no white space at its end to trim. */
  lemma RenderPlain(line: seq<Text>, trim: bool)
    requires forall i :: 0 <= i < |line| ==> line[i] != [] && NoSpace(line[i])
    ensures Render(line, trim) == Splitting.Joined(line, SPACE)
  {
    if line != [] {
      JoinedLast(line);
      Untrimmed(Splitting.Joined(line, SPACE));
    }
  }

  lemma {:induction false} RenderedPlain(lines: seq<seq<Text>>, trim: bool)
    requires forall i, k :: 0 <= i < |lines| && 0 <= k < |lines[i]| ==> lines[i][k] != [] && NoSpace(lines[i][k])
    ensures RenderAll(lines, trim) == SpacedLines(lines)
  {
    if lines != [] {
      RenderPlain(lines[0], trim);
      RenderedPlain(lines[1..], trim);
      assert SpacedLines(lines) == [Splitting.Joined(lines[0], SPACE)] + SpacedLines(lines[1..]);
    }
  }

  lemma {:induction false} InFlatten(lines: seq<seq<Text>>, i: nat, k: nat) returns (n: nat)
    requires i < |lines| && k < |lines[i]|
    ensures n < |Flatten(lines)| && Flatten(lines)[n] == lines[i][k]
  {
    var init := lines[..|lines| - 1];
    if i == |lines| - 1 {
      n := |Flatten(init)| + k;
    } else {
      n := InFlatten(init, i, k);
    }
  }

  /** The one way to divide the words into full lines is the one that is rendered. */
  lemma SoftWrapped(width: Text -> nat, text: Text, columns: int, o: WrapOptions, r: Text)
    requires columns > 0 && !o.hard
    requires r == WrappedText(width, text, columns, o)
    ensures Wraps(width, columns, o, text, GreedyLines(width, Words(text), columns), r)
  {
    var words := Words(text);
    SoftLayout(width, words, columns, o);
    GreedyLegal(width, words, columns);
    GreedyFilled(width, words, columns);
    LastGreedy(width, words, columns, o);
    WordsUnbroken(text);
    var lines := GreedyLines(width, words, columns);
    forall i, k | 0 <= i < |lines| && 0 <= k < |lines[i]| ensures lines[i][k] != [] && NoSpace(lines[i][k]) {
      var n := InFlatten(lines, i, k);
    }
    RenderedPlain(lines, o.trim);
    forall other | Legal(width, columns, words, other) ensures |GreedyLines(width, words, columns)| <= |other| {
      GreedyOptimal(width, columns, words, other);
    }
  }

  lemma TextWrapped(width: Text -> nat, text: Text, columns: int, o: WrapOptions)
    requires columns > 0 && width([]) == 0 && text != []
    ensures var r := Splitting.Joined(LinesOf(width, columns, o, TextWords(text, o)), LINE_FEED);
      && (o.wordWrap ==>
            r == WrappedText(width, text, columns, o))
      && (o.wordWrap && !o.hard ==> exists lines :: Wraps(width, columns, o, text, lines, r))
      && (!o.wordWrap ==>
            r == if o.hard && width(text) > columns then Splitting.Joined(Pieces(text, columns), LINE_FEED)
                 else Finished(text, o.trim))
  {
    if o.wordWrap {
      WrappedWords(width, text, columns, o);
      if !o.hard {
        SoftWrapped(width, text, columns, o, WrappedText(width, text, columns, o));
      }
    } else {
      WrappedWhole(width, text, columns, o);
    }
  }

  // ---------- Main results about the layout ----------

  lemma {:induction false} RenderAllLength(lines: seq<seq<Text>>, trim: bool)
    ensures |RenderAll(lines, trim)| == |lines|
  {
    if lines != [] { RenderAllLength(lines[1..], trim); }
  }

  /**
   Soft wrapping is optimal: its lines are the rendered lines of a legal division of the words,
   and no other legal division uses fewer lines.
   */
  lemma LayoutOptimal(width: Text -> nat, words: seq<Text>, columns: int, o: WrapOptions, lines: seq<seq<Text>>)
    requires columns > 0 && !o.hard
    requires Legal(width, columns, words, lines)
    ensures Legal(width, columns, words, GreedyLines(width, words, columns))
    ensures Layout(width, words, columns, o) == RenderAll(GreedyLines(width, words, columns), o.trim)
    ensures |Layout(width, words, columns, o)| <= |lines|
  {
    SoftLayout(width, words, columns, o);
    GreedyLegal(width, words, columns);
    GreedyOptimal(width, columns, words, lines);
    RenderAllLength(GreedyLines(width, words, columns), o.trim);
  }

  /** A line that hard wrapping may produce: a piece of an over-wide word, or neighbouring words that fit. */
  ghost predicate HardLine(width: Text -> nat, words: seq<Text>, columns: int, trim: bool, line: Text)
    requires columns > 0
  {
    || (exists w :: w in words && width(w) > columns && line in Pieces(w, columns))
    || (exists i, k :: NeighboursFit(width, words, columns, i, k) && line == Render(words[i..k], trim))
  }

  ghost predicate NeighboursFit(width: Text -> nat, words: seq<Text>, columns: int, i: int, k: int) {
    0 <= i < k <= |words| && LineWidth(width, words[i..k]) <= columns
  }

  lemma HardLineLater(width: Text -> nat, words: seq<Text>, columns: int, trim: bool, n: nat, line: Text)
    requires columns > 0 && n <= |words| && HardLine(width, words[n..], columns, trim, line)
    ensures HardLine(width, words, columns, trim, line)
  {
    if w :| w in words[n..] && width(w) > columns && line in Pieces(w, columns) {
      assert w in words;
    } else {
      var i, k :| NeighboursFit(width, words[n..], columns, i, k) && line == Render(words[n..][i..k], trim);
      assert words[n..][i..k] == words[n + i..n + k];
      assert NeighboursFit(width, words, columns, n + i, n + k);
    }
  }

  /** The first line fits when it does not hold an over-wide word alone. */
  lemma FirstLineFits(width: Text -> nat, words: seq<Text>, columns: int)
    requires columns > 0 && words != [] && width(words[0]) <= columns
    ensures NeighboursFit(width, words, columns, 0, FitCount(width, words, columns, 1))
  {
    FitCountLongest(width, words, columns, 1);
    var line := words[..FitCount(width, words, columns, 1)];
    assert |line| == 1 ==> line == [words[0]] && line[..0] == [];
    assert words[0..|line|] == line;
  }

  /** With hard breaks every line is a piece of an over-wide word or holds words that fit. */
  lemma {:induction false} HardLayoutFits(width: Text -> nat, words: seq<Text>, columns: int, o: WrapOptions,
                                          line: Text)
    requires columns > 0 && o.hard && line in Layout(width, words, columns, o)
    ensures HardLine(width, words, columns, o.trim, line)
    decreases |words|
  {
    if width(words[0]) > columns {
      InConcat(Pieces(words[0], columns), Layout(width, words[1..], columns, o), line);
      if line in Layout(width, words[1..], columns, o) {
        HardLayoutFits(width, words[1..], columns, o, line);
        HardLineLater(width, words, columns, o.trim, 1, line);
      }
    } else {
      var k := FitCount(width, words, columns, 1);
      FirstLineFits(width, words, columns);
      InConcat([Render(words[..k], o.trim)], Layout(width, words[k..], columns, o), line);
      if line in Layout(width, words[k..], columns, o) {
        HardLayoutFits(width, words[k..], columns, o, line);
        HardLineLater(width, words, columns, o.trim, k, line);
      } else {
        assert words[0..k] == words[..k];
      }
    }
  }

  /** The pieces of a word make up the word; all but the last have the full size. */
  lemma {:induction false} PiecesMean(word: Text, size: nat)
    requires size > 0
    ensures Flatten(Pieces(word, size)) == word
    ensures forall i :: 0 <= i < |Pieces(word, size)| ==> 0 < |Pieces(word, size)[i]| <= size
    ensures forall i :: 0 <= i < |Pieces(word, size)| - 1 ==> |Pieces(word, size)[i]| == size
    decreases |word|
  {
    if |word| > size {
      PiecesMean(word[size..], size);
      FlattenCons(word[..size], Pieces(word[size..], size));
      assert word == word[..size] + word[size..];
    } else if word != [] {
      FlattenCons(word, []);
      assert [word] + [] == [word] && word + [] == word;
    }
  }

  /** Words that all fit are wrapped alike with and without hard breaks. */
  lemma {:induction false} FittingWords(width: Text -> nat, words: seq<Text>, columns: int, o: WrapOptions)
    requires columns > 0 && forall w :: w in words ==> width(w) <= columns
    ensures Layout(width, words, columns, o) == Layout(width, words, columns, o.(hard := false))
    decreases |words|
  {
    if words != [] {
      var k := FitCount(width, words, columns, 1);
      FittingWords(width, words[k..], columns, o);
    }
  }

  lemma {:induction false} FitCountApart(width: Text -> nat, a: seq<Text>, w: Text, b: seq<Text>, columns: int, k: nat)
    requires 1 <= k <= |a| && width(w) > columns
    ensures FitCount(width, a + [w] + b, columns, k) == FitCount(width, a, columns, k)
    decreases |a| - k
  {
    var all := a + [w] + b;
    if k < |a| {
      assert all[..k + 1] == a[..k + 1];
      FitCountApart(width, a, w, b, columns, k + 1);
    } else {
      assert all[..k + 1] == a + [w];
      assert (a + [w])[..|a|] == a;
    }
  }

  /** With hard breaks an over-wide word is cut, and the words on both sides are wrapped on their own. */
  lemma {:induction false} HardApart(width: Text -> nat, a: seq<Text>, w: Text, b: seq<Text>, columns: int,
                                     o: WrapOptions)
    requires columns > 0 && o.hard && width(w) > columns
    ensures Layout(width, a + [w] + b, columns, o)
      == Layout(width, a, columns, o) + Pieces(w, columns) + Layout(width, b, columns, o)
    decreases |a|
  {
    var all := a + [w] + b;
    if a == [] {
      assert all[1..] == b;
      assert [] + Pieces(w, columns) == Pieces(w, columns);
    } else if width(a[0]) > columns {
      CutAround(a, w, b, 1);
      HardApart(width, a[1..], w, b, columns, o);
      Regroup(Pieces(a[0], columns), Layout(width, a[1..], columns, o), Layout(width, a, columns, o),
        Pieces(w, columns), Layout(width, b, columns, o));
    } else {
      var k := FitCount(width, a, columns, 1);
      FitCountApart(width, a, w, b, columns, 1);
      CutAround(a, w, b, k);
      HardApart(width, a[k..], w, b, columns, o);
      Regroup([Render(a[..k], o.trim)], Layout(width, a[k..], columns, o), Layout(width, a, columns, o),
        Pieces(w, columns), Layout(width, b, columns, o));
    }
  }

  // ---------- Display width of hard-wrapped lines ----------

  /** Joining by a space adds one column at most, and trimming adds none. */
  ghost predicate Measures(width: Text -> nat) {
    && (forall a, b :: width(a + [SPACE] + b) <= width(a) + 1 + width(b))
    && (forall t :: width(TrimEnd(t)) <= width(t))
  }

  lemma {:induction false} JoinedWidth(width: Text -> nat, words: seq<Text>)
    requires Measures(width) && words != []
    ensures width(Splitting.Joined(words, SPACE)) <= LineWidth(width, words)
  {
    var init := words[..|words| - 1];
    if init != [] { JoinedWidth(width, init); }
  }

  ghost predicate AllWithin(width: Text -> nat, columns: int, lines: seq<Text>) {
    forall line :: line in lines ==> width(line) <= columns
  }

  lemma WithinConcat(width: Text -> nat, columns: int, a: seq<Text>, b: seq<Text>)
    ensures AllWithin(width, columns, a + b) <==> AllWithin(width, columns, a) && AllWithin(width, columns, b)
  {
    forall line ensures line in a + b <==> line in a || line in b {
      InConcat(a, b, line);
    }
  }

  /** Every piece of an over-wide word, cut by code units, is within the columns. */
  ghost predicate PiecesWithin(width: Text -> nat, columns: int, words: seq<Text>)
    requires columns > 0
  {
    forall w :: w in words && width(w) > columns ==> AllWithin(width, columns, Pieces(w, columns))
  }

  lemma PiecesWithinApart(width: Text -> nat, columns: int, words: seq<Text>, n: nat)
    requires columns > 0 && n <= |words|
    ensures PiecesWithin(width, columns, words)
      <==> PiecesWithin(width, columns, words[..n]) && PiecesWithin(width, columns, words[n..])
  {
    assert words == words[..n] + words[n..];
  }

  lemma {:induction false} PartWithin(width: Text -> nat, words: seq<Text>, columns: int, n: nat)
    requires n <= |words| && LineWidth(width, words[..n]) <= columns
    ensures forall w :: w in words[..n] ==> width(w) <= columns
    decreases n
  {
    if n > 0 {
      assert words[..n][..n - 1] == words[..n - 1];
      assert words[..n] == words[..n - 1] + [words[n - 1]];
      PartWithin(width, words, columns, n - 1);
    }
  }

  /**
   With hard breaks every line is within the columns exactly when every piece of every over-wide
   word is: the code cuts by code units, of which some take more than one column.
   */
  lemma {:induction false} HardFitsExactlyWhen(width: Text -> nat, words: seq<Text>, columns: int, o: WrapOptions)
    requires Measures(width) && columns > 0 && o.hard
    ensures AllWithin(width, columns, Layout(width, words, columns, o)) <==> PiecesWithin(width, columns, words)
    decreases |words|
  {
    if words != [] {
      if width(words[0]) > columns {
        HardFitsExactlyWhen(width, words[1..], columns, o);
        WithinConcat(width, columns, Pieces(words[0], columns), Layout(width, words[1..], columns, o));
        PiecesWithinApart(width, columns, words, 1);
        assert words[..1] == [words[0]];
      } else {
        var k := FitCount(width, words, columns, 1);
        HardFitsExactlyWhen(width, words[k..], columns, o);
        WithinConcat(width, columns, [Render(words[..k], o.trim)], Layout(width, words[k..], columns, o));
        PiecesWithinApart(width, columns, words, k);
        FirstLineFits(width, words, columns);
        assert words[0..k] == words[..k];
        PartWithin(width, words, columns, k);
        JoinedWidth(width, words[..k]);
      }
    }
  }

  /** Where no unit takes more than one column, hard breaks keep every line within the columns. */
  lemma NarrowFits(width: Text -> nat, words: seq<Text>, columns: int, o: WrapOptions)
    requires Measures(width) && columns > 0 && o.hard
    requires forall t :: width(t) <= |t|
    ensures AllWithin(width, columns, Layout(width, words, columns, o))
  {
    forall w | w in words && width(w) > columns ensures AllWithin(width, columns, Pieces(w, columns)) {
      PiecesMean(w, columns);
    }
    HardFitsExactlyWhen(width, words, columns, o);
  }

  /** A word whose first piece, so many code units long, takes more columns than there are. */
  lemma WideUnitsOverflow(width: Text -> nat, word: Text, columns: int, o: WrapOptions)
    requires columns > 0 && o.hard && columns < |word|
    requires width(word) > columns && width(word[..columns]) > columns
    ensures Layout(width, [word], columns, o) != [] && Layout(width, [word], columns, o)[0] == word[..columns]
    ensures !AllWithin(width, columns, Layout(width, [word], columns, o))
  {
    assert [word][1..] == [];
    assert Layout(width, [word], columns, o)[0] in Layout(width, [word], columns, o);
  }

  /** No part of a split text is empty exactly when it neither starts nor ends with white space. */
  lemma SplitNonEmpty(t: Text)
    ensures [] !in Split(t) <==> t != [] && !StartsBlank(t) && !EndsBlank(t)
  {
    SplitIsWords(t);
    WordsNonEmpty(t);
    InConcat(EmptyIf(t == [] || StartsBlank(t)) + Words(t), EmptyIf(EndsBlank(t)), []);
    InConcat(EmptyIf(t == [] || StartsBlank(t)), Words(t), []);
  }
}
