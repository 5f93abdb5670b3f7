/** Splitting a text at every occurrence of one unit, as String.prototype.split does. */
module Splitting {
  import opened Sequences
  import opened Utf16

  /** One more unit ends the last part or makes it longer. */
  function Push(parts: seq<Text>, u: CodeUnit, separator: CodeUnit): (r: seq<Text>)
    requires parts != []
    ensures r != []
  {
    if u == separator then parts + [[]]
    else parts[..|parts| - 1] + [parts[|parts| - 1] + [u]]
  }

  /** The parts of a text between its separators. */
  function Split(t: Text, separator: CodeUnit): (parts: seq<Text>)
    ensures parts != []
  {
    if t == [] then [[]] else Push(Split(t[..|t| - 1], separator), t[|t| - 1], separator)
  }

  /** The parts, with a separator between each two. */
  function Joined(parts: seq<Text>, separator: CodeUnit): Text {
    if parts == [] then []
    else if |parts| == 1 then parts[0]
    else Joined(parts[..|parts| - 1], separator) + [separator] + parts[|parts| - 1]
  }

  lemma JoinedNext(parts: seq<Text>, u: CodeUnit, separator: CodeUnit)
    requires parts != []
    ensures Joined(Push(parts, u, separator), separator) == Joined(parts, separator) + [u]
  {
    var init, last := parts[..|parts| - 1], parts[|parts| - 1];
    if u == separator {
      assert (parts + [[]])[..|parts|] == parts;
      assert Joined(parts, separator) + [separator] + [] == Joined(parts, separator) + [separator];
    } else {
      assert Push(parts, u, separator)[..|parts| - 1] == init;
      if init != [] {
        Extend(Joined(init, separator) + [separator], last, Joined(parts, separator), [u]);
      }
    }
  }

  /** Splitting undoes joining: the parts hold no separator, and joined they are the text. */
  lemma {:induction false} SplitMeans(t: Text, separator: CodeUnit)
    ensures Joined(Split(t, separator), separator) == t
    ensures forall i :: 0 <= i < |Split(t, separator)| ==> separator !in Split(t, separator)[i]
  {
    if t != [] {
      SplitMeans(t[..|t| - 1], separator);
      JoinedNext(Split(t[..|t| - 1], separator), t[|t| - 1], separator);
    }
  }

  lemma SplitNext(t: Text, u: CodeUnit, separator: CodeUnit)
    ensures Split(t + [u], separator) == Push(Split(t, separator), u, separator)
  {
    assert (t + [u])[..|t|] == t;
  }

  lemma PushAfter(before: seq<Text>, parts: seq<Text>, u: CodeUnit, separator: CodeUnit)
    requires parts != []
    ensures Push(before + parts, u, separator) == before + Push(parts, u, separator)
  {
    var all := before + parts;
    assert all[..|all| - 1] == before + parts[..|parts| - 1];
    assert all[|all| - 1] == parts[|parts| - 1];
  }

  lemma {:induction false} SplitAfter(x: Text, before: seq<Text>, b: Text, separator: CodeUnit)
    requires Split(x, separator) == before + [[]]
    ensures Split(x + b, separator) == before + Split(b, separator)
  {
    if b == [] {
      assert x + b == x;
    } else {
      var init, u := b[..|b| - 1], b[|b| - 1];
      LastApart(x, b);
      SplitAfter(x, before, init, separator);
      SplitNext(x + init, u, separator);
      SplitNext(init, u, separator);
      PushAfter(before, Split(init, separator), u, separator);
    }
  }

  lemma SplitAtSeparator(a: Text, b: Text, separator: CodeUnit)
    ensures Split(a + [separator] + b, separator) == Split(a, separator) + Split(b, separator)
  {
    SplitNext(a, separator, separator);
    SplitAfter(a + [separator], Split(a, separator), b, separator);
  }

  lemma {:induction false} OnePart(t: Text, separator: CodeUnit)
    requires forall i :: 0 <= i < |t| ==> t[i] != separator
    ensures Split(t, separator) == [t]
  {
    if t != [] {
      OnePart(t[..|t| - 1], separator);
      assert t == t[..|t| - 1] + [t[|t| - 1]];
    }
  }
}
