/** Sequences of any element type. */
module Sequences {

  /** Equal-length prefixes of equal concatenations are equal, and so are the rests. */
  lemma Cancel<T>(a: seq<T>, s: seq<T>, b: seq<T>, t: seq<T>)
    requires a + s == b + t
    requires |a| == |b|
    ensures a == b && s == t
  {
    assert a == (a + s)[..|a|];
    assert b == (b + t)[..|b|];
    assert s == (a + s)[|a|..];
    assert t == (b + t)[|b|..];
  }

  /** A concatenation ends in the last element of its second part. */
  lemma LastApart<T>(a: seq<T>, b: seq<T>)
    requires b != []
    ensures b == b[..|b| - 1] + [b[|b| - 1]]
    ensures a + b == a + b[..|b| - 1] + [b[|b| - 1]]
  {
  }

  lemma Extend<T>(a: seq<T>, b: seq<T>, whole: seq<T>, c: seq<T>)
    requires a + b == whole
    ensures a + (b + c) == whole + c
  {
    assert a + (b + c) == a + b + c;
  }

  function Flatten<T>(parts: seq<seq<T>>): seq<T> {
    if parts == [] then [] else Flatten(parts[..|parts| - 1]) + parts[|parts| - 1]
  }

  lemma {:induction false} FlattenCons<T>(p: seq<T>, parts: seq<seq<T>>)
    ensures Flatten([p] + parts) == p + Flatten(parts)
  {
    if parts == [] {
      assert [p] + parts == [p] && [p][..0] == [];
      assert p + [] == p;
    } else {
      var init, last := parts[..|parts| - 1], parts[|parts| - 1];
      FlattenCons(p, init);
      assert ([p] + parts)[..|parts|] == [p] + init;
      Extend(p, Flatten(init), Flatten([p] + init), last);
    }
  }

  /** Array.prototype.flatMap */
  function FlatMap<T, R>(f: T -> seq<R>, items: seq<T>): seq<R> {
    if items == [] then [] else FlatMap(f, items[..|items| - 1]) + f(items[|items| - 1])
  }

  lemma FlatMapNext<T, R>(f: T -> seq<R>, items: seq<T>, x: T)
    ensures FlatMap(f, items + [x]) == FlatMap(f, items) + f(x)
  {
    assert (items + [x])[..|items|] == items;
  }

  lemma FlatMapOne<T, R>(f: T -> seq<R>, x: T)
    ensures FlatMap(f, [x]) == f(x)
  {
    FlatMapNext(f, [], x);
    assert [] + [x] == [x] && [] + f(x) == f(x);
  }

  lemma {:induction false} FlatMapConcat<T, R>(f: T -> seq<R>, a: seq<T>, b: seq<T>)
    ensures FlatMap(f, a + b) == FlatMap(f, a) + FlatMap(f, b)
  {
    if b == [] {
      assert a + b == a;
    } else {
      var init, last := b[..|b| - 1], b[|b| - 1];
      FlatMapConcat(f, a, init);
      FlatMapNext(f, init, last);
      FlatMapNext(f, a + init, last);
      LastApart(a, b);
      Extend(FlatMap(f, a), FlatMap(f, init), FlatMap(f, a + init), f(last));
    }
  }

  /** Mapping in two passes is mapping in one. */
  lemma {:induction false} FlatMapTwice<A, B, C>(g: A -> seq<B>, h: B -> seq<C>, both: A -> seq<C>, items: seq<A>)
    requires forall x :: x in items ==> both(x) == FlatMap(h, g(x))
    ensures FlatMap(h, FlatMap(g, items)) == FlatMap(both, items)
  {
    if items != [] {
      var init, last := items[..|items| - 1], items[|items| - 1];
      FlatMapTwice(g, h, both, init);
      FlatMapConcat(h, FlatMap(g, init), g(last));
    }
  }

  lemma InConcat<T>(a: seq<T>, b: seq<T>, x: T)
    ensures x in a + b <==> x in a || x in b
  {
  }

  /** Where an element of the result comes from. */
  lemma {:induction false} FromItem<T, R>(f: T -> seq<R>, items: seq<T>, y: R) returns (i: nat)
    requires y in FlatMap(f, items)
    ensures i < |items| && y in f(items[i])
  {
    var init, last := items[..|items| - 1], items[|items| - 1];
    InConcat(FlatMap(f, init), f(last), y);
    if y in FlatMap(f, init) {
      i := FromItem(f, init, y);
    } else {
      i := |items| - 1;
    }
  }

  /** What an item yields stands in the result. */
  lemma {:induction false} ToResult<T, R>(f: T -> seq<R>, items: seq<T>, i: nat, y: R)
    requires i < |items| && y in f(items[i])
    ensures y in FlatMap(f, items)
  {
    var init, last := items[..|items| - 1], items[|items| - 1];
    InConcat(FlatMap(f, init), f(last), y);
    if i < |init| { ToResult(f, init, i, y); }
  }

  function Repeat<T>(n: nat, x: T): (r: seq<T>)
    ensures |r| == n && forall i :: 0 <= i < n ==> r[i] == x
  {
    seq(n, _ => x)
  }

  lemma RepeatNext<T>(n: nat, x: T)
    ensures Repeat(n, x) + [x] == Repeat(n + 1, x)
  {
  }

  lemma RepeatOneMore<T>(before: seq<T>, n: nat, x: T)
    ensures before + Repeat(n, x) + [x] == before + Repeat(n + 1, x)
  {
    RepeatNext(n, x);
    assert before + Repeat(n, x) + [x] == before + (Repeat(n, x) + [x]);
  }

  lemma RepeatNothing<T>(before: seq<T>, x: T)
    ensures before + Repeat(0, x) == before
  {
  }

  /** A common prefix moves out of a concatenation of three. */
  lemma Regroup<T>(t: seq<T>, body: seq<T>, whole: seq<T>, a: seq<T>, b: seq<T>)
    requires t + body == whole
    ensures t + (body + a + b) == whole + a + b
  {
    assert t + (body + a + b) == t + body + a + b;
  }

  /** The elements with a property, as often and in the order in which they stand. */
  ghost predicate Chosen<T>(items: seq<T>, keep: T -> bool, at: seq<nat>, kept: seq<T>) {
    && |at| == |kept|
    && (forall k :: 0 <= k < |at| ==> at[k] < |items| && kept[k] == items[at[k]])
    && (forall k, l :: 0 <= k < l < |at| ==> at[k] < at[l])
    && (forall i :: 0 <= i < |items| ==> (keep(items[i]) <==> i in at))
  }

  lemma ChosenNext<T>(init: seq<T>, last: T, keep: T -> bool, at: seq<nat>, kept: seq<T>)
    requires Chosen(init, keep, at, kept)
    ensures keep(last) ==> Chosen(init + [last], keep, at + [|init|], kept + [last])
    ensures !keep(last) ==> Chosen(init + [last], keep, at, kept)
  {
    var items := init + [last];
    assert forall i :: 0 <= i < |init| ==> items[i] == init[i];
    if keep(last) {
      forall i | 0 <= i < |items| ensures keep(items[i]) <==> i in at + [|init|] {
        assert i in at + [|init|] <==> i in at || i == |init|;
      }
    }
  }
}
