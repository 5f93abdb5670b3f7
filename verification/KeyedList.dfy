/** Lists keyed by a text: a Map built from items and read back as its values. */
module KeyedList {
  import opened Sequences
  import opened Utf16
  import opened Wrappers

  /** The position of the entry with this key, or the number of entries. */
  function IndexOf<T>(entries: seq<T>, keyOf: T -> Text, key: Text): (i: nat)
    ensures i <= |entries|
    ensures i < |entries| ==> keyOf(entries[i]) == key
    ensures forall j :: 0 <= j < i ==> keyOf(entries[j]) != key
  {
    if entries == [] || keyOf(entries[0]) == key then 0 else 1 + IndexOf(entries[1..], keyOf, key)
  }

  /** Map.prototype.set: a known key keeps its position. */
  function Put<T>(entries: seq<T>, keyOf: T -> Text, item: T): seq<T> {
    var i := IndexOf(entries, keyOf, keyOf(item));
    if i < |entries| then entries[i := item] else entries + [item]
  }

  function PutAll<T>(entries: seq<T>, keyOf: T -> Text, items: seq<T>): seq<T> {
    if items == [] then entries
    else Put(PutAll(entries, keyOf, items[..|items| - 1]), keyOf, items[|items| - 1])
  }

  method MergeByKey<T>(target: seq<T>, source: seq<T>, keyOf: T -> Text) returns (merged: seq<T>)
    ensures merged == PutAll([], keyOf, target + source)
  {
    merged := [];
    for i := 0 to |target|
      invariant merged == PutAll([], keyOf, target[..i])
    {
      PutNext([], keyOf, target[..i], target[i]);
      assert target[..i + 1] == target[..i] + [target[i]];
      merged := Put(merged, keyOf, target[i]);
    }
    assert target[..|target|] == target == target + source[..0];
    for i := 0 to |source|
      invariant merged == PutAll([], keyOf, target + source[..i])
    {
      PutNext([], keyOf, target + source[..i], source[i]);
      assert target + source[..i + 1] == target + source[..i] + [source[i]];
      merged := Put(merged, keyOf, source[i]);
    }
    assert source[..|source|] == source;
  }

  lemma PutNext<T>(entries: seq<T>, keyOf: T -> Text, items: seq<T>, item: T)
    ensures PutAll(entries, keyOf, items + [item]) == Put(PutAll(entries, keyOf, items), keyOf, item)
  {
    assert (items + [item])[..|items|] == items;
  }

  ghost predicate DistinctKeys<T>(entries: seq<T>, keyOf: T -> Text) {
    forall i, j :: 0 <= i < j < |entries| ==> keyOf(entries[i]) != keyOf(entries[j])
  }

  lemma {:induction false} PutAllDistinct<T>(keyOf: T -> Text, items: seq<T>)
    ensures DistinctKeys(PutAll([], keyOf, items), keyOf)
  {
    if items != [] { PutAllDistinct(keyOf, items[..|items| - 1]); }
  }

  /** What the list holds under a key. */
  function At<T>(entries: seq<T>, keyOf: T -> Text, key: Text): Option<T> {
    var i := IndexOf(entries, keyOf, key);
    if i < |entries| then Some(entries[i]) else None
  }

  function LastWith<T>(items: seq<T>, keyOf: T -> Text, key: Text): Option<T> {
    if items == [] then None
    else if keyOf(items[|items| - 1]) == key then Some(items[|items| - 1])
    else LastWith(items[..|items| - 1], keyOf, key)
  }

  lemma FoundAt<T>(entries: seq<T>, keyOf: T -> Text, i: nat)
    requires DistinctKeys(entries, keyOf) && i < |entries|
    ensures IndexOf(entries, keyOf, keyOf(entries[i])) == i
  {
  }

  /** Setting a key changes what stands under it and nothing else. */
  lemma PutAt<T>(entries: seq<T>, keyOf: T -> Text, item: T, key: Text)
    requires DistinctKeys(entries, keyOf)
    ensures DistinctKeys(Put(entries, keyOf, item), keyOf)
    ensures At(Put(entries, keyOf, item), keyOf, key)
      == if keyOf(item) == key then Some(item) else At(entries, keyOf, key)
  {
    var after := Put(entries, keyOf, item);
    var i, j := IndexOf(entries, keyOf, key), IndexOf(after, keyOf, key);
    if j < |after| {
      assert j < |entries| && keyOf(item) != key ==> after[j] == entries[j];
    }
    if i < |entries| && keyOf(item) != key {
      assert after[i] == entries[i];
      FoundAt(after, keyOf, i);
    }
    if keyOf(item) == key {
      var n := IndexOf(entries, keyOf, key);
      assert after[n] == item;
      FoundAt(after, keyOf, n);
    }
  }

  /** Under every key the merged list holds the last item that has it. */
  lemma {:induction false} LastItemWins<T>(keyOf: T -> Text, items: seq<T>, key: Text)
    ensures At(PutAll([], keyOf, items), keyOf, key) == LastWith(items, keyOf, key)
  {
    if items != [] {
      var init, last := items[..|items| - 1], items[|items| - 1];
      LastItemWins(keyOf, init, key);
      PutAllDistinct(keyOf, init);
      PutAt(PutAll([], keyOf, init), keyOf, last, key);
    }
  }

  /** A list without repeated keys is its own merge. */
  lemma {:induction false} PutAllSame<T>(keyOf: T -> Text, items: seq<T>)
    requires DistinctKeys(items, keyOf)
    ensures PutAll([], keyOf, items) == items
  {
    if items != [] {
      var init, last := items[..|items| - 1], items[|items| - 1];
      PutAllSame(keyOf, init);
      assert items == init + [last];
      assert IndexOf(init, keyOf, keyOf(last)) == |init|;
    }
  }

  lemma PutAllTwice<T>(keyOf: T -> Text, items: seq<T>)
    ensures PutAll([], keyOf, PutAll([], keyOf, items)) == PutAll([], keyOf, items)
  {
    PutAllDistinct(keyOf, items);
    PutAllSame(keyOf, PutAll([], keyOf, items));
  }

  /** The keys of a list in the order in which they first appear. */
  function FirstKeys<T>(items: seq<T>, keyOf: T -> Text): seq<Text> {
    if items == [] then []
    else
      var before, key := FirstKeys(items[..|items| - 1], keyOf), keyOf(items[|items| - 1]);
      if key in before then before else before + [key]
  }

  /** Keys stand where they first appeared. */
  lemma {:induction false} FirstPlaceKept<T>(keyOf: T -> Text, items: seq<T>)
    ensures |PutAll([], keyOf, items)| == |FirstKeys(items, keyOf)|
    ensures forall i :: 0 <= i < |PutAll([], keyOf, items)| ==>
      keyOf(PutAll([], keyOf, items)[i]) == FirstKeys(items, keyOf)[i]
  {
    if items != [] {
      var init, last := items[..|items| - 1], items[|items| - 1];
      FirstPlaceKept(keyOf, init);
      var entries, keys := PutAll([], keyOf, init), FirstKeys(init, keyOf);
      var i := IndexOf(entries, keyOf, keyOf(last));
      if i < |entries| {
        assert keys[i] == keyOf(last);
      }
    }
  }
}
