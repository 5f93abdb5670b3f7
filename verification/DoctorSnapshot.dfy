/**
 The doctor snapshot: a key-sorting printer whose output decides whether two snapshots of
 a domain differ, and the comparison of two snapshot documents.
 */
module DoctorSnapshot {
  import opened Numerals
  import opened Sequences
  import opened Utf16
  import opened Wrappers
  import Json
  import JsonReader

  // ---------- Values in memory ----------

  /** A value as JSON.stringify meets it; an object lists its own keys in insertion order. */
  datatype Value =
    | Undefined
    | Null
    | Bool(value: bool)
    | Number(numeral: Text)
    | NonFinite
    | String(text: Text)
    | Array(items: seq<Value>)
    | Object(fields: seq<Field>)

  datatype Field = Field(key: Text, value: Value)

  ghost predicate WellFormed(v: Value) {
    match v
    case Number(numeral) => Json.IsNumeral(numeral)
    case Array(items) => forall i :: 0 <= i < |items| ==> WellFormed(items[i])
    case Object(fields) =>
      && DistinctKeys(fields)
      && forall i :: 0 <= i < |fields| ==> WellFormed(fields[i].value)
    case _ => true
  }

  ghost predicate DistinctKeys(fields: seq<Field>) {
    forall i, j :: 0 <= i < j < |fields| ==> fields[i].key != fields[j].key
  }

  /** The object has the key, with a value that is printed. */
  ghost predicate Present(fields: seq<Field>, key: Text) {
    exists i :: 0 <= i < |fields| && fields[i].key == key && !fields[i].value.Undefined?
  }

  predicate PrintsNull(v: Value) {
    v.Undefined? || v.Null? || v.NonFinite?
  }

  /** Equality up to key order at every depth, undefined fields dropped. */
  ghost predicate Same(v: Value, w: Value)
    decreases v
  {
    match v
    case Bool(_) => v == w
    case Number(_) => v == w
    case String(_) => v == w
    case Array(items) =>
      && w.Array?
      && |items| == |w.items|
      && forall i :: 0 <= i < |items| ==> Same(items[i], w.items[i])
    case Object(fields) =>
      && w.Object?
      && (forall k :: Present(fields, k) <==> Present(w.fields, k))
      && (forall i, j :: 0 <= i < |fields| && 0 <= j < |w.fields|
           && fields[i].key == w.fields[j].key
           && !fields[i].value.Undefined? && !w.fields[j].value.Undefined?
           ==> Same(fields[i].value, w.fields[j].value))
    case _ => PrintsNull(w)
  }

  // ---------- Key order ----------

  /** The order of Array.prototype.sort without a comparator: by code units. */
  predicate LexLess(a: Text, b: Text) {
    if b == [] then false
    else if a == [] then true
    else if a[0] != b[0] then a[0] < b[0]
    else LexLess(a[1..], b[1..])
  }

  /** Keys that an object enumerates before all others, in numeric order. */
  predicate IsIndexKey(key: Text) {
    IsCanonical(key) && DecimalValue(key) < 0xFFFF_FFFF
  }

  predicate IndexLess(a: Text, b: Text) {
    IsIndexKey(a) && IsIndexKey(b) && DecimalValue(a) < DecimalValue(b)
  }

  function Insert(less: (Text, Text) -> bool, f: Json.Field, fields: seq<Json.Field>): seq<Json.Field> {
    if fields == [] || less(f.key, fields[0].key) then [f] + fields
    else [fields[0]] + Insert(less, f, fields[1..])
  }

  function SortBy(less: (Text, Text) -> bool, fields: seq<Json.Field>): seq<Json.Field> {
    if fields == [] then [] else Insert(less, fields[0], SortBy(less, fields[1..]))
  }

  function Select(index: bool, fields: seq<Json.Field>): seq<Json.Field> {
    if fields == [] then []
    else (if IsIndexKey(fields[0].key) == index then [fields[0]] else []) + Select(index, fields[1..])
  }

  /** The order in which an object built from these entries enumerates its keys. */
  function OwnKeyOrder(entries: seq<Json.Field>): seq<Json.Field> {
    SortBy(IndexLess, Select(true, entries)) + Select(false, entries)
  }

  // ---------- Printing ----------

  /** What the key-sorting replacer and JSON.stringify make of a value inside a document. */
  function Convert(v: Value): Json.Tree {
    match v
    case Bool(b) => Json.Bool(b)
    case Number(numeral) => Json.Number(numeral)
    case String(text) => Json.String(text)
    case Array(items) => Json.Array(ConvertItems(items))
    case Object(fields) => Json.Object(OwnKeyOrder(SortBy(LexLess, ConvertFields(fields))))
    case _ => Json.Null
  }

  function ConvertItems(items: seq<Value>): seq<Json.Tree> {
    if items == [] then [] else [Convert(items[0])] + ConvertItems(items[1..])
  }

  function ConvertFields(fields: seq<Field>): seq<Json.Field> {
    if fields == [] then []
    else
      (if fields[0].value.Undefined? then []
       else [Json.Field(fields[0].key, Convert(fields[0].value))])
      + ConvertFields(fields[1..])
  }

  function StableStringify(v: Value): Text {
    (if v.Undefined? then Lit("undefined") else Json.Print(Convert(v))) + [LINE_FEED]
  }

  // ---------- Sorting by key is canonical ----------

  lemma {:induction false} LexAsymmetric(a: Text, b: Text)
    ensures !(LexLess(a, b) && LexLess(b, a))
  {
    if a != [] && b != [] && a[0] == b[0] {
      LexAsymmetric(a[1..], b[1..]);
    }
  }

  lemma {:induction false} LexTransitive(a: Text, b: Text, c: Text)
    requires LexLess(a, b) && LexLess(b, c)
    ensures LexLess(a, c)
  {
    if a != [] && a[0] == b[0] == c[0] {
      LexTransitive(a[1..], b[1..], c[1..]);
    }
  }

  lemma {:induction false} LexTotal(a: Text, b: Text)
    ensures a == b || LexLess(a, b) || LexLess(b, a)
  {
    if a != [] && b != [] && a[0] == b[0] {
      LexTotal(a[1..], b[1..]);
      assert a == [a[0]] + a[1..] && b == [b[0]] + b[1..];
    }
  }

  ghost predicate Sorted(fields: seq<Json.Field>) {
    forall i, j :: 0 <= i < j < |fields| ==> LexLess(fields[i].key, fields[j].key)
  }

  ghost predicate SameMembers<T(!new)>(a: seq<T>, b: seq<T>) {
    forall x :: x in a <==> x in b
  }

  lemma {:induction false} InsertMembers(less: (Text, Text) -> bool, f: Json.Field, fields: seq<Json.Field>)
    ensures SameMembers(Insert(less, f, fields), [f] + fields)
  {
    if fields != [] && !less(f.key, fields[0].key) {
      InsertMembers(less, f, fields[1..]);
      assert fields == [fields[0]] + fields[1..];
    }
  }

  lemma {:induction false} SortMembers(less: (Text, Text) -> bool, fields: seq<Json.Field>)
    ensures SameMembers(SortBy(less, fields), fields)
  {
    if fields != [] {
      SortMembers(less, fields[1..]);
      InsertMembers(less, fields[0], SortBy(less, fields[1..]));
      assert fields == [fields[0]] + fields[1..];
    }
  }

  lemma {:induction false} InsertSorted(f: Json.Field, fields: seq<Json.Field>)
    requires Sorted(fields)
    requires forall g :: g in fields ==> g.key != f.key
    ensures Sorted(Insert(LexLess, f, fields))
  {
    if fields == [] {
    } else if LexLess(f.key, fields[0].key) {
      forall j | 1 <= j < |fields| ensures LexLess(f.key, fields[j].key) {
        LexTransitive(f.key, fields[0].key, fields[j].key);
      }
    } else {
      LexTotal(f.key, fields[0].key);
      assert fields[0] in fields;
      InsertSorted(f, fields[1..]);
      InsertMembers(LexLess, f, fields[1..]);
      var rest := Insert(LexLess, f, fields[1..]);
      forall j | 0 <= j < |rest| ensures LexLess(fields[0].key, rest[j].key) {
        assert rest[j] in [f] + fields[1..];
      }
    }
  }

  ghost predicate DistinctEntryKeys(fields: seq<Json.Field>) {
    forall i, j :: 0 <= i < j < |fields| ==> fields[i].key != fields[j].key
  }

  lemma {:induction false} SortSorted(fields: seq<Json.Field>)
    requires DistinctEntryKeys(fields)
    ensures Sorted(SortBy(LexLess, fields))
  {
    if fields != [] {
      SortSorted(fields[1..]);
      SortMembers(LexLess, fields[1..]);
      InsertSorted(fields[0], SortBy(LexLess, fields[1..]));
    }
  }

  /** Strictly sorted sequences with the same members are equal. */
  lemma {:induction false} SortedUnique(a: seq<Json.Field>, b: seq<Json.Field>)
    requires Sorted(a) && Sorted(b)
    requires SameMembers(a, b)
    ensures a == b
  {
    assert a != [] ==> a[0] in b;
    assert b != [] ==> b[0] in a;
    if a != [] {
      LexAsymmetric(a[0].key, b[0].key);
      assert a[0] == b[0];
      forall x ensures x in a[1..] <==> x in b[1..] {
        LexAsymmetric(x.key, x.key);
        assert x in a <==> x in b;
        assert a == [a[0]] + a[1..] && b == [b[0]] + b[1..];
      }
      SortedUnique(a[1..], b[1..]);
      assert a == [a[0]] + a[1..] && b == [b[0]] + b[1..];
    }
  }

  lemma {:induction false} SelectMembers(fields: seq<Json.Field>)
    ensures forall x :: x in fields <==> x in Select(true, fields) || x in Select(false, fields)
  {
    if fields != [] {
      SelectMembers(fields[1..]);
      assert fields == [fields[0]] + fields[1..];
    }
  }

  lemma OrderMembers(fields: seq<Json.Field>)
    ensures SameMembers(OwnKeyOrder(SortBy(LexLess, fields)), fields)
  {
    var sorted := SortBy(LexLess, fields);
    SortMembers(LexLess, fields);
    SelectMembers(sorted);
    SortMembers(IndexLess, Select(true, sorted));
  }

  /** Ordering by key forgets the order of entries and nothing else. */
  lemma OrderCanonical(a: seq<Json.Field>, b: seq<Json.Field>)
    requires DistinctEntryKeys(a) && DistinctEntryKeys(b)
    ensures OwnKeyOrder(SortBy(LexLess, a)) == OwnKeyOrder(SortBy(LexLess, b)) <==> SameMembers(a, b)
  {
    if SameMembers(a, b) {
      SortSorted(a);
      SortSorted(b);
      SortMembers(LexLess, a);
      SortMembers(LexLess, b);
      SortedUnique(SortBy(LexLess, a), SortBy(LexLess, b));
    }
    OrderMembers(a);
    OrderMembers(b);
  }

  // ---------- Conversion decides equality ----------

  lemma {:induction false} ConvertItemsAt(items: seq<Value>)
    ensures |ConvertItems(items)| == |items|
    ensures forall i :: 0 <= i < |items| ==> ConvertItems(items)[i] == Convert(items[i])
  {
    if items != [] {
      ConvertItemsAt(items[1..]);
    }
  }

  /** Field i of the object is printed as the entry x. */
  ghost predicate Yields(fields: seq<Field>, i: int, x: Json.Field) {
    && 0 <= i < |fields|
    && fields[i].key == x.key
    && !fields[i].value.Undefined?
    && Convert(fields[i].value) == x.value
  }

  lemma {:induction false} ConvertFieldsMember(fields: seq<Field>, x: Json.Field)
    ensures x in ConvertFields(fields) <==> exists i :: Yields(fields, i, x)
  {
    if fields != [] {
      ConvertFieldsMember(fields[1..], x);
      if exists i :: Yields(fields[1..], i, x) {
        var i :| Yields(fields[1..], i, x);
        assert Yields(fields, i + 1, x);
      }
      if exists i :: Yields(fields, i, x) {
        var i :| Yields(fields, i, x);
        if i > 0 { assert Yields(fields[1..], i - 1, x); }
      }
      if !fields[0].value.Undefined? && x == Json.Field(fields[0].key, Convert(fields[0].value)) {
        assert Yields(fields, 0, x);
      }
    }
  }

  lemma {:induction false} ConvertFieldsDistinct(fields: seq<Field>)
    requires DistinctKeys(fields)
    ensures DistinctEntryKeys(ConvertFields(fields))
  {
    if fields != [] {
      ConvertFieldsDistinct(fields[1..]);
      var rest := ConvertFields(fields[1..]);
      forall j | 0 <= j < |rest| ensures rest[j].key != fields[0].key {
        ConvertFieldsMember(fields[1..], rest[j]);
      }
    }
  }

  /** Two values convert to one tree exactly when they are equal up to key order. */
  lemma {:induction false} ConvertDecides(v: Value, w: Value)
    requires WellFormed(v) && WellFormed(w)
    ensures Convert(v) == Convert(w) <==> Same(v, w)
    decreases v
  {
    match v {
      case Array(items) =>
        if w.Array? {
          ConvertItemsAt(items);
          ConvertItemsAt(w.items);
          if |items| == |w.items| {
            forall i | 0 <= i < |items|
              ensures ConvertItems(items)[i] == ConvertItems(w.items)[i] <==> Same(items[i], w.items[i])
            {
              ConvertDecides(items[i], w.items[i]);
            }
          }
        }
      case Object(fields) =>
        if w.Object? {
          forall i, j | 0 <= i < |fields| && 0 <= j < |w.fields|
            ensures Convert(fields[i].value) == Convert(w.fields[j].value)
              <==> Same(fields[i].value, w.fields[j].value)
          {
            ConvertDecides(fields[i].value, w.fields[j].value);
          }
          FieldsDecide(fields, w.fields);
        }
      case _ =>
    }
  }

  lemma FieldsDecide(f: seq<Field>, g: seq<Field>)
    requires WellFormed(Object(f)) && WellFormed(Object(g))
    requires forall i, j :: 0 <= i < |f| && 0 <= j < |g| ==>
      (Convert(f[i].value) == Convert(g[j].value) <==> Same(f[i].value, g[j].value))
    ensures Convert(Object(f)) == Convert(Object(g)) <==> Same(Object(f), Object(g))
  {
    var a, b := ConvertFields(f), ConvertFields(g);
    ConvertFieldsDistinct(f);
    ConvertFieldsDistinct(g);
    OrderCanonical(a, b);
    if SameMembers(a, b) {
      FieldsSame(f, g);
    }
    if Same(Object(f), Object(g)) {
      forall x ensures x in a <==> x in b {
        SameEntries(f, g, x);
        SameEntries(g, f, x);
      }
    }
  }

  lemma SameEntries(f: seq<Field>, g: seq<Field>, x: Json.Field)
    requires forall k :: Present(f, k) <==> Present(g, k)
    requires forall i, j | 0 <= i < |f| && 0 <= j < |g| :: (
      f[i].key == g[j].key && !f[i].value.Undefined? && !g[j].value.Undefined?
      ==> Convert(f[i].value) == Convert(g[j].value))
    ensures x in ConvertFields(f) ==> x in ConvertFields(g)
  {
    ConvertFieldsMember(f, x);
    ConvertFieldsMember(g, x);
    if x in ConvertFields(f) {
      var i :| Yields(f, i, x);
      assert Present(f, x.key);
      var j :| 0 <= j < |g| && g[j].key == x.key && !g[j].value.Undefined?;
      assert Yields(g, j, x);
    }
  }

  lemma PresentEntry(f: seq<Field>, g: seq<Field>, k: Text)
    requires SameMembers(ConvertFields(f), ConvertFields(g))
    ensures Present(f, k) ==> Present(g, k)
  {
    if Present(f, k) {
      var i :| 0 <= i < |f| && f[i].key == k && !f[i].value.Undefined?;
      var x := Json.Field(k, Convert(f[i].value));
      assert Yields(f, i, x);
      ConvertFieldsMember(f, x);
      ConvertFieldsMember(g, x);
      var j :| Yields(g, j, x);
    }
  }

  lemma FieldsSame(f: seq<Field>, g: seq<Field>)
    requires WellFormed(Object(f)) && WellFormed(Object(g))
    requires forall i, j :: 0 <= i < |f| && 0 <= j < |g| ==>
      (Convert(f[i].value) == Convert(g[j].value) <==> Same(f[i].value, g[j].value))
    requires SameMembers(ConvertFields(f), ConvertFields(g))
    ensures Same(Object(f), Object(g))
  {
    forall k ensures Present(f, k) <==> Present(g, k) {
      PresentEntry(f, g, k);
      PresentEntry(g, f, k);
    }
    forall i, j | 0 <= i < |f| && 0 <= j < |g| && f[i].key == g[j].key
        && !f[i].value.Undefined? && !g[j].value.Undefined?
      ensures Same(f[i].value, g[j].value)
    {
      var x := Json.Field(f[i].key, Convert(f[i].value));
      assert Yields(f, i, x);
      ConvertFieldsMember(f, x);
      ConvertFieldsMember(g, x);
      var j' :| Yields(g, j', x);
      assert j' == j;
    }
  }

  // ---------- The printer is canonical ----------

  lemma {:induction false} ConvertValid(v: Value)
    requires WellFormed(v)
    ensures Json.Valid(Convert(v))
  {
    match v {
      case Array(items) =>
        ConvertItemsAt(items);
        forall i | 0 <= i < |items| { ConvertValid(items[i]); }
      case Object(fields) =>
        var entries := OwnKeyOrder(SortBy(LexLess, ConvertFields(fields)));
        OrderMembers(ConvertFields(fields));
        forall i | 0 <= i < |fields| { ConvertValid(fields[i].value); }
        forall k | 0 <= k < |entries| ensures Json.Valid(entries[k].value) {
          assert entries[k] in entries;
          ConvertFieldsMember(fields, entries[k]);
        }
      case _ =>
    }
  }

  // ---------- What the printed text shows ----------

  /** The keys agree up to a unit that is smaller in the first, or that only the second has. */
  ghost predicate LessAt(a: Text, b: Text, n: nat) {
    n <= |a| && n < |b| && (forall i :: 0 <= i < n ==> a[i] == b[i]) && (n < |a| ==> a[n] < b[n])
  }

  /** The order in which keys are printed: array indices by value, then all others by code units. */
  ghost predicate Precedes(a: Text, b: Text) {
    if IsIndexKey(a) && IsIndexKey(b) then DecimalValue(a) < DecimalValue(b)
    else IsIndexKey(a) || (!IsIndexKey(b) && exists n: nat :: LessAt(a, b, n))
  }

  ghost predicate InOrder(fields: seq<Json.Field>) {
    forall i, j :: 0 <= i < j < |fields| ==> Precedes(fields[i].key, fields[j].key)
  }

  /**
   The tree shows the value: scalars as they are, elements in place, and the fields that print
   under their keys, in key order.
   */
  ghost predicate Shows(j: Json.Tree, v: Value)
    decreases v
  {
    match v
    case Bool(b) => j == Json.Bool(b)
    case Number(numeral) => j == Json.Number(numeral)
    case String(text) => j == Json.String(text)
    case Array(items) =>
      && j.Array? && |j.items| == |items|
      && forall i :: 0 <= i < |items| ==> Shows(j.items[i], items[i])
    case Object(fields) =>
      && j.Object? && InOrder(j.fields)
      && (forall k :: Present(fields, k) <==> exists i :: 0 <= i < |j.fields| && j.fields[i].key == k)
      && (forall i, n :: 0 <= i < |j.fields| && 0 <= n < |fields|
           && j.fields[i].key == fields[n].key && !fields[n].value.Undefined?
           ==> Shows(j.fields[i].value, fields[n].value))
    case _ => j == Json.Null
  }

  /** A key is an array index exactly when it is the numeral of one. */
  lemma IndexKeyMeans(key: Text)
    ensures IsIndexKey(key) <==> exists n: nat :: n < 0xFFFF_FFFF && key == Decimal(n)
  {
    if IsIndexKey(key) {
      ValueBack(key);
    }
    if n: nat :| n < 0xFFFF_FFFF && key == Decimal(n) {
      DecimalBack(n);
    }
  }

  lemma {:induction false} LexMeans(a: Text, b: Text)
    ensures LexLess(a, b) <==> exists n: nat :: LessAt(a, b, n)
  {
    if b != [] && a != [] && a[0] == b[0] {
      LexMeans(a[1..], b[1..]);
      if n: nat :| LessAt(a[1..], b[1..], n) {
        forall i | 0 < i < n + 1 ensures a[i] == b[i] { assert a[1..][i - 1] == b[1..][i - 1]; }
        assert LessAt(a, b, n + 1);
      }
      if n: nat :| LessAt(a, b, n) {
        assert LessAt(a[1..], b[1..], n - 1);
      }
    } else if LexLess(a, b) {
      assert LessAt(a, b, 0);
    }
  }

  ghost predicate IndexSorted(fields: seq<Json.Field>) {
    forall i, j :: 0 <= i < j < |fields| ==> IndexLess(fields[i].key, fields[j].key)
  }

  lemma {:induction false} InsertByIndex(f: Json.Field, fields: seq<Json.Field>)
    requires IndexSorted(fields) && IsIndexKey(f.key)
    requires forall g :: g in fields ==> IsIndexKey(g.key) && DecimalValue(g.key) != DecimalValue(f.key)
    ensures IndexSorted(Insert(IndexLess, f, fields))
  {
    if fields != [] && !IndexLess(f.key, fields[0].key) {
      var rest := Insert(IndexLess, f, fields[1..]);
      assert fields[0] in fields;
      InsertByIndex(f, fields[1..]);
      InsertMembers(IndexLess, f, fields[1..]);
      forall j | 0 <= j < |rest| ensures IndexLess(fields[0].key, rest[j].key) {
        assert rest[j] in [f] + fields[1..];
      }
    }
  }

  lemma SameValueSameKey(a: Text, b: Text)
    requires IsIndexKey(a) && IsIndexKey(b) && DecimalValue(a) == DecimalValue(b)
    ensures a == b
  {
    ValueBack(a);
    ValueBack(b);
  }

  lemma {:induction false} SortByIndex(fields: seq<Json.Field>)
    requires DistinctEntryKeys(fields) && forall g :: g in fields ==> IsIndexKey(g.key)
    ensures IndexSorted(SortBy(IndexLess, fields))
  {
    if fields != [] {
      var rest := fields[1..];
      SortByIndex(rest);
      SortMembers(IndexLess, rest);
      assert fields[0] in fields;
      forall g | g in SortBy(IndexLess, rest)
        ensures IsIndexKey(g.key) && DecimalValue(g.key) != DecimalValue(fields[0].key)
      {
        var i :| 0 <= i < |rest| && rest[i] == g;
        assert fields[i + 1] == g && g in fields;
        if DecimalValue(g.key) == DecimalValue(fields[0].key) { SameValueSameKey(g.key, fields[0].key); }
      }
      InsertByIndex(fields[0], SortBy(IndexLess, rest));
    }
  }

  /** Selecting keeps the order. */
  lemma {:induction false} SelectSorted(index: bool, fields: seq<Json.Field>)
    requires Sorted(fields)
    ensures Sorted(Select(index, fields)) && DistinctEntryKeys(Select(index, fields))
    ensures forall g :: g in Select(index, fields) ==> g in fields && IsIndexKey(g.key) == index
  {
    if fields != [] {
      var rest := Select(index, fields[1..]);
      SelectSorted(index, fields[1..]);
      assert fields == [fields[0]] + fields[1..];
      forall j | 0 <= j < |rest| ensures LexLess(fields[0].key, rest[j].key) {
        assert rest[j] in fields[1..];
      }
      SortedDistinct(Select(index, fields));
    }
  }

  lemma SortedDistinct(fields: seq<Json.Field>)
    requires Sorted(fields)
    ensures DistinctEntryKeys(fields)
  {
    forall i, j | 0 <= i < j < |fields| ensures fields[i].key != fields[j].key {
      LexAsymmetric(fields[i].key, fields[j].key);
    }
  }

  /** Entries of distinct keys are enumerated in key order. */
  lemma OrderedKeys(entries: seq<Json.Field>)
    requires DistinctEntryKeys(entries)
    ensures InOrder(OwnKeyOrder(SortBy(LexLess, entries)))
  {
    var sorted := SortBy(LexLess, entries);
    SortSorted(entries);
    SelectSorted(true, sorted);
    SelectSorted(false, sorted);
    SortByIndex(Select(true, sorted));
    SortMembers(IndexLess, Select(true, sorted));
    IndexThenOthers(SortBy(IndexLess, Select(true, sorted)), Select(false, sorted));
  }

  lemma IndexThenOthers(first: seq<Json.Field>, others: seq<Json.Field>)
    requires IndexSorted(first) && Sorted(others)
    requires forall g :: g in first ==> IsIndexKey(g.key)
    requires forall g :: g in others ==> !IsIndexKey(g.key)
    ensures InOrder(first + others)
  {
    var all := first + others;
    forall i, j | 0 <= i < j < |all| ensures Precedes(all[i].key, all[j].key) {
      assert all[i] == if i < |first| then first[i] else others[i - |first|];
      assert all[j] == if j < |first| then first[j] else others[j - |first|];
      assert i < |first| ==> all[i] in first;
      assert j < |first| ==> all[j] in first;
      assert i >= |first| ==> all[i] in others;
      assert j >= |first| ==> all[j] in others;
      LexMeans(all[i].key, all[j].key);
    }
  }

  /** What the printer makes of an object holds the fields that print, each under its key, in key order. */
  lemma ObjectShown(fields: seq<Field>)
    requires WellFormed(Object(fields))
    requires forall n :: 0 <= n < |fields| ==> Shows(Convert(fields[n].value), fields[n].value)
    ensures Shows(Convert(Object(fields)), Object(fields))
  {
    var entries := ConvertFields(fields);
    var out := OwnKeyOrder(SortBy(LexLess, entries));
    ConvertFieldsDistinct(fields);
    OrderedKeys(entries);
    OrderMembers(entries);
    forall k ensures Present(fields, k) <==> exists i :: 0 <= i < |out| && out[i].key == k {
      if i :| 0 <= i < |out| && out[i].key == k {
        assert out[i] in out;
        ConvertFieldsMember(fields, out[i]);
      }
      if n :| 0 <= n < |fields| && fields[n].key == k && !fields[n].value.Undefined? {
        var x := Json.Field(k, Convert(fields[n].value));
        assert Yields(fields, n, x);
        ConvertFieldsMember(fields, x);
        assert x in out;
      }
    }
    forall i, n | 0 <= i < |out| && 0 <= n < |fields| && out[i].key == fields[n].key && !fields[n].value.Undefined?
      ensures Shows(out[i].value, fields[n].value)
    {
      assert out[i] in out;
      ConvertFieldsMember(fields, out[i]);
      var m :| Yields(fields, m, out[i]);
      assert m == n;
    }
  }

  lemma {:induction false} ConvertShows(v: Value)
    requires WellFormed(v)
    ensures Shows(Convert(v), v)
  {
    match v {
      case Array(items) =>
        ConvertItemsAt(items);
        forall i | 0 <= i < |items| { ConvertShows(items[i]); }
      case Object(fields) =>
        forall n | 0 <= n < |fields| ensures Shows(Convert(fields[n].value), fields[n].value) {
          ConvertShows(fields[n].value);
        }
        ObjectShown(fields);
      case _ =>
    }
  }

  /** Read as JSON, the printed text shows the value; undefined alone is no JSON. */
  lemma StableStringifyMeans(v: Value)
    requires WellFormed(v)
    ensures v.Undefined? ==> StableStringify(v) == Lit("undefined") + [LINE_FEED]
    ensures !v.Undefined? ==>
      var j := JsonReader.Read(StableStringify(v)); j.Some? && Shows(j.value, v)
  {
    if !v.Undefined? {
      ConvertValid(v);
      ConvertShows(v);
      JsonReader.ValueBack(Convert(v), [LINE_FEED]);
    }
  }

  /** Equality of what stableStringify is given: undefined prints apart from null only at the top. */
  ghost predicate SameDocument(v: Value, w: Value) {
    v.Undefined? == w.Undefined? && Same(v, w)
  }

  /** The printer is canonical: one text exactly when equal up to key order at every depth. */
  lemma StableStringifyCanonical(v: Value, w: Value)
    requires WellFormed(v) && WellFormed(w)
    ensures StableStringify(v) == StableStringify(w) <==> SameDocument(v, w)
  {
    ConvertValid(v);
    ConvertValid(w);
    ConvertDecides(v, w);
    JsonReader.PrintInjective(Convert(v), Convert(w));
    JsonReader.PrintStarts(Convert(v));
    JsonReader.PrintStarts(Convert(w));
    if StableStringify(v) == StableStringify(w) {
      assert StableStringify(v)[0] == StableStringify(w)[0];
      assert v.Undefined? == w.Undefined?;
      if !v.Undefined? {
        assert Json.Print(Convert(v)) == StableStringify(v)[..|StableStringify(v)| - 1];
        assert Json.Print(Convert(w)) == StableStringify(w)[..|StableStringify(w)| - 1];
      }
    }
  }

  // ---------- Comparing documents ----------

  /** One domain of a snapshot document: its id and the whole record that is printed. */
  datatype Domain = Domain(id: Text, record: Value)

  datatype Comparison = Comparison(ok: bool, missing: seq<Text>, changed: seq<Text>, extra: seq<Text>)

  /** The ids of a document without repetition, in order of first appearance. */
  function Ids(domains: seq<Domain>): seq<Text> {
    if domains == [] then []
    else
      var before := Ids(domains[..|domains| - 1]);
      var last := domains[|domains| - 1].id;
      if last in before then before else before + [last]
  }

  /** The first entry with the id, as Array.prototype.find returns it. */
  function First(domains: seq<Domain>, id: Text): (d: Domain)
    requires exists i :: 0 <= i < |domains| && domains[i].id == id
    ensures FirstWith(domains, id, d)
  {
    if domains[0].id == id then domains[0]
    else
      var d := First(domains[1..], id);
      FirstAfter(domains, id, d);
      d
  }

  /** The entry has the id and none before it does. */
  ghost predicate FirstWith(domains: seq<Domain>, id: Text, d: Domain) {
    exists i :: 0 <= i < |domains| && domains[i] == d && d.id == id
      && forall j :: 0 <= j < i ==> domains[j].id != id
  }

  lemma FirstAfter(domains: seq<Domain>, id: Text, d: Domain)
    requires domains != [] && domains[0].id != id && FirstWith(domains[1..], id, d)
    ensures FirstWith(domains, id, d)
  {
    var i :| 0 <= i < |domains| - 1 && domains[1..][i] == d && d.id == id
      && forall j :: 0 <= j < i ==> domains[1..][j].id != id;
    assert domains[i + 1] == d;
    forall j | 0 <= j < i + 1 ensures domains[j].id != id {
      if j > 0 { assert domains[j] == domains[1..][j - 1]; }
    }
  }

  function Without(ids: seq<Text>, others: seq<Text>): seq<Text> {
    if ids == [] then []
    else
      var last := ids[|ids| - 1];
      Without(ids[..|ids| - 1], others) + (if last in others then [] else [last])
  }

  lemma {:induction false} IdsMembers(domains: seq<Domain>, id: Text)
    ensures id in Ids(domains) <==> exists i :: 0 <= i < |domains| && domains[i].id == id
  {
    if domains != [] {
      IdsMembers(domains[..|domains| - 1], id);
      assert domains[|domains| - 1].id in Ids(domains);
    }
  }

  lemma {:induction false} WithoutMembers(ids: seq<Text>, others: seq<Text>, id: Text)
    ensures id in Without(ids, others) <==> id in ids && id !in others
  {
    if ids != [] {
      WithoutMembers(ids[..|ids| - 1], others, id);
      assert ids == ids[..|ids| - 1] + [ids[|ids| - 1]];
    }
  }

  /** The ids stand at the positions, in order, at which each is found first. */
  ghost predicate FirstFound(domains: seq<Domain>, ids: seq<Text>, at: seq<nat>) {
    && |at| == |ids|
    && (forall k :: 0 <= k < |at| ==> at[k] < |domains| && domains[at[k]].id == ids[k])
    && (forall k, j :: 0 <= k < |at| && 0 <= j < at[k] ==> domains[j].id != ids[k])
    && (forall k, l :: 0 <= k < l < |at| ==> at[k] < at[l])
  }

  lemma FirstFoundNext(init: seq<Domain>, last: Domain, ids: seq<Text>, at: seq<nat>)
    requires FirstFound(init, ids, at)
    ensures FirstFound(init + [last], ids, at)
    ensures (forall j :: 0 <= j < |init| ==> init[j].id != last.id) ==>
      FirstFound(init + [last], ids + [last.id], at + [|init|])
  {
    assert forall i :: 0 <= i < |init| ==> (init + [last])[i] == init[i];
  }

  /** Every id is listed once, in the order in which the ids first appear. */
  lemma {:induction false} IdsInOrder(domains: seq<Domain>) returns (at: seq<nat>)
    ensures FirstFound(domains, Ids(domains), at)
  {
    at := [];
    if domains != [] {
      var init, last := domains[..|domains| - 1], domains[|domains| - 1];
      at := IdsInOrder(init);
      LastApart([], domains);
      FirstFoundNext(init, last, Ids(init), at);
      IdsMembers(init, last.id);
      if last.id !in Ids(init) { at := at + [|init|]; }
    }
  }

  /** Leaving out some ids keeps the others in their order. */
  lemma {:induction false} WithoutInOrder(ids: seq<Text>, others: seq<Text>) returns (at: seq<nat>)
    ensures Chosen(ids, id => id !in others, at, Without(ids, others))
  {
    at := [];
    if ids != [] {
      var init, last := ids[..|ids| - 1], ids[|ids| - 1];
      at := WithoutInOrder(init, others);
      LastApart([], ids);
      ChosenNext(init, last, id => id !in others, at, Without(init, others));
      assert Without(init, others) + [] == Without(init, others);
      if last !in others { at := at + [|init|]; }
    }
  }

  /** The first entries of the id print differently. */
  ghost predicate Drifted(current: seq<Domain>, previous: seq<Domain>, id: Text) {
    && id in Ids(current)
    && id in Ids(previous)
    && (IdsMembers(current, id); IdsMembers(previous, id);
        StableStringify(First(current, id).record) != StableStringify(First(previous, id).record))
  }

  /** The drifted ids among these, in their order. */
  ghost function DriftedAmong(ids: seq<Text>, current: seq<Domain>, previous: seq<Domain>): seq<Text> {
    if ids == [] then []
    else
      var last := ids[|ids| - 1];
      DriftedAmong(ids[..|ids| - 1], current, previous)
      + (if Drifted(current, previous, last) then [last] else [])
  }

  lemma {:induction false} DriftedMembers(ids: seq<Text>, current: seq<Domain>, previous: seq<Domain>, id: Text)
    ensures id in DriftedAmong(ids, current, previous) <==> id in ids && Drifted(current, previous, id)
  {
    if ids != [] {
      DriftedMembers(ids[..|ids| - 1], current, previous, id);
      assert ids == ids[..|ids| - 1] + [ids[|ids| - 1]];
    }
  }

  /** The result of comparing two documents, list by list and in order. */
  ghost predicate Compares(current: seq<Domain>, previous: seq<Domain>, r: Comparison) {
    && r.missing == Without(Ids(previous), Ids(current))
    && r.extra == Without(Ids(current), Ids(previous))
    && r.changed == DriftedAmong(Ids(current), current, previous)
    && (r.ok <==> r.missing == [] && r.extra == [] && r.changed == [])
  }

  method CompareDoctorSnapshots(current: seq<Domain>, previous: seq<Domain>) returns (r: Comparison)
    ensures Compares(current, previous, r)
  {
    var currentIds, previousIds := Ids(current), Ids(previous);
    var missing := Without(previousIds, currentIds);
    var extra := Without(currentIds, previousIds);
    var changed: seq<Text> := [];
    for n := 0 to |currentIds|
      invariant changed == DriftedAmong(currentIds[..n], current, previous)
    {
      var id := currentIds[n];
      assert currentIds[..n + 1][..n] == currentIds[..n];
      if id in previousIds {
        IdsMembers(current, id);
        IdsMembers(previous, id);
        var left, right := First(current, id), First(previous, id);
        if StableStringify(left.record) != StableStringify(right.record) {
          changed := changed + [id];
        }
      }
    }
    assert currentIds[..|currentIds|] == currentIds;
    r := Comparison(missing == [] && extra == [] && changed == [], missing, changed, extra);
  }

  ghost predicate WellFormedDocument(domains: seq<Domain>) {
    forall d :: d in domains ==> WellFormed(d.record)
  }

  ghost predicate HasId(domains: seq<Domain>, id: Text) {
    exists i :: 0 <= i < |domains| && domains[i].id == id
  }

  lemma NoMembers<T>(s: seq<T>)
    ensures s == [] <==> forall x :: x !in s
  {
    if s != [] { assert s[0] in s; }
  }

  /**
   What the lists hold: ids of the previous document alone, of the current one alone, and those of
   both whose first records differ.
   */
  lemma ListsMean(current: seq<Domain>, previous: seq<Domain>, r: Comparison, id: Text)
    requires WellFormedDocument(current) && WellFormedDocument(previous)
    requires Compares(current, previous, r)
    ensures id in r.missing <==> HasId(previous, id) && !HasId(current, id)
    ensures id in r.extra <==> HasId(current, id) && !HasId(previous, id)
    ensures id in r.changed <==> (
      && HasId(current, id) && HasId(previous, id)
      && !SameDocument(First(current, id).record, First(previous, id).record))
  {
    IdsMembers(current, id);
    IdsMembers(previous, id);
    DriftedMembers(Ids(current), current, previous, id);
    WithoutMembers(Ids(previous), Ids(current), id);
    WithoutMembers(Ids(current), Ids(previous), id);
    if HasId(current, id) && HasId(previous, id) {
      StableStringifyCanonical(First(current, id).record, First(previous, id).record);
    }
  }

  /**
   A comparison is ok exactly when both documents have the same ids and, for each id, first
   entries that are equal up to key order.
   */
  lemma OkMeansSame(current: seq<Domain>, previous: seq<Domain>, r: Comparison)
    requires WellFormedDocument(current) && WellFormedDocument(previous)
    requires Compares(current, previous, r)
    ensures r.ok <==>
      && (forall id :: HasId(current, id) <==> HasId(previous, id))
      && (forall id :: HasId(current, id) && HasId(previous, id) ==>
            SameDocument(First(current, id).record, First(previous, id).record))
  {
    NoMembers(r.missing);
    NoMembers(r.extra);
    NoMembers(r.changed);
    forall id
      ensures id in r.missing <==> HasId(previous, id) && !HasId(current, id)
      ensures id in r.extra <==> HasId(current, id) && !HasId(previous, id)
      ensures id in r.changed <==> (
        && HasId(current, id) && HasId(previous, id)
        && !SameDocument(First(current, id).record, First(previous, id).record))
    {
      ListsMean(current, previous, r, id);
    }
  }

  /** Swapping the arguments swaps missing and extra and keeps the drifted ids and the verdict. */
  lemma SwapComparison(current: seq<Domain>, previous: seq<Domain>, r: Comparison, s: Comparison)
    requires Compares(current, previous, r)
    requires Compares(previous, current, s)
    ensures s.missing == r.extra && s.extra == r.missing
    ensures forall id :: id in s.changed <==> id in r.changed
    ensures s.ok == r.ok
  {
    forall id ensures id in s.changed <==> id in r.changed {
      DriftedMembers(Ids(current), current, previous, id);
      DriftedMembers(Ids(previous), previous, current, id);
      assert Drifted(current, previous, id) <==> Drifted(previous, current, id);
    }
    NoMembers(r.changed);
    NoMembers(s.changed);
  }
}
