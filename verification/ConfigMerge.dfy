/** Deep merging of configuration trees, and reading the merged tree back by path. */
module ConfigMerge {
  import opened Splitting
  import opened Utf16
  import Sets

  /** A JavaScript value of a parsed configuration; an object may hold undefined fields. */
  datatype Tree =
    | Undefined
    | Null
    | Bool(value: bool)
    | Number(number: real)
    | Str(text: Text)
    | Arr(items: seq<Tree>)
    | Obj(fields: map<Text, Tree>)

  predicate Nullish(t: Tree) {
    t.Undefined? || t.Null?
  }

  /** Reads a field; a missing one is undefined. */
  function Lookup(fields: map<Text, Tree>, key: Text): Tree {
    if key in fields then fields[key] else Undefined
  }

  /** The value that a source value leaves at the place of a target value. */
  function Merge(t: Tree, s: Tree): Tree
    decreases s
  {
    if Nullish(s) then t
    else if !t.Obj? || !s.Obj? then s
    else
      Obj(map k | k in t.fields.Keys + s.fields.Keys ::
        if k in s.fields then Merge(Lookup(t.fields, k), s.fields[k]) else t.fields[k])
  }

  /** The map has been copied but for these keys. */
  ghost predicate FilledBut<K, V>(part: map<K, V>, whole: map<K, V>, keys: set<K>) {
    && keys <= whole.Keys
    && part.Keys == whole.Keys - keys
    && forall k :: k in part ==> part[k] == whole[k]
  }

  lemma FillOne<K, V>(part: map<K, V>, whole: map<K, V>, keys: set<K>, key: K)
    requires FilledBut(part, whole, keys) && key in keys
    ensures FilledBut(part[key := whole[key]], whole, keys - {key})
  {
  }

  /** Merges a source, whatever it is, into a target object. */
  method DeepMerge(target: map<Text, Tree>, source: Tree) returns (result: map<Text, Tree>)
    ensures Obj(result) == if source.Obj? then Merge(Obj(target), source) else Obj(target)
    decreases source
  {
    if !source.Obj? {
      return target;
    }
    ghost var m := Merge(Obj(target), source).fields;
    result := map[];
    var keys := target.Keys + source.fields.Keys;
    while keys != {}
      invariant FilledBut(result, m, keys)
      decreases |keys|
    {
      var key := Sets.Choose(keys);
      MergeAt(Obj(target), source, key);
      var targetValue, sourceValue := Lookup(target, key), Lookup(source.fields, key);
      var value := sourceValue;
      if Nullish(sourceValue) {
        value := targetValue;
      } else if targetValue.Obj? && sourceValue.Obj? {
        var inner := DeepMerge(targetValue.fields, sourceValue);
        value := Obj(inner);
      }
      FillOne(result, m, keys, key);
      result := result[key := value];
      keys := keys - {key};
    }
    assert result == m;
  }

  // ---------- The algebra of merging ----------

  lemma MergeAt(t: Tree, s: Tree, k: Text)
    requires t.Obj? && s.Obj?
    ensures Merge(t, s).Obj? && (k in Merge(t, s).fields <==> k in t.fields || k in s.fields)
    ensures Lookup(Merge(t, s).fields, k) == Merge(Lookup(t.fields, k), Lookup(s.fields, k))
  {
  }

  lemma SameFields(a: Tree, b: Tree)
    requires a.Obj? && b.Obj? && a.fields.Keys == b.fields.Keys
    requires forall k :: k in a.fields ==> Lookup(a.fields, k) == Lookup(b.fields, k)
    ensures a == b
  {
    assert forall k :: k in a.fields ==> a.fields[k] == Lookup(a.fields, k) && b.fields[k] == Lookup(b.fields, k);
    assert a.fields == b.fields;
  }

  /** Merging a tree into itself changes nothing. */
  lemma {:induction false} MergeSelf(x: Tree)
    ensures Merge(x, x) == x
    decreases x
  {
    if x.Obj? {
      forall k | k in x.fields ensures Merge(x.fields[k], x.fields[k]) == x.fields[k] {
        MergeSelf(x.fields[k]);
      }
    }
  }

  /** Merging the same source a second time changes nothing. */
  lemma {:induction false} MergeTwice(t: Tree, s: Tree)
    ensures Merge(Merge(t, s), s) == Merge(t, s)
    decreases s
  {
    MergeSelf(s);
    if t.Obj? && s.Obj? {
      var m := Merge(t, s);
      forall k | k in m.fields ensures Lookup(Merge(m, s).fields, k) == Lookup(m.fields, k) {
        MergeAt(t, s, k);
        MergeAt(m, s, k);
        if k in s.fields { MergeTwice(Lookup(t.fields, k), s.fields[k]); }
      }
      SameFields(Merge(m, s), m);
    }
  }

  /** Merging a merged tree over the same target again changes nothing. */
  lemma {:induction false} MergeAgain(t: Tree, s: Tree)
    ensures Merge(t, Merge(t, s)) == Merge(t, s)
    decreases s
  {
    MergeSelf(t);
    if t.Obj? && s.Obj? {
      var m := Merge(t, s);
      forall k | k in m.fields ensures Lookup(Merge(t, m).fields, k) == Lookup(m.fields, k) {
        MergeAt(t, s, k);
        MergeAt(t, m, k);
        if k in s.fields {
          MergeAgain(Lookup(t.fields, k), s.fields[k]);
        } else {
          MergeSelf(t.fields[k]);
        }
      }
      SameFields(Merge(t, m), m);
    }
  }

  /** The target has nothing to add: it has no field that the source lacks or leaves null. */
  ghost predicate Covers(t: Tree, s: Tree)
    decreases s
  {
    if Nullish(s) then t == s
    else if !t.Obj? || !s.Obj? then true
    else
      && t.fields.Keys <= s.fields.Keys
      && forall k :: k in s.fields ==> Covers(Lookup(t.fields, k), s.fields[k])
  }

  /** A merge returns its source exactly when the source covers the target. */
  lemma {:induction false} CoversExactly(t: Tree, s: Tree)
    ensures Merge(t, s) == s <==> Covers(t, s)
    decreases s
  {
    if t.Obj? && s.Obj? {
      var m := Merge(t, s);
      forall k | k in s.fields
        ensures Merge(Lookup(t.fields, k), s.fields[k]) == s.fields[k] <==> Covers(Lookup(t.fields, k), s.fields[k])
        ensures m.fields[k] == Merge(Lookup(t.fields, k), s.fields[k])
      {
        CoversExactly(Lookup(t.fields, k), s.fields[k]);
      }
      if Covers(t, s) {
        assert m.fields.Keys == s.fields.Keys;
        assert m.fields == s.fields;
      }
    }
  }

  /**
   At no path do an object, a value that is neither an object nor null, and an object meet such
   that the last of them lacks something the first one has.
   */
  ghost predicate Associates(a: Tree, b: Tree, c: Tree)
    decreases c
  {
    if !c.Obj? || !a.Obj? || Nullish(b) then true
    else if !b.Obj? then Covers(a, c)
    else forall k :: k in c.fields ==> Associates(Lookup(a.fields, k), Lookup(b.fields, k), c.fields[k])
  }

  lemma MergeThree(a: Tree, b: Tree, c: Tree, k: Text)
    requires a.Obj? && b.Obj? && c.Obj?
    ensures Merge(a, Merge(b, c)).Obj? && Merge(Merge(a, b), c).Obj?
    ensures Lookup(Merge(a, Merge(b, c)).fields, k)
      == Merge(Lookup(a.fields, k), Merge(Lookup(b.fields, k), Lookup(c.fields, k)))
    ensures Lookup(Merge(Merge(a, b), c).fields, k)
      == Merge(Merge(Lookup(a.fields, k), Lookup(b.fields, k)), Lookup(c.fields, k))
  {
    MergeAt(b, c, k);
    MergeAt(a, Merge(b, c), k);
    MergeAt(a, b, k);
    MergeAt(Merge(a, b), c, k);
  }

  /** Merging is associative exactly on the trees that associate. */
  lemma {:induction false} MergeAssociativeExactlyWhen(a: Tree, b: Tree, c: Tree)
    ensures Merge(a, Merge(b, c)) == Merge(Merge(a, b), c) <==> Associates(a, b, c)
    decreases c
  {
    if a.Obj? && b.Obj? && c.Obj? {
      var left, right := Merge(a, Merge(b, c)), Merge(Merge(a, b), c);
      forall k
        ensures k in c.fields ==>
          (Lookup(left.fields, k) == Lookup(right.fields, k) <==>
           Associates(Lookup(a.fields, k), Lookup(b.fields, k), c.fields[k]))
        ensures k !in c.fields ==> Lookup(left.fields, k) == Lookup(right.fields, k)
      {
        MergeThree(a, b, c, k);
        if k in c.fields { MergeAssociativeExactlyWhen(Lookup(a.fields, k), Lookup(b.fields, k), c.fields[k]); }
      }
      if Associates(a, b, c) {
        assert left.fields.Keys == right.fields.Keys;
        SameFields(left, right);
      }
    } else {
      CoversExactly(a, c);
    }
  }

  /** The trees agree, wherever they all have a value, on whether it is an object. */
  ghost predicate NoClash(a: Tree, b: Tree)
    decreases b
  {
    if Nullish(a) || Nullish(b) then true
    else
      && (a.Obj? <==> b.Obj?)
      && (b.Obj? ==> forall k :: k in b.fields ==> NoClash(Lookup(a.fields, k), b.fields[k]))
  }

  lemma {:induction false} NoClashAssociates(a: Tree, b: Tree, c: Tree)
    requires NoClash(b, c)
    ensures Associates(a, b, c)
    decreases c
  {
    if a.Obj? && b.Obj? && c.Obj? {
      forall k | k in c.fields ensures Associates(Lookup(a.fields, k), Lookup(b.fields, k), c.fields[k]) {
        NoClashAssociates(Lookup(a.fields, k), Lookup(b.fields, k), c.fields[k]);
      }
    }
  }

  function Under(key: Text, t: Tree): Tree {
    Obj(map[key := t])
  }

  lemma MergeUnder(key: Text, t: Tree, s: Tree)
    requires !Nullish(s)
    ensures Merge(Under(key, t), Under(key, s)) == Under(key, Merge(t, s))
  {
    MergeAt(Under(key, t), Under(key, s), key);
    SameFields(Merge(Under(key, t), Under(key, s)), Under(key, Merge(t, s)));
  }

  /** Under any key an override by a plain value erases what the other grouping keeps. */
  lemma MergeNotAssociative(key: Text, k: Text, plain: Tree)
    requires !Nullish(plain) && !plain.Obj?
    ensures var a, b, c := Under(key, Under(k, plain)), Under(key, plain), Under(key, Obj(map[]));
      Merge(a, Merge(b, c)) == a && Merge(Merge(a, b), c) == c && a != c
  {
    var inner, none := Under(k, plain), Obj(map[]);
    MergeUnder(key, plain, none);
    MergeUnder(key, inner, none);
    MergeUnder(key, inner, plain);
    assert Merge(inner, none).fields == inner.fields;
    assert k in inner.fields && k !in none.fields;
    assert Under(key, inner).fields[key] != Under(key, none).fields[key];
  }

  // ---------- Reading by path ----------

  /** One step of a path; element reads an index, or another property, of an array. */
  function Property(element: (seq<Tree>, Text) -> Tree, t: Tree, part: Text): Tree {
    match t
    case Obj(fields) => Lookup(fields, part)
    case Arr(items) => element(items, part)
    case _ => Undefined
  }

  function Get(element: (seq<Tree>, Text) -> Tree, t: Tree, path: seq<Text>): Tree
    decreases |path|
  {
    if path == [] then t else Get(element, Property(element, t, path[0]), path[1..])
  }

  lemma {:induction false} GetUndefined(element: (seq<Tree>, Text) -> Tree, t: Tree, path: seq<Text>)
    requires path != [] && !t.Obj? && !t.Arr?
    ensures Get(element, t, path) == Undefined
    decreases |path|
  {
    if |path| > 1 { GetUndefined(element, Undefined, path[1..]); }
  }

  /** Reads a field given as a path with dots. */
  method GetByPath(element: (seq<Tree>, Text) -> Tree, config: Tree, field: Text) returns (r: Tree)
    ensures r == Get(element, config, Split(field, DOT))
  {
    var parts := Split(field, DOT);
    var current := config;
    for i := 0 to |parts|
      invariant Get(element, current, parts[i..]) == Get(element, config, parts)
    {
      if !current.Obj? && !current.Arr? {
        GetUndefined(element, current, parts[i..]);
        return Undefined;
      }
      assert parts[i..][1..] == parts[i + 1..];
      current := Property(element, current, parts[i]);
    }
    return current;
  }

  /** Reading a field with a dot is reading, in what its first part gives, the rest of it. */
  lemma GetDotted(element: (seq<Tree>, Text) -> Tree, config: Tree, a: Text, b: Text)
    ensures Get(element, config, Split(a + [DOT] + b, DOT))
      == Get(element, Get(element, config, Split(a, DOT)), Split(b, DOT))
  {
    SplitAtSeparator(a, b, DOT);
    GetAlong(element, config, Split(a, DOT), Split(b, DOT));
  }

  lemma {:induction false} GetAlong(element: (seq<Tree>, Text) -> Tree, t: Tree, path: seq<Text>, more: seq<Text>)
    ensures Get(element, t, path + more) == Get(element, Get(element, t, path), more)
    decreases |path|
  {
    if path == [] {
      assert path + more == more;
    } else {
      assert (path + more)[1..] == path[1..] + more;
      GetAlong(element, Property(element, t, path[0]), path[1..], more);
    }
  }

  /** Null reads like an absent value. */
  function AsAbsent(t: Tree): Tree {
    if t.Null? then Undefined else t
  }

  /**
   At no proper prefix of the path does the source put a value in place of one that is not an
   object, or the other way round, and so hide something that the target has at the path.
   */
  ghost predicate Unhidden(element: (seq<Tree>, Text) -> Tree, t: Tree, s: Tree, path: seq<Text>)
    decreases |path|
  {
    if path == [] || Nullish(s) then true
    else if t.Obj? && s.Obj? then
      Unhidden(element, Lookup(t.fields, path[0]), Lookup(s.fields, path[0]), path[1..])
    else
      var below, above := Get(element, t, path), Get(element, s, path);
      if Nullish(above) then Nullish(below) else Covers(below, above)
  }

  /** What a path reads in a merged tree is the merge of what it reads in the two trees, or hidden. */
  lemma {:induction false} PathMergesExactlyWhen(element: (seq<Tree>, Text) -> Tree, t: Tree, s: Tree,
                                                 path: seq<Text>)
    ensures AsAbsent(Get(element, Merge(t, s), path))
         == AsAbsent(Merge(Get(element, t, path), Get(element, s, path)))
      <==> Unhidden(element, t, s, path)
    decreases |path|
  {
    if path == [] {
    } else if Nullish(s) {
      GetUndefined(element, s, path);
    } else if t.Obj? && s.Obj? {
      MergeAt(t, s, path[0]);
      PathMergesExactlyWhen(element, Lookup(t.fields, path[0]), Lookup(s.fields, path[0]), path[1..]);
    } else {
      CoversExactly(Get(element, t, path), Get(element, s, path));
    }
  }

  /** No value at a proper prefix of the path is neither an object nor null. */
  ghost predicate Clean(t: Tree, path: seq<Text>)
    decreases |path|
  {
    path == [] || Nullish(t) || (t.Obj? && Clean(Lookup(t.fields, path[0]), path[1..]))
  }

  lemma {:induction false} CleanUnhidden(element: (seq<Tree>, Text) -> Tree, t: Tree, s: Tree, path: seq<Text>)
    requires Clean(t, path) && Clean(s, path)
    ensures Unhidden(element, t, s, path)
    decreases |path|
  {
    if path != [] && !Nullish(s) {
      if t.Obj? {
        CleanUnhidden(element, Lookup(t.fields, path[0]), Lookup(s.fields, path[0]), path[1..]);
      } else {
        GetUndefined(element, t, path);
      }
    }
  }

  /**
   On a clean path a merged tree reads as the source when the source has a value there, and as
   the target otherwise; two objects read as their merge.
   */
  lemma PathSemantics(element: (seq<Tree>, Text) -> Tree, t: Tree, s: Tree, path: seq<Text>)
    requires Clean(t, path) && Clean(s, path)
    ensures var below, above := Get(element, t, path), Get(element, s, path);
      AsAbsent(Get(element, Merge(t, s), path))
        == if Nullish(above) then AsAbsent(below)
           else if below.Obj? && above.Obj? then Merge(below, above)
           else above
  {
    CleanUnhidden(element, t, s, path);
    PathMergesExactlyWhen(element, t, s, path);
  }
}
