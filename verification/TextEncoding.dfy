/**
 Texts as UTF-8 bytes. The encoder and the decoder are parameters; that printed JSON survives
 them, on one line, is proved from the shape of the text.
 */
module TextEncoding {
  import opened Buffers
  import opened Utf16
  import Json

  datatype TextCodec = TextCodec(encode: Text -> Bytes, decode: Bytes -> Text)

  const BYTE_ORDER_MARK: CodeUnit := 0xFEFF

  /** No surrogate stands alone. */
  predicate WellFormed(t: Text) {
    if t == [] then true
    else if Json.IsHighSurrogate(t[0]) then |t| > 1 && Json.IsLowSurrogate(t[1]) && WellFormed(t[2..])
    else !Json.IsLowSurrogate(t[0]) && WellFormed(t[1..])
  }

  /** Texts that come back: the encoder replaces lone surrogates, the decoder eats a leading mark. */
  predicate Encodable(t: Text) {
    WellFormed(t) && (t == [] || t[0] != BYTE_ORDER_MARK)
  }

  /** What is taken for granted of the encoder and the decoder. */
  ghost predicate Faithful(c: TextCodec) {
    && (forall t: Text :: Encodable(t) ==> c.decode(c.encode(t)) == t)
    && (forall t: Text :: t != [] && t[0] < 0x80 ==> c.encode(t) != [] && c.encode(t)[0] == t[0])
  }

  predicate NoControls(t: Text) {
    forall i :: 0 <= i < |t| ==> t[i] >= 0x20
  }

  predicate Clean(t: Text) {
    WellFormed(t) && NoControls(t)
  }

  lemma {:induction false} WellFormedConcat(a: Text, b: Text)
    requires WellFormed(a) && WellFormed(b)
    ensures WellFormed(a + b)
  {
    if a == [] {
      assert a + b == b;
    } else {
      var n := if Json.IsHighSurrogate(a[0]) then 2 else 1;
      WellFormedConcat(a[n..], b);
      assert (a + b)[n..] == a[n..] + b;
    }
  }

  lemma CleanConcat(a: Text, b: Text)
    requires Clean(a) && Clean(b)
    ensures Clean(a + b)
  {
    WellFormedConcat(a, b);
  }

  lemma {:induction false} PlainClean(t: Text)
    requires forall i :: 0 <= i < |t| ==> 0x20 <= t[i] < 0xD800
    ensures Clean(t)
  {
    if t != [] { PlainClean(t[1..]); }
  }

  lemma EscapeClean(u: CodeUnit)
    ensures Clean(Json.EscapeUnit(u))
  {
    var e := Json.EscapeUnit(u);
    assert forall i :: 0 <= i < |e| ==> 0x20 <= e[i] && !Json.IsHighSurrogate(e[i]) && !Json.IsLowSurrogate(e[i]);
    NoSurrogatesClean(e);
  }

  lemma {:induction false} NoSurrogatesClean(t: Text)
    requires forall i :: 0 <= i < |t| ==>
      0x20 <= t[i] && !Json.IsHighSurrogate(t[i]) && !Json.IsLowSurrogate(t[i])
    ensures Clean(t)
  {
    if t != [] { NoSurrogatesClean(t[1..]); }
  }

  lemma {:induction false} StringBodyClean(t: Text)
    ensures Clean(Json.StringBody(t))
  {
    if t == [] {
      PlainClean([DOUBLE_QUOTE]);
    } else if Json.StartsWithPair(t) {
      StringBodyClean(t[2..]);
      var pair: Text := [t[0], t[1]];
      assert pair[2..] == [];
      assert Clean(pair);
      CleanConcat(pair, Json.StringBody(t[2..]));
    } else {
      StringBodyClean(t[1..]);
      EscapeClean(t[0]);
      CleanConcat(Json.EscapeUnit(t[0]), Json.StringBody(t[1..]));
    }
  }

  lemma QuoteClean(t: Text)
    ensures Clean(Json.Quote(t))
  {
    StringBodyClean(t);
    PlainClean([DOUBLE_QUOTE]);
    CleanConcat([DOUBLE_QUOTE], Json.StringBody(t));
  }

  lemma CleanThree(a: Text, b: Text, c: Text)
    requires Clean(a) && Clean(b) && Clean(c)
    ensures Clean(a + b + c)
  {
    CleanConcat(a, b);
    CleanConcat(a + b, c);
  }

  lemma MarksClean()
    ensures Clean([OPEN_BRACE]) && Clean([CLOSE_BRACE]) && Clean([COMMA]) && Clean([COLON])
    ensures Clean([Json.OPEN_BRACKET]) && Clean([Json.CLOSE_BRACKET])
  {
    PlainClean([OPEN_BRACE]);
    PlainClean([CLOSE_BRACE]);
    PlainClean([COMMA]);
    PlainClean([COLON]);
    PlainClean([Json.OPEN_BRACKET]);
    PlainClean([Json.CLOSE_BRACKET]);
  }

  /** Printed JSON has no lone surrogate and no control character, line feeds included. */
  lemma {:induction false} PrintClean(j: Json.Tree)
    requires Json.Valid(j)
    ensures Clean(Json.Print(j))
    decreases j, 4
  {
    MarksClean();
    match j {
      case Null => PlainClean(Json.Print(j));
      case Bool(_) => PlainClean(Json.Print(j));
      case Number(n) =>
        Json.NumeralPlain(n);
        PlainClean(n);
      case String(t) => QuoteClean(t);
      case Array(items) =>
        if items == [] {
          CleanConcat([Json.OPEN_BRACKET], [Json.CLOSE_BRACKET]);
          assert Json.Print(j) == [Json.OPEN_BRACKET] + [Json.CLOSE_BRACKET];
        } else {
          ItemsClean(items);
          CleanConcat([Json.OPEN_BRACKET], Json.PrintItems(items));
        }
      case Object(fields) =>
        if fields == [] {
          CleanConcat([OPEN_BRACE], [CLOSE_BRACE]);
          assert Json.Print(j) == [OPEN_BRACE] + [CLOSE_BRACE];
        } else {
          FieldsClean(fields);
          CleanConcat([OPEN_BRACE], Json.PrintFields(fields));
        }
    }
  }

  lemma {:induction false} ItemsClean(items: seq<Json.Tree>)
    requires items != [] && forall i :: 0 <= i < |items| ==> Json.Valid(items[i])
    ensures Clean(Json.PrintItems(items))
    decreases items, 3
  {
    var rest := items[1..];
    MarksClean();
    PrintClean(items[0]);
    if rest != [] {
      ItemsClean(rest);
      CleanConcat([COMMA], Json.PrintItems(rest));
    }
    CleanConcat(Json.Print(items[0]), Json.MoreItems(rest));
  }

  lemma {:induction false} FieldClean(f: Json.Field)
    requires Json.Valid(f.value)
    ensures Clean(Json.PrintField(f))
    decreases f, 3
  {
    MarksClean();
    QuoteClean(f.key);
    PrintClean(f.value);
    CleanThree(Json.Quote(f.key), [COLON], Json.Print(f.value));
  }

  lemma {:induction false} FieldsClean(fields: seq<Json.Field>)
    requires fields != [] && forall i :: 0 <= i < |fields| ==> Json.Valid(fields[i].value)
    ensures Clean(Json.PrintFields(fields))
    decreases fields, 3
  {
    var rest := fields[1..];
    MarksClean();
    FieldClean(fields[0]);
    if rest != [] {
      FieldsClean(rest);
      CleanConcat([COMMA], Json.PrintFields(rest));
    }
    CleanConcat(Json.PrintField(fields[0]), Json.MoreFields(rest));
  }

  /** Printed JSON opens with an ASCII unit that is neither the letter B nor the letter u. */
  lemma PrintedFirst(j: Json.Tree)
    requires Json.Valid(j)
    ensures var t := Json.Print(j); t != [] && t[0] < 0x80 && t[0] != 0x42 && t[0] != 0x75
  {
  }

  /** Printed JSON survives the trip through bytes. */
  lemma PrintedSurvives(c: TextCodec, j: Json.Tree)
    requires Faithful(c) && Json.Valid(j)
    ensures c.decode(c.encode(Json.Print(j))) == Json.Print(j)
  {
    PrintClean(j);
    PrintedFirst(j);
  }

  lemma {:induction false} FieldsEnd(fields: seq<Json.Field>)
    requires fields != []
    ensures Json.PrintFields(fields) != []
    ensures Json.PrintFields(fields)[|Json.PrintFields(fields)| - 1] == CLOSE_BRACE
  {
    if |fields| > 1 { FieldsEnd(fields[1..]); }
  }

  /** A printed object stands between braces. */
  lemma ObjectBraces(fields: seq<Json.Field>)
    ensures var t := Json.Print(Json.Object(fields)); |t| > 1 && t[0] == OPEN_BRACE && t[|t| - 1] == CLOSE_BRACE
  {
    if fields != [] { FieldsEnd(fields); }
  }
}
