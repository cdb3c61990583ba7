/** Decoding what the encoder wrote gives the value back. */
module ToonRoundTrip {
  import opened Types
  import opened ToonText
  import opened ToonEncoder
  import opened ToonDecoder
  import opened ToonTokens
  import opened ToonShapes
  import opened ToonSteps

  /** No line at or below `depth` levels in follows. */
  predicate Ends(rest: seq<Line>, depth: nat) {
    |rest| > 0 ==> rest[0].depth < depth
  }

  // ---------------------------------------------------------------------------
  // Rows
  // ---------------------------------------------------------------------------

  lemma {:induction false} RowsBack(rows: seq<Json>, header: seq<string>, delimiter: char, depth: nat, rest: seq<Line>)
    requires RowsFit(rows, header) && |header| > 0 && IsDelimiter(delimiter)
    ensures DecodeRows(RowLines(rows, header, delimiter, depth) + rest, depth, |rows|, header, delimiter)
            == Parsed(CanonRows(rows, header), rest)
    decreases |rows|
  {
    if |rows| == 0 {
      assert [] + rest == rest;
    } else {
      var values, below := RowValues(rows[0], header), RowLines(rows[1..], header, delimiter, depth);
      RowsBack(rows[1..], header, delimiter, depth, rest);
      RowBack(values, delimiter);
      ConsRest(Line(depth, JoinPrimitives(values, delimiter)), below, rest);
      RowsGoOn(RowLines(rows, header, delimiter, depth) + rest, depth, |rows|, header, delimiter, values,
               CanonRows(rows[1..], header), rest);
    }
  }

  lemma HeaderKeysFine(items: seq<Json>)
    requires Tabular(items) && Encodable(JArr(items))
    ensures var header := TabularHeader(items).value;
            |header| > 0 && RowsFit(items, header) && forall k | 0 <= k < |header| :: KeepsLine(header[k])
  {
    var header := TabularHeader(items).value;
    var fields := items[0].fields;
    assert ItemFine(items[0]) && ItemFieldsFine(fields);
    forall k | 0 <= k < |header|
      ensures KeepsLine(header[k])
    {
      assert k == 0 ==> FirstFine(fields[k]);
      assert k > 0 ==> FieldFine(fields[k]);
    }
  }

  // ---------------------------------------------------------------------------
  // First lines
  // ---------------------------------------------------------------------------

  /** A printed primitive is neither a header nor a pair. */
  lemma PrimitiveIsNotPair(v: Json, delimiter: char)
    requires IsPrimitive(v) && IsDelimiter(delimiter)
    ensures var t := EncodePrimitive(v, delimiter);
            t != "" && t[0] != '[' && !IsPair(t)
  {
    var t := EncodePrimitive(v, delimiter);
    PrimitiveShape(v, delimiter);
    if v.JStr? && t == Quote(v.s) {
      QuoteBack(v.s, "");
      assert Quote(v.s) + "" == Quote(v.s);
    } else {
      assert forall i | 0 <= i < |t| :: !IsSpecial(t[i], delimiter);
    }
  }

  lemma KeyIsPair(key: string, rest: string)
    requires KeepsLine(key) && rest != "" && (rest[0] == ':' || rest[0] == '[')
    ensures var s := EncodeKey(key) + rest;
            ParseKey(s) == Yes(key, rest) && IsPair(s) && s != "" && s[0] != '['
  {
    KeyBack(key, rest);
  }

  lemma TailStarts(items: seq<Json>, delimiter: char)
    ensures ArrayTail(items, delimiter) != "" && ArrayTail(items, delimiter)[0] == '['
  {
  }

  // ---------------------------------------------------------------------------
  // Arrays
  // ---------------------------------------------------------------------------

  lemma {:induction false} InlineBack(items: seq<Json>, delimiter: char, lines: seq<Line>, depth: nat)
    requires |items| > 0 && AllPrimitive(items) && IsDelimiter(delimiter)
    ensures DecodeArray(ArrayTail(items, delimiter), lines, depth) == Parsed(JArr(items), lines)
  {
    BracketBack(|items|, None, delimiter, " " + JoinPrimitives(items, delimiter));
    RowBack(items, delimiter);
    ArrayIsInline(ArrayTail(items, delimiter), lines, depth, |items|, delimiter, JoinPrimitives(items, delimiter), items);
  }

  lemma {:induction false} PrimitivesStay(items: seq<Json>)
    requires AllPrimitive(items)
    ensures CanonItems(items) == items
    decreases |items|
  {
    if |items| > 0 {
      PrimitivesStay(items[1..]);
      assert items == [items[0]] + items[1..];
    }
  }

  lemma {:induction false} TableBack(items: seq<Json>, delimiter: char, depth: nat, rest: seq<Line>)
    requires Tabular(items) && Encodable(JArr(items)) && IsDelimiter(delimiter)
    ensures DecodeArray(ArrayTail(items, delimiter), Below(items, delimiter, depth + 1) + rest, depth)
            == Parsed(Canon(JArr(items)), rest)
  {
    TabularIsNotPrimitive(items);
    HeaderKeysFine(items);
    var header := TabularHeader(items).value;
    WholeBracket(|items|, Some(header), delimiter);
    RowsBack(items, header, delimiter, depth + 1, rest);
    ArrayIsTable(ArrayTail(items, delimiter), Below(items, delimiter, depth + 1) + rest, depth, |items|, delimiter, header,
                 CanonRows(items, header), rest);
  }

  lemma WholeBracket(n: nat, fields: Option<seq<string>>, delimiter: char)
    requires IsDelimiter(delimiter)
    requires fields.Some? ==> |fields.value| > 0 && forall i | 0 <= i < |fields.value| :: KeepsLine(fields.value[i])
    ensures ParseBracket(Bracket(n, fields, delimiter)) == Yes(Header(n, delimiter, fields), "")
  {
    BracketBack(n, fields, delimiter, "");
    assert Bracket(n, fields, delimiter) + "" == Bracket(n, fields, delimiter);
  }

  lemma EmptyBack(delimiter: char, depth: nat, rest: seq<Line>)
    requires IsDelimiter(delimiter)
    ensures DecodeArray(ArrayTail([], delimiter), rest, depth) == Parsed(JArr([]), rest)
  {
    WholeBracket(0, None, delimiter);
    ArrayIsList(ArrayTail([], delimiter), rest, depth, 0, delimiter, [], rest);
  }

  lemma {:induction false} ListBack(items: seq<Json>, delimiter: char, depth: nat, rest: seq<Line>)
    requires !AllPrimitive(items) && !Tabular(items) && IsDelimiter(delimiter)
    requires DecodeItems(ItemsLines(items, delimiter, depth + 1) + rest, depth + 1, |items|) == Parsed(CanonItems(items), rest)
    ensures DecodeArray(ArrayTail(items, delimiter), Below(items, delimiter, depth + 1) + rest, depth)
            == Parsed(Canon(JArr(items)), rest)
  {
    WholeBracket(|items|, None, delimiter);
    ArrayIsList(ArrayTail(items, delimiter), Below(items, delimiter, depth + 1) + rest, depth, |items|, delimiter,
                CanonItems(items), rest);
  }

  /** An array of primitives has nothing below its header. */
  lemma {:induction false} PrimitiveArrayStays(items: seq<Json>, delimiter: char, depth: nat, rest: seq<Line>)
    requires AllPrimitive(items)
    ensures Canon(JArr(items)) == JArr(items) && Below(items, delimiter, depth) + rest == rest
  {
    PrimitivesStay(items);
    if |items| > 0 {
      assert !items[0].JObj?;
    }
    assert [] + rest == rest;
  }

  lemma {:induction false} PrimitiveArrayBack(items: seq<Json>, delimiter: char, depth: nat, rest: seq<Line>)
    requires AllPrimitive(items) && IsDelimiter(delimiter)
    ensures DecodeArray(ArrayTail(items, delimiter), rest, depth) == Parsed(JArr(items), rest)
  {
    if |items| == 0 {
      EmptyBack(delimiter, depth, rest);
      assert items == [];
    } else {
      InlineBack(items, delimiter, rest, depth);
    }
  }

  lemma {:induction false} ArrayBack(items: seq<Json>, delimiter: char, depth: nat, rest: seq<Line>)
    requires Encodable(JArr(items)) && IsDelimiter(delimiter) && Ends(rest, depth + 1)
    ensures DecodeArray(ArrayTail(items, delimiter), Below(items, delimiter, depth + 1) + rest, depth)
            == Parsed(Canon(JArr(items)), rest)
    decreases items, 1
  {
    if AllPrimitive(items) {
      PrimitiveArrayStays(items, delimiter, depth + 1, rest);
      PrimitiveArrayBack(items, delimiter, depth, rest);
    } else if Tabular(items) {
      TableBack(items, delimiter, depth, rest);
    } else {
      ItemsBack(items, delimiter, depth + 1, rest);
      ListBack(items, delimiter, depth, rest);
    }
  }

  // ---------------------------------------------------------------------------
  // List items
  // ---------------------------------------------------------------------------

  /** Every item starts on its own depth. */
  lemma ItemStarts(v: Json, delimiter: char, depth: nat)
    ensures |ItemLines(v, delimiter, depth)| > 0 && ItemLines(v, delimiter, depth)[0].depth == depth
  {
    if v.JObj? && |v.fields| > 0 {
      ObjectItemShape(v.fields, delimiter, depth);
    }
  }

  lemma ItemsEnd(items: seq<Json>, delimiter: char, depth: nat, rest: seq<Line>)
    requires Ends(rest, depth + 1)
    ensures Ends(ItemsLines(items, delimiter, depth) + rest, depth + 1)
  {
    if |items| > 0 {
      ItemStarts(items[0], delimiter, depth);
    } else {
      assert ItemsLines(items, delimiter, depth) + rest == rest;
    }
  }

  lemma {:induction false} ItemsBack(items: seq<Json>, delimiter: char, depth: nat, rest: seq<Line>)
    requires ItemsFine(items) && IsDelimiter(delimiter) && Ends(rest, depth + 1)
    ensures DecodeItems(ItemsLines(items, delimiter, depth) + rest, depth, |items|) == Parsed(CanonItems(items), rest)
    decreases items, 0
  {
    if |items| == 0 {
      assert ItemsLines(items, delimiter, depth) + rest == rest;
    } else {
      var tail := ItemsLines(items[1..], delimiter, depth) + rest;
      ItemsBack(items[1..], delimiter, depth, rest);
      ItemsEnd(items[1..], delimiter, depth, rest);
      ItemStarts(items[0], delimiter, depth);
      ItemBack(items[0], delimiter, depth, tail);
      AppendRest(ItemLines(items[0], delimiter, depth), ItemsLines(items[1..], delimiter, depth), rest);
      ItemsGoOn(ItemsLines(items, delimiter, depth) + rest, depth, |items|, CanonItem(items[0]), tail,
                CanonItems(items[1..]), rest);
    }
  }

  lemma PrimitiveItemBack(v: Json, delimiter: char, depth: nat, rest: seq<Line>)
    requires IsPrimitive(v) && IsDelimiter(delimiter)
    ensures DecodeItem(ItemLines(v, delimiter, depth) + rest, depth) == Parsed(v, rest)
  {
    var text := EncodePrimitive(v, delimiter);
    PrimitiveIsNotPair(v, delimiter);
    WholeBack(v, delimiter);
    ItemIsPrimitive([Line(depth, "- " + text)] + rest, depth, text, v);
    assert ([Line(depth, "- " + text)] + rest)[1..] == rest;
  }

  /** An array in a list is a header behind a marker. */
  lemma InlineItemShape(items: seq<Json>, delimiter: char, depth: nat)
    requires AllPrimitive(items)
    ensures ItemLines(JArr(items), delimiter, depth) == [Line(depth, "- " + ArrayTail(items, delimiter))]
  {
    InlineShape(items, delimiter, "");
    assert KeyPart("") + ArrayTail(items, delimiter) == ArrayTail(items, delimiter);
  }

  lemma {:induction false} ArrayItemBack(items: seq<Json>, delimiter: char, depth: nat, rest: seq<Line>)
    requires !AllPrimitive(items) && IsDelimiter(delimiter)
    requires DecodeItems(ItemsLines(items, delimiter, depth + 1) + rest, depth + 1, |items|) == Parsed(CanonItems(items), rest)
    ensures DecodeItem(ItemLines(JArr(items), delimiter, depth) + rest, depth) == Parsed(CanonItem(JArr(items)), rest)
  {
    var bracket, below := Bracket(|items|, None, delimiter), ItemsLines(items, delimiter, depth + 1);
    NoKeyHeader(|items|, delimiter);
    WholeBracket(|items|, None, delimiter);
    ArrayIsList(bracket, below + rest, depth, |items|, delimiter, CanonItems(items), rest);
    ConsRest(Line(depth, "- " + bracket), below, rest);
    ItemIsArray([Line(depth, "- " + bracket)] + below + rest, depth, bracket);
  }

  lemma {:induction false} InlineItemBack(items: seq<Json>, delimiter: char, depth: nat, rest: seq<Line>)
    requires AllPrimitive(items) && IsDelimiter(delimiter)
    ensures DecodeItem(ItemLines(JArr(items), delimiter, depth) + rest, depth) == Parsed(CanonItem(JArr(items)), rest)
  {
    var bracket := ArrayTail(items, delimiter);
    InlineItemShape(items, delimiter, depth);
    TailStarts(items, delimiter);
    PrimitivesStay(items);
    PrimitiveArrayBack(items, delimiter, depth, rest);
    assert ([Line(depth, "- " + bracket)] + rest)[1..] == rest;
    ItemIsArray([Line(depth, "- " + bracket)] + rest, depth, bracket);
  }

  lemma {:induction false} ObjectItemBack(fields: seq<Field>, delimiter: char, depth: nat, rest: seq<Line>)
    requires |fields| > 0 && FirstKeyFits(fields[0]) && IsDelimiter(delimiter)
    requires DecodeFields(ItemObjectLines(fields, delimiter, depth + 1) + rest, depth + 1)
             == Parsed(CanonFields(fields), rest)
    ensures DecodeItem(ItemLines(JObj(fields), delimiter, depth) + rest, depth) == Parsed(JObj(CanonFields(fields)), rest)
  {
    ObjectItemShape(fields, delimiter, depth);
    FirstStarts(fields[0], delimiter, depth + 1);
    var inner := ItemObjectLines(fields, delimiter, depth + 1);
    ConsRest(Line(depth, "- " + inner[0].content), inner[1..], rest);
    MarkedRest(inner, depth, rest);
    ItemIsObject(Marked(inner, depth) + rest, depth, inner[0].content, CanonFields(fields), rest);
  }

  lemma MarkedRest(inner: seq<Line>, depth: nat, rest: seq<Line>)
    requires |inner| > 0 && inner[0].depth == depth + 1
    ensures [Line(depth + 1, inner[0].content)] + (Marked(inner, depth) + rest)[1..] == inner + rest
  {
  }

  lemma EmptyItemBack(delimiter: char, depth: nat, rest: seq<Line>)
    ensures DecodeItem(ItemLines(JObj([]), delimiter, depth) + rest, depth) == Parsed(JObj([]), rest)
  {
    assert ItemLines(JObj([]), delimiter, depth) == [Line(depth, "-")];
    assert ([Line(depth, "-")] + rest)[1..] == rest;
  }

  lemma {:induction false} ItemBack(v: Json, delimiter: char, depth: nat, rest: seq<Line>)
    requires ItemFine(v) && IsDelimiter(delimiter) && Ends(rest, depth + 1)
    ensures DecodeItem(ItemLines(v, delimiter, depth) + rest, depth) == Parsed(CanonItem(v), rest)
    decreases v, 1
  {
    if IsPrimitive(v) {
      PrimitiveItemBack(v, delimiter, depth, rest);
    } else if v.JArr? {
      if AllPrimitive(v.items) {
        InlineItemBack(v.items, delimiter, depth, rest);
      } else {
        ItemsBack(v.items, delimiter, depth + 1, rest);
        ArrayItemBack(v.items, delimiter, depth, rest);
      }
    } else if |v.fields| == 0 {
      EmptyItemBack(delimiter, depth, rest);
    } else {
      assert FirstFine(v.fields[0]);
      ItemObjectBack(v.fields, delimiter, depth + 1, rest);
      ObjectItemBack(v.fields, delimiter, depth, rest);
    }
  }

  // ---------------------------------------------------------------------------
  // Objects
  // ---------------------------------------------------------------------------

  /** A pair's first line carries its key and stands on its own depth. */
  lemma PairStarts(f: Field, delimiter: char, depth: nat)
    requires KeyFits(f)
    ensures var lines := PairLines(f.key, f.value, delimiter, depth);
            && |lines| > 0 && lines[0].depth == depth && lines[0].content != "" && lines[0].content[0] != '['
            && IsPair(lines[0].content)
  {
    var lines := PairLines(f.key, f.value, delimiter, depth);
    if IsPrimitive(f.value) {
      KeyIsPair(f.key, ": " + EncodePrimitive(f.value, delimiter));
      Regroup(EncodeKey(f.key), ": ", EncodePrimitive(f.value, delimiter));
    } else if f.value.JArr? {
      ArrayShape(f.key, f.value.items, delimiter, depth);
      TailStarts(f.value.items, delimiter);
      KeyIsPair(f.key, ArrayTail(f.value.items, delimiter));
    } else {
      KeyIsPair(f.key, ":");
    }
  }

  lemma FirstStarts(f: Field, delimiter: char, depth: nat)
    requires FirstKeyFits(f)
    ensures var lines := FirstLines(f, delimiter, depth);
            && |lines| > 0 && lines[0].depth == depth && lines[0].content != "" && lines[0].content[0] != '['
            && IsPair(lines[0].content)
  {
    if f.value.JArr? {
      TailStarts(f.value.items, delimiter);
      KeyIsPair(f.key, ArrayTail(f.value.items, delimiter));
    } else {
      PairStarts(f, delimiter, depth);
    }
  }

  lemma {:induction false} PrimitivePairBack(key: string, v: Json, delimiter: char, depth: nat, rest: seq<Line>)
    requires KeepsLine(key) && IsPrimitive(v) && IsDelimiter(delimiter)
    ensures DecodeField(PairLines(key, v, delimiter, depth) + rest, depth) == Parsed(Field(key, v), rest)
  {
    var text := EncodePrimitive(v, delimiter);
    var lines := [Line(depth, EncodeKey(key) + ": " + text)] + rest;
    Regroup(EncodeKey(key), ": ", text);
    KeyIsPair(key, ": " + text);
    WholeBack(v, delimiter);
    FieldIsPrimitive(lines, depth, key, text, v);
    assert lines[1..] == rest;
  }

  lemma {:induction false} ArrayPairBack(key: string, items: seq<Json>, delimiter: char, depth: nat, rest: seq<Line>)
    requires KeepsLine(key) && IsDelimiter(delimiter)
    requires DecodeArray(ArrayTail(items, delimiter), Below(items, delimiter, depth + 1) + rest, depth)
             == Parsed(Canon(JArr(items)), rest)
    ensures DecodeField([Line(depth, EncodeKey(key) + ArrayTail(items, delimiter))] + Below(items, delimiter, depth + 1) + rest,
                        depth)
            == Parsed(Field(key, Canon(JArr(items))), rest)
  {
    var bracket, below := ArrayTail(items, delimiter), Below(items, delimiter, depth + 1);
    TailStarts(items, delimiter);
    KeyIsPair(key, bracket);
    ConsRest(Line(depth, EncodeKey(key) + bracket), below, rest);
    FieldIsArray([Line(depth, EncodeKey(key) + bracket)] + below + rest, depth, key, bracket, Canon(JArr(items)), rest);
  }

  lemma {:induction false} ObjectPairBack(key: string, fields: seq<Field>, delimiter: char, depth: nat, rest: seq<Line>)
    requires KeepsLine(key)
    requires DecodeFields(ObjectLines(fields, delimiter, depth + 1) + rest, depth + 1) == Parsed(CanonFields(fields), rest)
    ensures DecodeField(PairLines(key, JObj(fields), delimiter, depth) + rest, depth)
            == Parsed(Field(key, JObj(CanonFields(fields))), rest)
  {
    KeyIsPair(key, ":");
    ConsRest(Line(depth, EncodeKey(key) + ":"), ObjectLines(fields, delimiter, depth + 1), rest);
    FieldIsObject(PairLines(key, JObj(fields), delimiter, depth) + rest, depth, key, CanonFields(fields), rest);
  }

  lemma {:induction false} FieldBack(f: Field, delimiter: char, depth: nat, rest: seq<Line>)
    requires FieldFine(f) && IsDelimiter(delimiter) && Ends(rest, depth + 1)
    ensures DecodeField(PairLines(f.key, f.value, delimiter, depth) + rest, depth)
            == Parsed(Field(f.key, Canon(f.value)), rest)
    decreases f, 1
  {
    if IsPrimitive(f.value) {
      PrimitivePairBack(f.key, f.value, delimiter, depth, rest);
    } else if f.value.JArr? {
      ArrayBack(f.value.items, delimiter, depth, rest);
      ArrayPairBack(f.key, f.value.items, delimiter, depth, rest);
      ArrayShape(f.key, f.value.items, delimiter, depth);
    } else {
      assert FieldsFine(f.value.fields);
      ObjectBack(f.value.fields, delimiter, depth + 1, rest);
      ObjectPairBack(f.key, f.value.fields, delimiter, depth, rest);
    }
  }

  lemma {:induction false} FirstBack(f: Field, delimiter: char, depth: nat, rest: seq<Line>)
    requires FirstFine(f) && IsDelimiter(delimiter) && Ends(rest, depth + 1)
    ensures DecodeField(FirstLines(f, delimiter, depth) + rest, depth) == Parsed(Field(f.key, Canon(f.value)), rest)
    decreases f, 2
  {
    if f.value.JArr? {
      ArrayBack(f.value.items, delimiter, depth, rest);
      ArrayPairBack(f.key, f.value.items, delimiter, depth, rest);
    } else {
      FieldBack(f, delimiter, depth, rest);
    }
  }

  lemma {:induction false} ItemObjectBack(fields: seq<Field>, delimiter: char, depth: nat, rest: seq<Line>)
    requires ItemFieldsFine(fields) && |fields| > 0 && IsDelimiter(delimiter) && Ends(rest, depth)
    ensures DecodeFields(ItemObjectLines(fields, delimiter, depth) + rest, depth) == Parsed(CanonFields(fields), rest)
    decreases fields, 0
  {
    var f := fields[0];
    var first, others := FirstLines(f, delimiter, depth), ObjectLines(fields[1..], delimiter, depth);
    OtherFieldsFine(fields);
    ObjectBack(fields[1..], delimiter, depth, rest);
    FieldsEnd(fields[1..], delimiter, depth, rest);
    FirstStarts(f, delimiter, depth);
    FirstBack(f, delimiter, depth, others + rest);
    AppendRest(first, others, rest);
    FieldsGoOn(ItemObjectLines(fields, delimiter, depth) + rest, depth, Field(f.key, Canon(f.value)), others + rest,
               CanonFields(fields[1..]), rest);
  }

  lemma FieldsEnd(fields: seq<Field>, delimiter: char, depth: nat, rest: seq<Line>)
    requires FieldsFine(fields) && Ends(rest, depth)
    ensures Ends(ObjectLines(fields, delimiter, depth) + rest, depth + 1)
  {
    if |fields| > 0 {
      assert FieldFine(fields[0]);
      PairStarts(fields[0], delimiter, depth);
    } else {
      assert ObjectLines(fields, delimiter, depth) + rest == rest;
    }
  }

  lemma {:induction false} ObjectBack(fields: seq<Field>, delimiter: char, depth: nat, rest: seq<Line>)
    requires FieldsFine(fields) && IsDelimiter(delimiter) && Ends(rest, depth)
    ensures DecodeFields(ObjectLines(fields, delimiter, depth) + rest, depth) == Parsed(CanonFields(fields), rest)
    decreases fields, 0
  {
    if |fields| == 0 {
      assert ObjectLines(fields, delimiter, depth) + rest == rest;
    } else {
      var f := fields[0];
      var tail := ObjectLines(fields[1..], delimiter, depth) + rest;
      assert FieldFine(f);
      ObjectBack(fields[1..], delimiter, depth, rest);
      FieldsEnd(fields[1..], delimiter, depth, rest);
      PairStarts(f, delimiter, depth);
      FieldBack(f, delimiter, depth, tail);
      AppendRest(PairLines(f.key, f.value, delimiter, depth), ObjectLines(fields[1..], delimiter, depth), rest);
      FieldsGoOn(ObjectLines(fields, delimiter, depth) + rest, depth, Field(f.key, Canon(f.value)), tail,
                 CanonFields(fields[1..]), rest);
    }
  }

  // ---------------------------------------------------------------------------
  // Documents
  // ---------------------------------------------------------------------------

  lemma NoKeyPart(key: string, tail: string)
    requires key == ""
    ensures KeyPart(key) + tail == tail
  {
  }

  lemma NothingFollows(below: seq<Line>)
    ensures below + [] == below
  {
  }

  lemma RootArrayBack(key: string, items: seq<Json>, delimiter: char, depth: nat)
    requires key == "" && depth == 0 && ItemsFine(items) && IsDelimiter(delimiter)
    ensures DecodeLines(ArrayLines(key, items, delimiter, depth)) == Some(Canon(JArr(items)))
  {
    var bracket, below := ArrayTail(items, delimiter), Below(items, delimiter, depth + 1);
    ArrayShape(key, items, delimiter, depth);
    NoKeyPart(key, bracket);
    TailStarts(items, delimiter);
    ArrayBack(items, delimiter, depth, []);
    NothingFollows(below);
    RootIsArray([Line(depth, bracket)] + below, bracket, below, Canon(JArr(items)));
  }

  lemma RootIsArray(lines: seq<Line>, bracket: string, below: seq<Line>, v: Json)
    requires lines == [Line(0, bracket)] + below && bracket != "" && bracket[0] == '['
    requires DecodeArray(bracket, below, 0) == Parsed(v, [])
    ensures DecodeLines(lines) == Some(v)
  {
    assert lines[1..] == below;
  }

  lemma RootObjectBack(fields: seq<Field>, delimiter: char)
    requires FieldsFine(fields) && IsDelimiter(delimiter)
    ensures DecodeLines(ObjectLines(fields, delimiter, 0)) == Some(JObj(CanonFields(fields)))
  {
    var lines := ObjectLines(fields, delimiter, 0);
    if |fields| > 0 {
      assert FieldFine(fields[0]);
      ObjectBack(fields, delimiter, 0, []);
      PairStarts(fields[0], delimiter, 0);
      assert lines + [] == lines;
    }
  }

  /** The lines of any encodable value read back as that value. */
  lemma LinesBack(v: Json, delimiter: char)
    requires Encodable(v) && IsDelimiter(delimiter)
    ensures DecodeLines(ValueLines(v, delimiter)) == Some(Canon(v))
  {
    if IsPrimitive(v) {
      PrimitiveIsNotPair(v, delimiter);
      WholeBack(v, delimiter);
    } else if v.JArr? {
      RootArrayBack("", v.items, delimiter, 0);
    } else {
      RootObjectBack(v.fields, delimiter);
    }
  }
}
