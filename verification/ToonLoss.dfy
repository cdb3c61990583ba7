/** Exactly when encoding loses nothing: every key stays on its line and no header drops one. */
module ToonLoss {
  import opened Ordering
  import opened Types
  import opened ToonText
  import opened ToonEncoder
  import opened ToonDecoder
  import opened ToonTokens
  import opened ToonShapes
  import opened ToonSteps
  import opened ToonRoundTrip
  import opened ToonLines
  import opened ToonDocument
  import opened ToonBreaks

  // ---------------------------------------------------------------------------
  // Reading something else
  // ---------------------------------------------------------------------------

  /** The reader refuses, or what it reads means something else. */
  predicate Misses(p: Parsed<Json>, v: Json) {
    p.Parsed? ==> Mean(p.value) != Mean(v)
  }

  predicate ItemsMiss(p: Parsed<seq<Json>>, items: seq<Json>) {
    p.Parsed? ==> MeanItems(p.value) != MeanItems(items)
  }

  predicate FieldMisses(p: Parsed<Field>, f: Field) {
    p.Parsed? ==> p.value.key == f.key && Mean(p.value.value) != Mean(f.value)
  }

  /** Some key was read with another value. */
  predicate OtherValue(read: seq<Field>, fields: seq<Field>, k: nat) {
    k < |fields| && Find(read, fields[k].key).Some? && Mean(Find(read, fields[k].key).value) != Mean(fields[k].value)
  }

  ghost predicate FieldsMiss(p: Parsed<seq<Field>>, fields: seq<Field>) {
    p.Parsed? ==> exists k: nat :: OtherValue(p.value, fields, k)
  }

  lemma FieldsMissMeaning(read: seq<Field>, fields: seq<Field>, k: nat)
    requires UniqueKeys(fields) && OtherValue(read, fields, k)
    ensures MeanFields(read) != MeanFields(fields)
  {
    FoundAt(fields, k);
    MeanIsFind(read, fields[k].key);
    MeanIsFind(fields, fields[k].key);
  }

  lemma MissedFieldsMean(p: Parsed<seq<Field>>, fields: seq<Field>)
    requires UniqueKeys(fields) && FieldsMiss(p, fields)
    ensures p.Parsed? ==> MeanFields(p.value) != MeanFields(fields)
  {
    if p.Parsed? {
      var k: nat :| OtherValue(p.value, fields, k);
      FieldsMissMeaning(p.value, fields, k);
    }
  }

  // ---------------------------------------------------------------------------
  // One step that misses makes the whole miss
  // ---------------------------------------------------------------------------

  lemma {:induction false} FirstItemMisses(lines: seq<Line>, depth: nat, items: seq<Json>)
    requires |lines| > 0 && |items| > 0 && Misses(DecodeItem(lines, depth), items[0])
    ensures ItemsMiss(DecodeItems(lines, depth, |items|), items)
  {
    var p := DecodeItems(lines, depth, |items|);
    if p.Parsed? {
      assert MeanItems(p.value)[0] != MeanItems(items)[0];
    }
  }

  lemma {:induction false} LaterItemMisses(lines: seq<Line>, depth: nat, items: seq<Json>, v: Json, middle: seq<Line>)
    requires |lines| > 0 && |items| > 0 && DecodeItem(lines, depth) == Parsed(v, middle)
    requires ItemsMiss(DecodeItems(middle, depth, |items[1..]|), items[1..])
    ensures ItemsMiss(DecodeItems(lines, depth, |items|), items)
  {
    assert |items[1..]| == |items| - 1;
    var p := DecodeItems(lines, depth, |items|);
    if p.Parsed? {
      assert p.value[1..] == DecodeItems(middle, depth, |items| - 1).value;
      assert MeanItems(p.value)[1..] == MeanItems(p.value[1..]);
      assert MeanItems(items)[1..] == MeanItems(items[1..]);
    }
  }

  lemma {:induction false} FirstFieldMisses(lines: seq<Line>, depth: nat, fields: seq<Field>)
    requires |lines| > 0 && lines[0].depth == depth && |fields| > 0 && FieldMisses(DecodeField(lines, depth), fields[0])
    ensures FieldsMiss(DecodeFields(lines, depth), fields)
  {
    var p := DecodeFields(lines, depth);
    if p.Parsed? {
      assert OtherValue(p.value, fields, 0);
    }
  }

  lemma {:induction false} LaterFieldMisses(lines: seq<Line>, depth: nat, fields: seq<Field>, f: Field, middle: seq<Line>)
    requires |lines| > 0 && lines[0].depth == depth && |fields| > 0 && UniqueKeys(fields)
    requires DecodeField(lines, depth) == Parsed(f, middle) && f.key == fields[0].key
    requires FieldsMiss(DecodeFields(middle, depth), fields[1..])
    ensures FieldsMiss(DecodeFields(lines, depth), fields)
  {
    var p := DecodeFields(lines, depth);
    if p.Parsed? {
      var tail := DecodeFields(middle, depth).value;
      assert p.value == [f] + tail && p.value[1..] == tail;
      var k: nat :| OtherValue(tail, fields[1..], k);
      assert fields[1..][k] == fields[k + 1] && fields[k + 1].key != f.key;
      assert OtherValue(p.value, fields, k + 1);
    }
  }

  // ---------------------------------------------------------------------------
  // Arrays and list items
  // ---------------------------------------------------------------------------

  lemma TableIsFine(items: seq<Json>)
    requires Tabular(items) && Proper(JArr(items)) && ItemsOneLine(items)
    ensures ItemsFine(items)
  {
    var header := TabularHeader(items).value;
    assert Proper(items[0]);
    KeysAreDistinct(items[0].fields);
    forall i | 0 <= i < |items|
      ensures ItemFine(items[i])
    {
      assert OneLine(items[i]) && Proper(items[i]);
      RowIsFine(items[i], header);
    }
  }

  lemma RowIsFine(row: Json, header: seq<string>)
    requires RowFits(row, header) && Distinct(header) && Proper(row) && OneLine(row)
    ensures ItemFine(row)
  {
    var fields := row.fields;
    forall j | 0 <= j < |fields|
      ensures FieldFine(fields[j]) && FirstFine(fields[j])
    {
      assert FieldOneLine(fields[j]);
      FoundAt(fields, j);
      SameKeySet(fields, header, fields[j].key);
      var k :| 0 <= k < |header| && header[k] == fields[j].key;
      assert IsPrimitive(Find(fields, header[k]).value);
    }
    assert ItemFieldsFine(fields);
  }

  lemma PrimitivesAreFine(items: seq<Json>)
    requires AllPrimitive(items)
    ensures ItemsFine(items)
  {
    forall i | 0 <= i < |items|
      ensures ItemFine(items[i])
    {
      assert IsPrimitive(items[i]);
    }
  }

  lemma {:induction false} ListMisses(items: seq<Json>, delimiter: char, lines: seq<Line>, depth: nat)
    requires IsDelimiter(delimiter) && ItemsMiss(DecodeItems(lines, depth + 1, |items|), items)
    ensures Misses(DecodeArray(Bracket(|items|, None, delimiter), lines, depth), JArr(items))
  {
    WholeBracket(|items|, None, delimiter);
  }

  lemma {:induction false} ArrayMisses(items: seq<Json>, delimiter: char, depth: nat, rest: seq<Line>)
    requires Proper(JArr(items)) && ItemsOneLine(items) && !ItemsFine(items)
    requires IsDelimiter(delimiter) && Ends(rest, depth + 1)
    ensures Misses(DecodeArray(ArrayTail(items, delimiter), Below(items, delimiter, depth + 1) + rest, depth), JArr(items))
    decreases items, 1
  {
    if AllPrimitive(items) {
      PrimitivesAreFine(items);
    } else if Tabular(items) {
      TableIsFine(items);
    } else {
      ItemsGoAstray(items, delimiter, depth + 1, rest);
      ListMisses(items, delimiter, Below(items, delimiter, depth + 1) + rest, depth);
    }
  }

  lemma {:induction false} OtherItems(items: seq<Json>)
    requires |items| > 0 && (forall i | 0 <= i < |items| :: Proper(items[i])) && ItemsOneLine(items)
    ensures (forall i | 0 <= i < |items[1..]| :: Proper(items[1..][i])) && ItemsOneLine(items[1..])
    ensures OneLine(items[0]) && (ItemFine(items[0]) && ItemsFine(items[1..]) ==> ItemsFine(items))
  {
    forall i | 0 < i < |items|
      ensures ItemsFine(items[1..]) ==> ItemFine(items[i])
    {
      assert items[1..][i - 1] == items[i];
    }
  }

  lemma {:induction false} ItemsGoAstray(items: seq<Json>, delimiter: char, depth: nat, rest: seq<Line>)
    requires (forall i | 0 <= i < |items| :: Proper(items[i])) && ItemsOneLine(items) && !ItemsFine(items)
    requires IsDelimiter(delimiter) && Ends(rest, depth + 1)
    ensures ItemsMiss(DecodeItems(ItemsLines(items, delimiter, depth) + rest, depth, |items|), items)
    decreases items, 0
  {
    var first, others := ItemLines(items[0], delimiter, depth), ItemsLines(items[1..], delimiter, depth);
    OtherItems(items);
    AppendRest(first, others, rest);
    ItemsEnd(items[1..], delimiter, depth, rest);
    ItemStarts(items[0], delimiter, depth);
    if ItemFine(items[0]) {
      ItemBack(items[0], delimiter, depth, others + rest);
      ItemsGoAstray(items[1..], delimiter, depth, rest);
      LaterItemMisses(first + (others + rest), depth, items, CanonItem(items[0]), others + rest);
    } else {
      ItemGoesAstray(items[0], delimiter, depth, others + rest);
      FirstItemMisses(first + (others + rest), depth, items);
    }
  }

  lemma {:induction false} ArrayItemMisses(items: seq<Json>, delimiter: char, depth: nat, rest: seq<Line>)
    requires !AllPrimitive(items) && IsDelimiter(delimiter)
    requires ItemsMiss(DecodeItems(ItemsLines(items, delimiter, depth + 1) + rest, depth + 1, |items|), items)
    ensures Misses(DecodeItem(ItemLines(JArr(items), delimiter, depth) + rest, depth), JArr(items))
  {
    var bracket, below := Bracket(|items|, None, delimiter), ItemsLines(items, delimiter, depth + 1);
    NoKeyHeader(|items|, delimiter);
    ListMisses(items, delimiter, below + rest, depth);
    ConsRest(Line(depth, "- " + bracket), below, rest);
    ItemIsArray([Line(depth, "- " + bracket)] + below + rest, depth, bracket);
  }

  lemma {:induction false} ObjectItemMisses(fields: seq<Field>, delimiter: char, depth: nat, rest: seq<Line>)
    requires |fields| > 0 && FirstKeyFits(fields[0]) && UniqueKeys(fields) && IsDelimiter(delimiter)
    requires FieldsMiss(DecodeFields(ItemObjectLines(fields, delimiter, depth + 1) + rest, depth + 1), fields)
    ensures Misses(DecodeItem(ItemLines(JObj(fields), delimiter, depth) + rest, depth), JObj(fields))
  {
    ObjectItemShape(fields, delimiter, depth);
    FirstStarts(fields[0], delimiter, depth + 1);
    var inner := ItemObjectLines(fields, delimiter, depth + 1);
    ConsRest(Line(depth, "- " + inner[0].content), inner[1..], rest);
    MarkedRest(inner, depth, rest);
    MarkedLine(inner[0].content);
    MissedFieldsMean(DecodeFields(inner + rest, depth + 1), fields);
  }

  lemma {:induction false} ArrayReadsArray(bracket: string, lines: seq<Line>, depth: nat)
    ensures var p := DecodeArray(bracket, lines, depth); p.Parsed? ==> p.value.JArr?
  {
  }

  lemma {:induction false} ArrayIsNoObject(bracket: string, lines: seq<Line>, depth: nat, fields: seq<Field>)
    ensures Misses(DecodeArray(bracket, lines, depth), JObj(fields))
  {
    var p := DecodeArray(bracket, lines, depth);
    ArrayReadsArray(bracket, lines, depth);
    if p.Parsed? {
      MeansNoObject(p.value, fields);
    }
  }

  lemma {:induction false} MeansNoObject(v: Json, fields: seq<Field>)
    requires !v.JObj?
    ensures Mean(v) != Mean(JObj(fields))
  {
  }

  /** A table under an empty key, first in a list item, reads as a bare table. */
  lemma {:induction false} DroppedFirstKey(fields: seq<Field>, delimiter: char, depth: nat, rest: seq<Line>)
    requires |fields| > 0 && FieldOneLine(fields[0]) && !FirstKeyFits(fields[0])
    ensures Misses(DecodeItem(ItemLines(JObj(fields), delimiter, depth) + rest, depth), JObj(fields))
  {
    var bracket := ArrayTail(fields[0].value.items, delimiter);
    var inner := ItemObjectLines(fields, delimiter, depth + 1);
    ObjectItemShape(fields, delimiter, depth);
    TailStarts(fields[0].value.items, delimiter);
    NoKeyPart("", bracket);
    assert inner[0].content == bracket;
    var lines := [Line(depth, "- " + bracket)] + inner[1..] + rest;
    ItemIsArray(lines, depth, bracket);
    ArrayIsNoObject(bracket, lines[1..], depth, fields);
  }

  lemma {:induction false} ItemGoesAstray(v: Json, delimiter: char, depth: nat, rest: seq<Line>)
    requires Proper(v) && OneLine(v) && !ItemFine(v) && IsDelimiter(delimiter) && Ends(rest, depth + 1)
    ensures Misses(DecodeItem(ItemLines(v, delimiter, depth) + rest, depth), v)
    decreases v, 1
  {
    if v.JArr? {
      if AllPrimitive(v.items) {
        PrimitivesAreFine(v.items);
      } else {
        ItemsGoAstray(v.items, delimiter, depth + 1, rest);
        ArrayItemMisses(v.items, delimiter, depth, rest);
      }
    } else {
      assert FieldOneLine(v.fields[0]);
      if FirstKeyFits(v.fields[0]) {
        ItemObjectAstray(v.fields, delimiter, depth + 1, rest);
        ObjectItemMisses(v.fields, delimiter, depth, rest);
      } else {
        DroppedFirstKey(v.fields, delimiter, depth, rest);
      }
    }
  }

  // ---------------------------------------------------------------------------
  // Objects
  // ---------------------------------------------------------------------------

  lemma {:induction false} KeyedArrayMisses(key: string, items: seq<Json>, delimiter: char, depth: nat, rest: seq<Line>)
    requires KeepsLine(key) && IsDelimiter(delimiter)
    requires Misses(DecodeArray(ArrayTail(items, delimiter), Below(items, delimiter, depth + 1) + rest, depth), JArr(items))
    ensures FieldMisses(DecodeField([Line(depth, EncodeKey(key) + ArrayTail(items, delimiter))]
                                    + Below(items, delimiter, depth + 1) + rest, depth), Field(key, JArr(items)))
  {
    var bracket, below := ArrayTail(items, delimiter), Below(items, delimiter, depth + 1);
    TailStarts(items, delimiter);
    KeyIsPair(key, bracket);
    ConsRest(Line(depth, EncodeKey(key) + bracket), below, rest);
  }

  lemma {:induction false} ObjectFieldMisses(key: string, fields: seq<Field>, delimiter: char, depth: nat, rest: seq<Line>)
    requires KeepsLine(key) && UniqueKeys(fields)
    requires FieldsMiss(DecodeFields(ObjectLines(fields, delimiter, depth + 1) + rest, depth + 1), fields)
    ensures FieldMisses(DecodeField(PairLines(key, JObj(fields), delimiter, depth) + rest, depth), Field(key, JObj(fields)))
  {
    KeyIsPair(key, ":");
    ConsRest(Line(depth, EncodeKey(key) + ":"), ObjectLines(fields, delimiter, depth + 1), rest);
    MissedFieldsMean(DecodeFields(ObjectLines(fields, delimiter, depth + 1) + rest, depth + 1), fields);
  }

  /** An array under an empty key starts with its bracket, which no field does. */
  lemma {:induction false} DroppedKey(f: Field, delimiter: char, depth: nat, rest: seq<Line>)
    requires FieldOneLine(f) && !KeyFits(f)
    ensures var lines := PairLines(f.key, f.value, delimiter, depth);
            |lines| > 0 && lines[0].depth == depth && DecodeField(lines + rest, depth) == Failed
  {
    var bracket := ArrayTail(f.value.items, delimiter);
    ArrayShape(f.key, f.value.items, delimiter, depth);
    TailStarts(f.value.items, delimiter);
    NoKeyPart("", bracket);
    ConsRest(Line(depth, bracket), Below(f.value.items, delimiter, depth + 1), rest);
  }

  lemma {:induction false} FieldGoesAstray(f: Field, delimiter: char, depth: nat, rest: seq<Line>)
    requires Proper(f.value) && FieldOneLine(f) && !FieldFine(f) && IsDelimiter(delimiter) && Ends(rest, depth + 1)
    ensures FieldMisses(DecodeField(PairLines(f.key, f.value, delimiter, depth) + rest, depth), f)
    decreases f, 1
  {
    if !KeyFits(f) {
      DroppedKey(f, delimiter, depth, rest);
    } else if f.value.JArr? {
      ArrayMisses(f.value.items, delimiter, depth, rest);
      ArrayShape(f.key, f.value.items, delimiter, depth);
      KeyedArrayMisses(f.key, f.value.items, delimiter, depth, rest);
    } else {
      FieldsGoAstray(f.value.fields, delimiter, depth + 1, rest);
      ObjectFieldMisses(f.key, f.value.fields, delimiter, depth, rest);
    }
  }

  lemma {:induction false} FirstGoesAstray(f: Field, delimiter: char, depth: nat, rest: seq<Line>)
    requires Proper(f.value) && FieldOneLine(f) && FirstKeyFits(f) && !Encodable(f.value)
    requires IsDelimiter(delimiter) && Ends(rest, depth + 1)
    ensures FieldMisses(DecodeField(FirstLines(f, delimiter, depth) + rest, depth), f)
    decreases f, 2
  {
    if f.value.JArr? {
      ArrayMisses(f.value.items, delimiter, depth, rest);
      KeyedArrayMisses(f.key, f.value.items, delimiter, depth, rest);
    } else {
      FieldGoesAstray(f, delimiter, depth, rest);
    }
  }

  lemma {:induction false} PairDepth(f: Field, delimiter: char, depth: nat)
    ensures var lines := PairLines(f.key, f.value, delimiter, depth); |lines| > 0 && lines[0].depth == depth
  {
    if f.value.JArr? {
      ArrayShape(f.key, f.value.items, delimiter, depth);
    }
  }

  /** Where the fields of an object end, whatever their keys. */
  lemma {:induction false} FieldsStop(fields: seq<Field>, delimiter: char, depth: nat, rest: seq<Line>)
    requires Ends(rest, depth)
    ensures Ends(ObjectLines(fields, delimiter, depth) + rest, depth + 1)
  {
    if |fields| > 0 {
      PairDepth(fields[0], delimiter, depth);
    } else {
      assert ObjectLines(fields, delimiter, depth) + rest == rest;
    }
  }

  lemma {:induction false} OtherFields(fields: seq<Field>)
    requires |fields| > 0 && UniqueKeys(fields) && FieldsOneLine(fields)
    requires forall i | 0 <= i < |fields| :: Proper(fields[i].value)
    ensures UniqueKeys(fields[1..]) && FieldsOneLine(fields[1..]) && FieldOneLine(fields[0])
    ensures forall i | 0 <= i < |fields[1..]| :: Proper(fields[1..][i].value)
    ensures FieldsFine(fields[1..]) ==> forall i | 0 < i < |fields| :: FieldFine(fields[i])
  {
    forall i | 0 < i < |fields|
      ensures FieldsFine(fields[1..]) ==> FieldFine(fields[i])
    {
      assert fields[1..][i - 1] == fields[i];
    }
  }

  lemma {:induction false} FieldsGoAstray(fields: seq<Field>, delimiter: char, depth: nat, rest: seq<Line>)
    requires UniqueKeys(fields) && (forall i | 0 <= i < |fields| :: Proper(fields[i].value))
    requires FieldsOneLine(fields) && !FieldsFine(fields) && IsDelimiter(delimiter) && Ends(rest, depth)
    ensures FieldsMiss(DecodeFields(ObjectLines(fields, delimiter, depth) + rest, depth), fields)
    decreases fields, 0
  {
    var f := fields[0];
    var first, others := PairLines(f.key, f.value, delimiter, depth), ObjectLines(fields[1..], delimiter, depth);
    OtherFields(fields);
    AppendRest(first, others, rest);
    PairDepth(f, delimiter, depth);
    FieldsStop(fields[1..], delimiter, depth, rest);
    if FieldFine(f) {
      FieldBack(f, delimiter, depth, others + rest);
      FieldsGoAstray(fields[1..], delimiter, depth, rest);
      LaterFieldMisses(first + (others + rest), depth, fields, Field(f.key, Canon(f.value)), others + rest);
    } else {
      FieldGoesAstray(f, delimiter, depth, others + rest);
      FirstFieldMisses(first + (others + rest), depth, fields);
    }
  }

  lemma {:induction false} ItemObjectAstray(fields: seq<Field>, delimiter: char, depth: nat, rest: seq<Line>)
    requires |fields| > 0 && UniqueKeys(fields) && (forall i | 0 <= i < |fields| :: Proper(fields[i].value))
    requires FieldsOneLine(fields) && !ItemFieldsFine(fields) && FirstKeyFits(fields[0])
    requires IsDelimiter(delimiter) && Ends(rest, depth)
    ensures FieldsMiss(DecodeFields(ItemObjectLines(fields, delimiter, depth) + rest, depth), fields)
    decreases fields, 0
  {
    var f := fields[0];
    var first, others := FirstLines(f, delimiter, depth), ObjectLines(fields[1..], delimiter, depth);
    OtherFields(fields);
    AppendRest(first, others, rest);
    FirstStarts(f, delimiter, depth);
    FieldsStop(fields[1..], delimiter, depth, rest);
    if Encodable(f.value) {
      FirstBack(f, delimiter, depth, others + rest);
      FieldsGoAstray(fields[1..], delimiter, depth, rest);
      LaterFieldMisses(first + (others + rest), depth, fields, Field(f.key, Canon(f.value)), others + rest);
    } else {
      FirstGoesAstray(f, delimiter, depth, others + rest);
      FirstFieldMisses(first + (others + rest), depth, fields);
    }
  }

  // ---------------------------------------------------------------------------
  // Documents
  // ---------------------------------------------------------------------------

  /** The text comes back with the value's meaning. */
  predicate ComesBack(v: Json, w: Option<Json>) {
    w.Some? && Mean(w.value) == Mean(v)
  }

  lemma RootArrayAstray(key: string, items: seq<Json>, delimiter: char, depth: nat)
    requires key == "" && depth == 0 && Proper(JArr(items)) && ItemsOneLine(items) && !ItemsFine(items)
    requires IsDelimiter(delimiter)
    ensures !ComesBack(JArr(items), DecodeLines(ArrayLines(key, items, delimiter, depth)))
  {
    var bracket, below := ArrayTail(items, delimiter), Below(items, delimiter, depth + 1);
    ArrayShape(key, items, delimiter, depth);
    NoKeyPart(key, bracket);
    TailStarts(items, delimiter);
    ArrayMisses(items, delimiter, depth, []);
    NothingFollows(below);
    assert ([Line(depth, bracket)] + below)[1..] == below;
  }

  lemma RootObjectAstray(fields: seq<Field>, delimiter: char)
    requires Proper(JObj(fields)) && FieldsOneLine(fields) && !FieldsFine(fields) && IsDelimiter(delimiter)
    ensures !ComesBack(JObj(fields), DecodeLines(ObjectLines(fields, delimiter, 0)))
  {
    var lines := ObjectLines(fields, delimiter, 0);
    FieldsGoAstray(fields, delimiter, 0, []);
    NothingFollows(lines);
    PairDepth(fields[0], delimiter, 0);
    MissedFieldsMean(DecodeFields(lines, 0), fields);
    OnlyAnObject(lines, fields);
  }

  /** Read as anything but an object, it is not this object. */
  lemma {:induction false} OnlyAnObject(lines: seq<Line>, fields: seq<Field>)
    requires |lines| > 0 && (DecodeFields(lines, 0).Parsed? ==> MeanFields(DecodeFields(lines, 0).value) != MeanFields(fields))
    ensures !ComesBack(JObj(fields), DecodeLines(lines))
  {
    var w := DecodeLines(lines);
    ObjectIsRead(lines);
    if w.Some? && !w.value.JObj? {
      MeansNoObject(w.value, fields);
    }
  }

  lemma {:induction false} ObjectIsRead(lines: seq<Line>)
    requires |lines| > 0
    ensures var w, p := DecodeLines(lines), DecodeFields(lines, 0);
            w.Some? && w.value.JObj? ==> p.Parsed? && w.value == JObj(p.value)
  {
    ArrayReadsArray(lines[0].content, lines[1..], 0);
    WholeReadsPrimitive(lines[0].content);
  }

  lemma WholeReadsPrimitive(s: string)
    ensures ParseWhole(s).Some? ==> IsPrimitive(ParseWhole(s).value)
  {
  }

  lemma LinesAstray(v: Json, delimiter: char)
    requires Proper(v) && OneLine(v) && !Encodable(v) && IsDelimiter(delimiter)
    ensures !ComesBack(v, DecodeLines(ValueLines(v, delimiter)))
  {
    if v.JArr? {
      RootArrayAstray("", v.items, delimiter, 0);
    } else {
      RootObjectAstray(v.fields, delimiter);
    }
  }

  /** Lossless if and only if every key stays on its line and no array header drops one. */
  lemma LosslessIff(v: Json, delimiter: char, indent: nat)
    requires Proper(v) && IsDelimiter(delimiter) && indent > 0
    ensures ComesBack(v, Decode(Encode(v, delimiter, indent), indent)) <==> Encodable(v)
  {
    if Encodable(v) {
      EncodingIsLossless(v, delimiter, indent);
    } else if OneLine(v) {
      ValueClean(v, delimiter);
      TextBack(ValueLines(v, delimiter), indent);
      LinesAstray(v, delimiter);
    } else {
      BrokenKeyIsRefused(v, delimiter, indent);
    }
  }

  // ---------------------------------------------------------------------------
  // One text, two values
  // ---------------------------------------------------------------------------

  lemma OnePair(f: Field, delimiter: char, depth: nat)
    ensures ObjectLines([f], delimiter, depth) == PairLines(f.key, f.value, delimiter, depth)
  {
    assert ObjectLines([f][1..], delimiter, depth) == [];
    assert ObjectLines([f], delimiter, depth)
           == PairLines([f][0].key, [f][0].value, delimiter, depth) + ObjectLines([f][1..], delimiter, depth);
  }

  /** An empty key on an array is dropped: the object and the bare array print alike. */
  lemma EmptyKeyIsLost(items: seq<Json>, delimiter: char, indent: nat)
    ensures Encode(JObj([Field("", JArr(items))]), delimiter, indent) == Encode(JArr(items), delimiter, indent)
    ensures Mean(JObj([Field("", JArr(items))])) != Mean(JArr(items))
  {
    OnePair(Field("", JArr(items)), delimiter, 0);
  }
}
