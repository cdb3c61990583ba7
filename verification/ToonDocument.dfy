/** Whole documents: the text of a value, read back, means what the value meant. */
module ToonDocument {
  import opened Ordering
  import opened Types
  import opened ToonText
  import opened ToonEncoder
  import opened ToonDecoder
  import opened ToonShapes
  import opened ToonRoundTrip
  import opened ToonLines

  // ---------------------------------------------------------------------------
  // Values up to key order
  // ---------------------------------------------------------------------------

  /** What a value means: an object is a map. */
  datatype Value = VNull | VBool(b: bool) | VInt(n: int) | VStr(s: string) | VArr(items: seq<Value>) | VObj(fields: map<string, Value>)

  function Mean(v: Json): Value
    decreases v, 1
  {
    match v
    case JNull => VNull
    case JBool(b) => VBool(b)
    case JInt(n) => VInt(n)
    case JStr(s) => VStr(s)
    case JArr(items) => VArr(MeanItems(items))
    case JObj(fields) => VObj(MeanFields(fields))
  }

  function MeanItems(items: seq<Json>): seq<Value>
    decreases items, 0
  {
    if |items| == 0 then [] else [Mean(items[0])] + MeanItems(items[1..])
  }

  function MeanFields(fields: seq<Field>): map<string, Value>
    decreases fields, 0
  {
    if |fields| == 0 then map[] else MeanFields(fields[1..])[fields[0].key := Mean(fields[0].value)]
  }

  lemma {:induction false} MeanIsFind(fields: seq<Field>, key: string)
    ensures key in MeanFields(fields) <==> Find(fields, key).Some?
    ensures key in MeanFields(fields) ==> MeanFields(fields)[key] == Mean(Find(fields, key).value)
    decreases |fields|
  {
    if |fields| > 0 {
      MeanIsFind(fields[1..], key);
    }
  }

  lemma {:induction false} FindZip(keys: seq<string>, vs: seq<Json>, k: nat)
    requires |keys| == |vs| && Distinct(keys) && k < |keys|
    ensures Find(Zip(keys, vs), keys[k]) == Some(vs[k])
  {
    var fields := Zip(keys, vs);
    assert fields[k].key == keys[k];
    var v := Find(fields, keys[k]);
    assert v.Some?;
    var i :| 0 <= i < |fields| && fields[i] == Field(keys[k], v.value);
    assert i == k;
  }

  lemma KeysAreDistinct(fields: seq<Field>)
    requires UniqueKeys(fields)
    ensures Distinct(Keys(fields))
  {
  }

  /** A row that fits a header of its own size has exactly the header's keys. */
  lemma SameKeySet(fields: seq<Field>, header: seq<string>, key: string)
    requires RowFits(JObj(fields), header) && UniqueKeys(fields) && Distinct(header)
    ensures Find(fields, key).Some? <==> key in header
  {
    var keys := Keys(fields);
    KeysAreDistinct(fields);
    DistinctLength(keys);
    DistinctLength(header);
    forall k | k in header
      ensures k in keys
    {
      var j :| 0 <= j < |header| && header[j] == k;
      assert Find(fields, header[j]).Some?;
      var i :| 0 <= i < |fields| && fields[i] == Field(k, Find(fields, k).value);
      assert keys[i] == k;
    }
    assert Elems(header) <= Elems(keys);
    if Elems(header) < Elems(keys) {
      SubsetSmaller(Elems(header), Elems(keys));
    }
    assert key in keys <==> key in Elems(keys);
    assert key in header <==> key in Elems(header);
    if Find(fields, key).Some? {
      var i :| 0 <= i < |fields| && fields[i] == Field(key, Find(fields, key).value);
      assert keys[i] == key;
    }
  }

  /** Reordering a row does not change what it means. */
  lemma RowMeansTheSame(row: Json, header: seq<string>)
    requires RowFits(row, header) && UniqueKeys(row.fields) && Distinct(header)
    ensures Mean(JObj(Zip(header, RowValues(row, header)))) == Mean(row)
  {
    var fields := Zip(header, RowValues(row, header));
    forall key
      ensures key in MeanFields(fields) <==> key in MeanFields(row.fields)
      ensures key in MeanFields(fields) ==> MeanFields(fields)[key] == MeanFields(row.fields)[key]
    {
      MeanIsFind(fields, key);
      MeanIsFind(row.fields, key);
      SameKeySet(row.fields, header, key);
      if key in header {
        var k :| 0 <= k < |header| && header[k] == key;
        FindZip(header, RowValues(row, header), k);
      }
    }
    assert MeanFields(fields) == MeanFields(row.fields);
  }

  lemma {:induction false} RowsMeanTheSame(rows: seq<Json>, header: seq<string>)
    requires RowsFit(rows, header) && ItemsFine(rows) && Distinct(header)
    ensures MeanItems(CanonRows(rows, header)) == MeanItems(rows)
    decreases |rows|
  {
    if |rows| > 0 {
      assert ItemFine(rows[0]) && ItemFieldsFine(rows[0].fields);
      RowMeansTheSame(rows[0], header);
      RowsMeanTheSame(rows[1..], header);
      var first, rest := JObj(Zip(header, RowValues(rows[0], header))), CanonRows(rows[1..], header);
      assert ([first] + rest)[1..] == rest;
    }
  }

  lemma {:induction false} CanonMeansTheSame(v: Json)
    requires Encodable(v)
    ensures Mean(Canon(v)) == Mean(v)
    decreases v, 1
  {
    if v.JArr? {
      if Tabular(v.items) {
        var first := v.items[0];
        assert ItemFine(first) && ItemFieldsFine(first.fields);
        KeysAreDistinct(first.fields);
        RowsMeanTheSame(v.items, TabularHeader(v.items).value);
      } else {
        ItemsMeanTheSame(v.items);
      }
    } else if v.JObj? {
      FieldsHoldEncodable(v.fields);
      FieldsMeanTheSame(v.fields);
    }
  }

  lemma FieldsHoldEncodable(fields: seq<Field>)
    requires FieldsFine(fields) || ItemFieldsFine(fields)
    ensures forall i | 0 <= i < |fields| :: Encodable(fields[i].value)
  {
    forall i | 0 <= i < |fields|
      ensures Encodable(fields[i].value)
    {
      assert FieldFine(fields[i]) || FirstFine(fields[i]);
    }
  }

  lemma {:induction false} ItemMeansTheSame(v: Json)
    requires ItemFine(v)
    ensures Mean(CanonItem(v)) == Mean(v)
    decreases v, 1
  {
    if v.JArr? {
      ItemsMeanTheSame(v.items);
    } else if v.JObj? {
      FieldsHoldEncodable(v.fields);
      FieldsMeanTheSame(v.fields);
    }
  }

  lemma {:induction false} ItemsMeanTheSame(items: seq<Json>)
    requires ItemsFine(items)
    ensures MeanItems(CanonItems(items)) == MeanItems(items)
    decreases items, 0
  {
    if |items| > 0 {
      ItemMeansTheSame(items[0]);
      ItemsMeanTheSame(items[1..]);
      assert ([CanonItem(items[0])] + CanonItems(items[1..]))[1..] == CanonItems(items[1..]);
    }
  }

  lemma {:induction false} FieldsMeanTheSame(fields: seq<Field>)
    requires forall i | 0 <= i < |fields| :: Encodable(fields[i].value)
    ensures MeanFields(CanonFields(fields)) == MeanFields(fields)
    decreases fields, 0
  {
    if |fields| > 0 {
      CanonMeansTheSame(fields[0].value);
      FieldsMeanTheSame(fields[1..]);
      var first := Field(fields[0].key, Canon(fields[0].value));
      assert ([first] + CanonFields(fields[1..]))[1..] == CanonFields(fields[1..]);
    }
  }

  // ---------------------------------------------------------------------------
  // Lossless
  // ---------------------------------------------------------------------------

  /** Whatever the delimiter and the indentation, the decoder gets the value back, with
      nothing changed but the key order inside tables. */
  lemma EncodingIsLossless(v: Json, delimiter: char, indent: nat)
    requires Encodable(v) && IsDelimiter(delimiter) && indent > 0
    ensures Decode(Encode(v, delimiter, indent), indent) == Some(Canon(v))
    ensures Mean(Canon(v)) == Mean(v)
  {
    FineIsOneLine(v);
    ValueClean(v, delimiter);
    TextBack(ValueLines(v, delimiter), indent);
    LinesBack(v, delimiter);
    CanonMeansTheSame(v);
  }

  /** So two values with one text mean the same. */
  lemma EncodingIsInjective(v: Json, w: Json, delimiter: char, indent: nat)
    requires Encodable(v) && Encodable(w) && IsDelimiter(delimiter) && indent > 0
    requires Encode(v, delimiter, indent) == Encode(w, delimiter, indent)
    ensures Mean(v) == Mean(w)
  {
    EncodingIsLossless(v, delimiter, indent);
    EncodingIsLossless(w, delimiter, indent);
  }
}
