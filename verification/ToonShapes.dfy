/** The emitters brought to one shape: a key, a header, and the lines below it. */
module ToonShapes {
  import opened Types
  import opened ToonText
  import opened ToonEncoder
  import opened ToonDecoder
  import opened ToonTokens

  // ---------------------------------------------------------------------------
  // What can be encoded without loss
  // ---------------------------------------------------------------------------

  ghost predicate UniqueKeys(fields: seq<Field>) {
    forall i, j | 0 <= i < j < |fields| :: fields[i].key != fields[j].key
  }

  /** An array header drops an empty key, and the key pattern lets a final line break
      through; nothing else is asked of keys. */
  predicate KeyFits(f: Field) {
    KeepsLine(f.key) && (f.value.JArr? ==> f.key != "")
  }

  /** The first field of a list item goes another way: only a table drops its key there. */
  predicate FirstKeyFits(f: Field) {
    KeepsLine(f.key) && (f.value.JArr? && Tabular(f.value.items) ==> f.key != "")
  }

  ghost predicate Encodable(v: Json)
    decreases v, 1
  {
    match v
    case JArr(items) => ItemsFine(items)
    case JObj(fields) => FieldsFine(fields)
    case _ => true
  }

  ghost predicate ItemFine(v: Json)
    decreases v, 1
  {
    match v
    case JArr(items) => ItemsFine(items)
    case JObj(fields) => ItemFieldsFine(fields)
    case _ => true
  }

  ghost predicate ItemsFine(items: seq<Json>)
    decreases items, 0
  {
    forall i | 0 <= i < |items| :: ItemFine(items[i])
  }

  ghost predicate FieldFine(f: Field)
    decreases f, 1
  {
    KeyFits(f) && Encodable(f.value)
  }

  ghost predicate FirstFine(f: Field)
    decreases f, 1
  {
    FirstKeyFits(f) && Encodable(f.value)
  }

  ghost predicate FieldsFine(fields: seq<Field>)
    decreases fields, 0
  {
    UniqueKeys(fields) && forall i | 0 <= i < |fields| :: FieldFine(fields[i])
  }

  ghost predicate ItemFieldsFine(fields: seq<Field>)
    decreases fields, 0
  {
    && UniqueKeys(fields)
    && (|fields| > 0 ==> FirstFine(fields[0]))
    && forall i | 0 < i < |fields| :: FieldFine(fields[i])
  }

  /** The fields after the first of a list item stand as in any object. */
  lemma OtherFieldsFine(fields: seq<Field>)
    requires ItemFieldsFine(fields) && |fields| > 0
    ensures FieldsFine(fields[1..])
  {
    assert forall i | 0 <= i < |fields[1..]| :: fields[1..][i] == fields[i + 1];
  }

  // ---------------------------------------------------------------------------
  // Arrays
  // ---------------------------------------------------------------------------

  predicate Tabular(items: seq<Json>) {
    |items| > 0 && AllObjects(items) && TabularHeader(items).Some?
  }

  function KeyPart(key: string): string {
    if key != "" then EncodeKey(key) else ""
  }

  /** From the bracket to the end of the header's line. */
  function ArrayTail(items: seq<Json>, delimiter: char): string {
    if |items| > 0 && AllPrimitive(items) then Bracket(|items|, None, delimiter) + (" " + JoinPrimitives(items, delimiter))
    else if Tabular(items) then Bracket(|items|, TabularHeader(items), delimiter)
    else Bracket(|items|, None, delimiter)
  }

  function Below(items: seq<Json>, delimiter: char, depth: nat): seq<Line> {
    if AllPrimitive(items) then []
    else if Tabular(items) then RowLines(items, TabularHeader(items).value, delimiter, depth)
    else ItemsLines(items, delimiter, depth)
  }

  lemma TabularIsNotPrimitive(items: seq<Json>)
    requires Tabular(items)
    ensures !AllPrimitive(items) && !AllArrays(items)
  {
    assert items[0].JObj?;
  }

  lemma {:induction false} ArraysOfPrimitivesAreItems(arrays: seq<Json>, delimiter: char, depth: nat)
    requires AllArrays(arrays) && forall i | 0 <= i < |arrays| :: AllPrimitive(arrays[i].items)
    ensures ArraysOfPrimitives(arrays, delimiter, depth) == ItemsLines(arrays, delimiter, depth)
    decreases |arrays|
  {
    if |arrays| > 0 {
      ArraysOfPrimitivesAreItems(arrays[1..], delimiter, depth);
    }
  }

  lemma Glue(a: string, b: string, c: string)
    ensures (a + b) + " " + c == a + (b + (" " + c))
  {
  }

  lemma InlineShape(items: seq<Json>, delimiter: char, key: string)
    requires AllPrimitive(items)
    ensures InlineArray(items, delimiter, key) == KeyPart(key) + ArrayTail(items, delimiter)
  {
    if |items| == 0 {
      assert !Tabular(items);
    } else {
      Glue(KeyPart(key), Bracket(|items|, None, delimiter), JoinPrimitives(items, delimiter));
    }
  }

  lemma ArraysAreNotPrimitive(items: seq<Json>)
    requires |items| > 0 && AllArrays(items)
    ensures !AllPrimitive(items) && !AllObjects(items)
  {
    assert items[0].JArr?;
  }

  /** Five branches of `_encode_array_lines`, one shape. */
  lemma ArrayShape(key: string, items: seq<Json>, delimiter: char, depth: nat)
    ensures ArrayLines(key, items, delimiter, depth)
            == [Line(depth, KeyPart(key) + ArrayTail(items, delimiter))] + Below(items, delimiter, depth + 1)
  {
    if |items| == 0 {
      assert !Tabular(items) && AllPrimitive(items);
    } else if AllPrimitive(items) {
      InlineShape(items, delimiter, key);
    } else if AllArrays(items) && forall i | 0 <= i < |items| :: AllPrimitive(items[i].items) {
      ArraysAreNotPrimitive(items);
      ArraysOfPrimitivesAreItems(items, delimiter, depth + 1);
    } else if Tabular(items) {
      TabularIsNotPrimitive(items);
    }
  }

  // ---------------------------------------------------------------------------
  // Objects in lists
  // ---------------------------------------------------------------------------

  /** The lines of a value one level in, its first line behind a list marker. */
  function Marked(lines: seq<Line>, depth: nat): seq<Line>
    requires |lines| > 0
  {
    [Line(depth, "- " + lines[0].content)] + lines[1..]
  }

  lemma NoKeyHeader(n: nat, delimiter: char)
    ensures FormatHeader(n, "", None, delimiter) == Bracket(n, None, delimiter)
  {
  }

  /** How the key of an array is printed on the marker's line. */
  function FirstKeyPart(key: string, items: seq<Json>): string {
    if Tabular(items) then KeyPart(key) else EncodeKey(key)
  }

  /** The first field of a list item, as if it stood one level in. */
  function FirstLines(f: Field, delimiter: char, depth: nat): seq<Line> {
    if f.value.JArr? then
      [Line(depth, FirstKeyPart(f.key, f.value.items) + ArrayTail(f.value.items, delimiter))]
      + Below(f.value.items, delimiter, depth + 1)
    else PairLines(f.key, f.value, delimiter, depth)
  }

  function ItemObjectLines(fields: seq<Field>, delimiter: char, depth: nat): seq<Line>
    requires |fields| > 0
  {
    FirstLines(fields[0], delimiter, depth) + ObjectLines(fields[1..], delimiter, depth)
  }

  lemma FirstArrayShape(key: string, items: seq<Json>, delimiter: char, depth: nat)
    ensures FirstPairLines(key, JArr(items), delimiter, depth)
            == [Line(depth, "- " + (FirstKeyPart(key, items) + ArrayTail(items, delimiter)))] + Below(items, delimiter, depth + 2)
  {
    NoKeyHeader(|items|, delimiter);
    if Tabular(items) {
      TabularIsNotPrimitive(items);
    } else if AllPrimitive(items) {
      InlineShape(items, delimiter, "");
      assert KeyPart("") + ArrayTail(items, delimiter) == ArrayTail(items, delimiter);
      assert |items| == 0 ==> !Tabular(items);
    }
  }

  lemma FirstPairShape(f: Field, delimiter: char, depth: nat)
    ensures var lines := FirstLines(f, delimiter, depth + 1);
            |lines| > 0 && FirstPairLines(f.key, f.value, delimiter, depth) == Marked(lines, depth)
  {
    if f.value.JArr? {
      FirstArrayShape(f.key, f.value.items, delimiter, depth);
    }
  }

  lemma DropFirst(a: seq<Line>, b: seq<Line>)
    requires |a| > 0
    ensures (a + b)[0] == a[0] && (a + b)[1..] == a[1..] + b
  {
  }

  lemma MarkedFirst(a: seq<Line>, b: seq<Line>, depth: nat)
    requires |a| > 0
    ensures |a + b| > 0 && Marked(a + b, depth) == Marked(a, depth) + b
  {
    DropFirst(a, b);
  }

  lemma ObjectItemShape(fields: seq<Field>, delimiter: char, depth: nat)
    requires |fields| > 0
    ensures var lines := ItemObjectLines(fields, delimiter, depth + 1);
            |lines| > 0 && ObjectItemLines(fields, delimiter, depth) == Marked(lines, depth)
  {
    FirstPairShape(fields[0], delimiter, depth);
    var first := FirstLines(fields[0], delimiter, depth + 1);
    var rest := ObjectLines(fields[1..], delimiter, depth + 1);
    MarkedFirst(first, rest, depth);
  }

  // ---------------------------------------------------------------------------
  // What comes back
  // ---------------------------------------------------------------------------

  /** Rows come back in the header's key order; everything else as it was. */
  function Canon(v: Json): Json
    decreases v, 1
  {
    match v
    case JArr(items) =>
      if Tabular(items) then JArr(CanonRows(items, TabularHeader(items).value)) else JArr(CanonItems(items))
    case JObj(fields) => JObj(CanonFields(fields))
    case _ => v
  }

  /** An array directly inside an array is never tabular. */
  function CanonItem(v: Json): Json
    decreases v, 1
  {
    match v
    case JArr(items) => JArr(CanonItems(items))
    case JObj(fields) => JObj(CanonFields(fields))
    case _ => v
  }

  function CanonItems(items: seq<Json>): seq<Json>
    decreases items, 0
  {
    if |items| == 0 then [] else [CanonItem(items[0])] + CanonItems(items[1..])
  }

  function CanonFields(fields: seq<Field>): seq<Field>
    decreases fields, 0
  {
    if |fields| == 0 then [] else [Field(fields[0].key, Canon(fields[0].value))] + CanonFields(fields[1..])
  }

  function CanonRows(rows: seq<Json>, header: seq<string>): seq<Json>
    requires RowsFit(rows, header)
  {
    if |rows| == 0 then [] else [JObj(Zip(header, RowValues(rows[0], header)))] + CanonRows(rows[1..], header)
  }
}
