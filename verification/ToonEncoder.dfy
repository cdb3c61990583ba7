/** The TOON line emitters (key folding off). */
module ToonEncoder {
  import opened Types
  import opened ToonText

  /** One output line before indentation. */
  datatype Line = Line(depth: nat, content: string)

  // ---------------------------------------------------------------------------
  // Value shapes
  // ---------------------------------------------------------------------------

  predicate AllArrays(vs: seq<Json>) {
    forall i | 0 <= i < |vs| :: vs[i].JArr?
  }

  predicate AllObjects(vs: seq<Json>) {
    forall i | 0 <= i < |vs| :: vs[i].JObj?
  }

  function Keys(fields: seq<Field>): (keys: seq<string>)
    ensures |keys| == |fields| && forall i | 0 <= i < |keys| :: keys[i] == fields[i].key
  {
    seq(|fields|, i requires 0 <= i < |fields| => fields[i].key)
  }

  /** Lookup in an object; the first match, of which a dict has at most one. */
  function Find(fields: seq<Field>, key: string): (v: Option<Json>)
    ensures v.Some? ==> exists i :: 0 <= i < |fields| && fields[i] == Field(key, v.value)
    ensures v.None? ==> forall i | 0 <= i < |fields| :: fields[i].key != key
  {
    if |fields| == 0 then None
    else if fields[0].key == key then
      assert fields[0] == Field(key, fields[0].value);
      Some(fields[0].value)
    else
      var v := Find(fields[1..], key);
      assert v.Some? ==> exists i :: 0 <= i < |fields[1..]| && fields[1..][i] == Field(key, v.value) && fields[i + 1] == fields[1..][i];
      v
  }

  predicate RowFits(row: Json, header: seq<string>) {
    && row.JObj? && |row.fields| == |header|
    && forall k | 0 <= k < |header| :: Find(row.fields, header[k]).Some? && IsPrimitive(Find(row.fields, header[k]).value)
  }

  predicate RowsFit(rows: seq<Json>, header: seq<string>) {
    forall i | 0 <= i < |rows| :: RowFits(rows[i], header)
  }

  /** The column names of a uniform array of flat objects, in the first object's order. */
  function TabularHeader(rows: seq<Json>): Option<seq<string>>
    requires AllObjects(rows)
  {
    if |rows| == 0 || |rows[0].fields| == 0 then None
    else if RowsFit(rows, Keys(rows[0].fields)) then Some(Keys(rows[0].fields))
    else None
  }

  function RowValues(row: Json, header: seq<string>): (vs: seq<Json>)
    requires RowFits(row, header)
    ensures |vs| == |header| && AllPrimitive(vs)
    ensures forall k | 0 <= k < |header| :: vs[k] == Find(row.fields, header[k]).value
  {
    seq(|header|, k requires 0 <= k < |header| => Find(row.fields, header[k]).value)
  }

  // ---------------------------------------------------------------------------
  // Emitters
  // ---------------------------------------------------------------------------

  function InlineArray(vs: seq<Json>, delimiter: char, key: string): string
    requires AllPrimitive(vs)
  {
    var header := FormatHeader(|vs|, key, None, delimiter);
    if |vs| == 0 then header else header + " " + JoinPrimitives(vs, delimiter)
  }

  function RowLines(rows: seq<Json>, header: seq<string>, delimiter: char, depth: nat): seq<Line>
    requires RowsFit(rows, header)
  {
    if |rows| == 0 then []
    else [Line(depth, JoinPrimitives(RowValues(rows[0], header), delimiter))] + RowLines(rows[1..], header, delimiter, depth)
  }

  function ObjectLines(fields: seq<Field>, delimiter: char, depth: nat): seq<Line>
    decreases fields
  {
    if |fields| == 0 then []
    else PairLines(fields[0].key, fields[0].value, delimiter, depth) + ObjectLines(fields[1..], delimiter, depth)
  }

  function PairLines(key: string, v: Json, delimiter: char, depth: nat): seq<Line>
    decreases v, 1
  {
    if IsPrimitive(v) then [Line(depth, EncodeKey(key) + ": " + EncodePrimitive(v, delimiter))]
    else if v.JArr? then ArrayLines(key, v.items, delimiter, depth)
    else [Line(depth, EncodeKey(key) + ":")] + ObjectLines(v.fields, delimiter, depth + 1)
  }

  /** `_encode_array_lines`; the key is empty for a root array. */
  function ArrayLines(key: string, items: seq<Json>, delimiter: char, depth: nat): seq<Line>
    decreases items, 1
  {
    if |items| == 0 then [Line(depth, FormatHeader(0, key, None, delimiter))]
    else if AllPrimitive(items) then [Line(depth, InlineArray(items, delimiter, key))]
    else if AllArrays(items) && forall i | 0 <= i < |items| :: AllPrimitive(items[i].items) then
      [Line(depth, FormatHeader(|items|, key, None, delimiter))] + ArraysOfPrimitives(items, delimiter, depth + 1)
    else if AllObjects(items) && TabularHeader(items).Some? then
      var header := TabularHeader(items).value;
      [Line(depth, FormatHeader(|items|, key, Some(header), delimiter))] + RowLines(items, header, delimiter, depth + 1)
    else
      [Line(depth, FormatHeader(|items|, key, None, delimiter))] + ItemsLines(items, delimiter, depth + 1)
  }

  function ArraysOfPrimitives(arrays: seq<Json>, delimiter: char, depth: nat): seq<Line>
    requires AllArrays(arrays) && forall i | 0 <= i < |arrays| :: AllPrimitive(arrays[i].items)
    decreases arrays, 0
  {
    if |arrays| == 0 then []
    else [Line(depth, "- " + InlineArray(arrays[0].items, delimiter, ""))]
         + ArraysOfPrimitives(arrays[1..], delimiter, depth)
  }

  function ItemsLines(items: seq<Json>, delimiter: char, depth: nat): seq<Line>
    decreases items, 0
  {
    if |items| == 0 then [] else ItemLines(items[0], delimiter, depth) + ItemsLines(items[1..], delimiter, depth)
  }

  /** `_encode_list_item_value_lines`. */
  function ItemLines(v: Json, delimiter: char, depth: nat): seq<Line>
    decreases v, 1
  {
    if IsPrimitive(v) then [Line(depth, "- " + EncodePrimitive(v, delimiter))]
    else if v.JArr? then
      if AllPrimitive(v.items) then [Line(depth, "- " + InlineArray(v.items, delimiter, ""))]
      else [Line(depth, "- " + FormatHeader(|v.items|, "", None, delimiter))] + ItemsLines(v.items, delimiter, depth + 1)
    else ObjectItemLines(v.fields, delimiter, depth)
  }

  /** `_encode_object_as_list_item_lines`: the first field shares the marker's line, the
      others follow one level in. */
  function ObjectItemLines(fields: seq<Field>, delimiter: char, depth: nat): seq<Line>
    decreases fields, 1
  {
    if |fields| == 0 then [Line(depth, "-")]
    else FirstPairLines(fields[0].key, fields[0].value, delimiter, depth) + ObjectLines(fields[1..], delimiter, depth + 1)
  }

  function FirstPairLines(key: string, v: Json, delimiter: char, depth: nat): seq<Line>
    decreases v, 1
  {
    if v.JArr? && AllObjects(v.items) && TabularHeader(v.items).Some? then
      var header := TabularHeader(v.items).value;
      [Line(depth, "- " + FormatHeader(|v.items|, key, Some(header), delimiter))]
      + RowLines(v.items, header, delimiter, depth + 2)
    else if IsPrimitive(v) then [Line(depth, "- " + (EncodeKey(key) + ": " + EncodePrimitive(v, delimiter)))]
    else if v.JArr? then
      if |v.items| == 0 then [Line(depth, "- " + (EncodeKey(key) + FormatHeader(0, "", None, delimiter)))]
      else if AllPrimitive(v.items) then [Line(depth, "- " + (EncodeKey(key) + InlineArray(v.items, delimiter, "")))]
      else [Line(depth, "- " + (EncodeKey(key) + FormatHeader(|v.items|, "", None, delimiter)))]
           + ItemsLines(v.items, delimiter, depth + 2)
    else [Line(depth, "- " + (EncodeKey(key) + ":"))] + ObjectLines(v.fields, delimiter, depth + 2)
  }

  function ValueLines(v: Json, delimiter: char): seq<Line> {
    if IsPrimitive(v) then [Line(0, EncodePrimitive(v, delimiter))]
    else if v.JArr? then ArrayLines("", v.items, delimiter, 0)
    else ObjectLines(v.fields, delimiter, 0)
  }

  // ---------------------------------------------------------------------------
  // The document
  // ---------------------------------------------------------------------------

  function Spaces(n: nat): (s: string)
    ensures |s| == n && forall i | 0 <= i < n :: s[i] == ' '
  {
    seq(n, i requires 0 <= i < n => ' ')
  }

  function Indented(line: Line, indent: nat): string {
    Spaces(indent * line.depth) + line.content
  }

  function JoinLines(lines: seq<Line>, indent: nat): string {
    if |lines| == 0 then ""
    else if |lines| == 1 then Indented(lines[0], indent)
    else Indented(lines[0], indent) + "\n" + JoinLines(lines[1..], indent)
  }

  function Encode(v: Json, delimiter: char, indent: nat): string {
    JoinLines(ValueLines(v, delimiter), indent)
  }
}
