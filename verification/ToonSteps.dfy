/** One decoding step at a time: what each reader does with a line it understands. */
module ToonSteps {
  import opened Types
  import opened ToonText
  import opened ToonEncoder
  import opened ToonDecoder

  lemma ConsRest(line: Line, below: seq<Line>, rest: seq<Line>)
    ensures ([line] + below + rest)[0] == line && ([line] + below + rest)[1..] == below + rest
  {
  }

  lemma AppendRest(a: seq<Line>, b: seq<Line>, rest: seq<Line>)
    ensures (a + b) + rest == a + (b + rest)
  {
  }

  // ---------------------------------------------------------------------------
  // Fields
  // ---------------------------------------------------------------------------

  lemma FieldIsArray(lines: seq<Line>, depth: nat, key: string, bracket: string, v: Json, rest: seq<Line>)
    requires |lines| > 0 && ParseKey(lines[0].content) == Yes(key, bracket) && bracket != "" && bracket[0] == '['
    requires DecodeArray(bracket, lines[1..], depth) == Parsed(v, rest)
    ensures DecodeField(lines, depth) == Parsed(Field(key, v), rest)
  {
  }

  lemma FieldIsObject(lines: seq<Line>, depth: nat, key: string, fields: seq<Field>, rest: seq<Line>)
    requires |lines| > 0 && ParseKey(lines[0].content) == Yes(key, ":")
    requires DecodeFields(lines[1..], depth + 1) == Parsed(fields, rest)
    ensures DecodeField(lines, depth) == Parsed(Field(key, JObj(fields)), rest)
  {
  }

  lemma FieldIsPrimitive(lines: seq<Line>, depth: nat, key: string, text: string, v: Json)
    requires |lines| > 0 && ParseKey(lines[0].content) == Yes(key, ": " + text) && ParseWhole(text) == Some(v)
    ensures DecodeField(lines, depth) == Parsed(Field(key, v), lines[1..])
  {
    assert (": " + text)[2..] == text;
  }

  lemma FieldsGoOn(lines: seq<Line>, depth: nat, f: Field, middle: seq<Line>, fields: seq<Field>, rest: seq<Line>)
    requires |lines| > 0 && lines[0].depth == depth
    requires DecodeField(lines, depth) == Parsed(f, middle) && DecodeFields(middle, depth) == Parsed(fields, rest)
    ensures DecodeFields(lines, depth) == Parsed([f] + fields, rest)
  {
  }

  // ---------------------------------------------------------------------------
  // Arrays
  // ---------------------------------------------------------------------------

  lemma ArrayIsInline(bracket: string, lines: seq<Line>, depth: nat, n: nat, delimiter: char, text: string, vs: seq<Json>)
    requires ParseBracket(bracket) == Yes(Header(n, delimiter, None), " " + text)
    requires ParseRow(text, delimiter) == Some(vs) && |vs| == n
    ensures DecodeArray(bracket, lines, depth) == Parsed(JArr(vs), lines)
  {
    assert (" " + text)[1..] == text;
  }

  lemma ArrayIsTable(bracket: string, lines: seq<Line>, depth: nat, n: nat, delimiter: char, keys: seq<string>,
                     rows: seq<Json>, rest: seq<Line>)
    requires ParseBracket(bracket) == Yes(Header(n, delimiter, Some(keys)), "")
    requires DecodeRows(lines, depth + 1, n, keys, delimiter) == Parsed(rows, rest)
    ensures DecodeArray(bracket, lines, depth) == Parsed(JArr(rows), rest)
  {
  }

  lemma ArrayIsList(bracket: string, lines: seq<Line>, depth: nat, n: nat, delimiter: char, items: seq<Json>, rest: seq<Line>)
    requires ParseBracket(bracket) == Yes(Header(n, delimiter, None), "")
    requires DecodeItems(lines, depth + 1, n) == Parsed(items, rest)
    ensures DecodeArray(bracket, lines, depth) == Parsed(JArr(items), rest)
  {
  }

  lemma RowsGoOn(lines: seq<Line>, depth: nat, n: nat, keys: seq<string>, delimiter: char, vs: seq<Json>,
                 rows: seq<Json>, rest: seq<Line>)
    requires |lines| > 0 && lines[0].depth == depth && n > 0 && |vs| == |keys|
    requires ParseRow(lines[0].content, delimiter) == Some(vs)
    requires DecodeRows(lines[1..], depth, n - 1, keys, delimiter) == Parsed(rows, rest)
    ensures DecodeRows(lines, depth, n, keys, delimiter) == Parsed([JObj(Zip(keys, vs))] + rows, rest)
  {
  }

  // ---------------------------------------------------------------------------
  // List items
  // ---------------------------------------------------------------------------

  lemma ItemsGoOn(lines: seq<Line>, depth: nat, n: nat, v: Json, middle: seq<Line>, items: seq<Json>, rest: seq<Line>)
    requires |lines| > 0 && lines[0].depth == depth && n > 0
    requires DecodeItem(lines, depth) == Parsed(v, middle) && DecodeItems(middle, depth, n - 1) == Parsed(items, rest)
    ensures DecodeItems(lines, depth, n) == Parsed([v] + items, rest)
  {
  }

  lemma MarkedLine(text: string)
    ensures ("- " + text)[2..] == text && "- " + text != "-"
  {
  }

  lemma {:induction false} ItemIsArray(lines: seq<Line>, depth: nat, bracket: string)
    requires |lines| > 0 && lines[0].content == "- " + bracket && bracket != "" && bracket[0] == '['
    ensures DecodeItem(lines, depth) == DecodeArray(bracket, lines[1..], depth)
  {
    MarkedLine(bracket);
  }

  lemma ItemIsPrimitive(lines: seq<Line>, depth: nat, text: string, v: Json)
    requires |lines| > 0 && lines[0].content == "- " + text && text != "" && text[0] != '[' && !IsPair(text)
    requires ParseWhole(text) == Some(v)
    ensures DecodeItem(lines, depth) == Parsed(v, lines[1..])
  {
    MarkedLine(text);
  }

  lemma ItemIsObject(lines: seq<Line>, depth: nat, text: string, fields: seq<Field>, rest: seq<Line>)
    requires |lines| > 0 && lines[0].content == "- " + text && text != "" && text[0] != '[' && IsPair(text)
    requires DecodeFields([Line(depth + 1, text)] + lines[1..], depth + 1) == Parsed(fields, rest)
    ensures DecodeItem(lines, depth) == Parsed(JObj(fields), rest)
  {
    MarkedLine(text);
  }
}
