/** Lines and text: no printed line breaks in two, so the lines can be found again. */
module ToonLines {
  import opened Decimal
  import opened Types
  import opened ToonText
  import opened ToonEncoder
  import opened ToonDecoder
  import opened ToonTokens
  import opened ToonShapes
  import opened ToonRoundTrip

  // ---------------------------------------------------------------------------
  // No content breaks a line or starts with a blank
  // ---------------------------------------------------------------------------

  predicate NoBreak(s: string) {
    forall i | 0 <= i < |s| :: s[i] != '\n'
  }

  predicate Clean(s: string) {
    s != "" && s[0] != ' ' && NoBreak(s)
  }

  ghost predicate AllClean(lines: seq<Line>) {
    forall i | 0 <= i < |lines| :: Clean(lines[i].content)
  }

  lemma {:induction false} EscapeNoBreak(s: string)
    ensures NoBreak(Escape(s))
    decreases |s|
  {
    if s != "" {
      EscapeNoBreak(s[1..]);
    }
  }

  lemma KeyClean(key: string)
    requires KeepsLine(key)
    ensures Clean(EncodeKey(key))
  {
    EscapeNoBreak(key);
  }

  lemma PrimitiveClean(v: Json, delimiter: char)
    requires IsPrimitive(v) && IsDelimiter(delimiter)
    ensures Clean(EncodePrimitive(v, delimiter))
  {
    var t := EncodePrimitive(v, delimiter);
    PrimitiveShape(v, delimiter);
    if v.JStr? && t == Quote(v.s) {
      EscapeNoBreak(v.s);
    } else {
      assert forall i | 0 <= i < |t| :: !IsSpecial(t[i], delimiter);
    }
  }

  lemma CleanAppend(a: string, b: string)
    requires Clean(a) && NoBreak(b)
    ensures Clean(a + b)
  {
  }

  lemma {:induction false} JoinClean(vs: seq<Json>, delimiter: char)
    requires |vs| > 0 && AllPrimitive(vs) && IsDelimiter(delimiter)
    ensures Clean(JoinPrimitives(vs, delimiter))
    decreases |vs|
  {
    PrimitiveClean(vs[0], delimiter);
    JoinFirst(vs, delimiter);
    if |vs| > 1 {
      JoinClean(vs[1..], delimiter);
      CleanAppend(EncodePrimitive(vs[0], delimiter), [delimiter] + JoinPrimitives(vs[1..], delimiter));
    } else {
      CleanAppend(EncodePrimitive(vs[0], delimiter), "");
    }
  }

  lemma {:induction false} JoinKeysNoBreak(keys: seq<string>, delimiter: char)
    requires IsDelimiter(delimiter) && forall i | 0 <= i < |keys| :: KeepsLine(keys[i])
    ensures NoBreak(JoinKeys(keys, delimiter))
    decreases |keys|
  {
    if |keys| > 0 {
      KeyClean(keys[0]);
      JoinKeysNoBreak(keys[1..], delimiter);
    }
  }

  lemma BracketClean(n: nat, fields: Option<seq<string>>, delimiter: char)
    requires IsDelimiter(delimiter)
    requires fields.Some? ==> forall i | 0 <= i < |fields.value| :: KeepsLine(fields.value[i])
    ensures Clean(Bracket(n, fields, delimiter))
  {
    if fields.Some? {
      JoinKeysNoBreak(fields.value, delimiter);
    }
    assert NoBreak(NatToString(n));
  }

  /** Every key stays on its line; the other condition, on empty keys, does not matter here. */
  ghost predicate OneLine(v: Json)
    decreases v, 1
  {
    match v
    case JArr(items) => ItemsOneLine(items)
    case JObj(fields) => FieldsOneLine(fields)
    case _ => true
  }

  ghost predicate ItemsOneLine(items: seq<Json>)
    decreases items, 0
  {
    forall i | 0 <= i < |items| :: OneLine(items[i])
  }

  ghost predicate FieldOneLine(f: Field)
    decreases f, 1
  {
    KeepsLine(f.key) && OneLine(f.value)
  }

  ghost predicate FieldsOneLine(fields: seq<Field>)
    decreases fields, 0
  {
    forall i | 0 <= i < |fields| :: FieldOneLine(fields[i])
  }

  lemma {:induction false} FineIsOneLine(v: Json)
    ensures Encodable(v) ==> OneLine(v)
    ensures ItemFine(v) ==> OneLine(v)
    decreases v, 1
  {
    if v.JArr? {
      ItemsFineIsOneLine(v.items);
    } else if v.JObj? {
      FieldsFineIsOneLine(v.fields);
    }
  }

  lemma {:induction false} ItemsFineIsOneLine(items: seq<Json>)
    ensures ItemsFine(items) ==> ItemsOneLine(items)
    decreases items, 0
  {
    forall i | 0 <= i < |items| {
      FineIsOneLine(items[i]);
    }
  }

  lemma {:induction false} FieldsFineIsOneLine(fields: seq<Field>)
    ensures FieldsFine(fields) || ItemFieldsFine(fields) ==> FieldsOneLine(fields)
    decreases fields, 0
  {
    forall i | 0 <= i < |fields|
      ensures FieldFine(fields[i]) || FirstFine(fields[i]) ==> FieldOneLine(fields[i])
    {
      assert fields[i] in fields;
      FineIsOneLine(fields[i].value);
    }
  }

  lemma HeaderOnOneLine(items: seq<Json>)
    requires Tabular(items) && ItemsOneLine(items)
    ensures var header := TabularHeader(items).value;
            |header| > 0 && RowsFit(items, header) && forall k | 0 <= k < |header| :: KeepsLine(header[k])
  {
    var header, fields := TabularHeader(items).value, items[0].fields;
    assert OneLine(items[0]) && FieldsOneLine(fields);
    forall k | 0 <= k < |header|
      ensures KeepsLine(header[k])
    {
      assert FieldOneLine(fields[k]);
    }
  }

  lemma TailClean(items: seq<Json>, delimiter: char)
    requires ItemsOneLine(items) && IsDelimiter(delimiter)
    ensures Clean(ArrayTail(items, delimiter))
  {
    BracketClean(|items|, None, delimiter);
    if |items| > 0 && AllPrimitive(items) {
      JoinClean(items, delimiter);
      CleanAppend(Bracket(|items|, None, delimiter), " " + JoinPrimitives(items, delimiter));
    } else if Tabular(items) {
      HeaderOnOneLine(items);
      BracketClean(|items|, TabularHeader(items), delimiter);
    }
  }

  lemma {:induction false} RowsClean(rows: seq<Json>, header: seq<string>, delimiter: char, depth: nat)
    requires RowsFit(rows, header) && |header| > 0 && IsDelimiter(delimiter)
    ensures AllClean(RowLines(rows, header, delimiter, depth))
    decreases |rows|
  {
    if |rows| > 0 {
      JoinClean(RowValues(rows[0], header), delimiter);
      RowsClean(rows[1..], header, delimiter, depth);
    }
  }

  lemma {:induction false} BelowClean(items: seq<Json>, delimiter: char, depth: nat)
    requires ItemsOneLine(items) && IsDelimiter(delimiter)
    ensures AllClean(Below(items, delimiter, depth))
    decreases items, 1
  {
    if AllPrimitive(items) {
    } else if Tabular(items) {
      HeaderOnOneLine(items);
      RowsClean(items, TabularHeader(items).value, delimiter, depth);
    } else {
      ItemsClean(items, delimiter, depth);
    }
  }

  lemma {:induction false} ItemsClean(items: seq<Json>, delimiter: char, depth: nat)
    requires ItemsOneLine(items) && IsDelimiter(delimiter)
    ensures AllClean(ItemsLines(items, delimiter, depth))
    decreases items, 0
  {
    if |items| > 0 {
      ItemClean(items[0], delimiter, depth);
      ItemsClean(items[1..], delimiter, depth);
    }
  }

  lemma MarkerClean(s: string)
    requires Clean(s)
    ensures Clean("- " + s)
  {
  }

  lemma {:induction false} ItemClean(v: Json, delimiter: char, depth: nat)
    requires OneLine(v) && IsDelimiter(delimiter)
    ensures AllClean(ItemLines(v, delimiter, depth))
    decreases v, 1
  {
    if IsPrimitive(v) {
      PrimitiveClean(v, delimiter);
      MarkerClean(EncodePrimitive(v, delimiter));
    } else if v.JArr? {
      if AllPrimitive(v.items) {
        InlineItemShape(v.items, delimiter, depth);
        TailClean(v.items, delimiter);
        MarkerClean(ArrayTail(v.items, delimiter));
      } else {
        NoKeyHeader(|v.items|, delimiter);
        BracketClean(|v.items|, None, delimiter);
        MarkerClean(Bracket(|v.items|, None, delimiter));
        ItemsClean(v.items, delimiter, depth + 1);
      }
    } else if |v.fields| > 0 {
      assert FieldOneLine(v.fields[0]);
      FirstClean(v.fields[0], delimiter, depth + 1);
      ObjectClean(v.fields[1..], delimiter, depth + 1);
      ObjectItemShape(v.fields, delimiter, depth);
      MarkerClean(ItemObjectLines(v.fields, delimiter, depth + 1)[0].content);
    } else {
      assert ItemLines(v, delimiter, depth) == [Line(depth, "-")];
    }
  }

  lemma KeyedClean(key: string, tail: string)
    requires KeepsLine(key) && Clean(tail)
    ensures Clean(KeyPart(key) + tail) && Clean(EncodeKey(key) + tail)
  {
    KeyClean(key);
    CleanAppend(EncodeKey(key), tail);
    NoKeyPart("", tail);
  }

  lemma {:induction false} PairClean(f: Field, delimiter: char, depth: nat)
    requires FieldOneLine(f) && IsDelimiter(delimiter)
    ensures AllClean(PairLines(f.key, f.value, delimiter, depth))
    decreases f, 1
  {
    KeyClean(f.key);
    if IsPrimitive(f.value) {
      PrimitiveClean(f.value, delimiter);
    } else if f.value.JArr? {
      ArrayShape(f.key, f.value.items, delimiter, depth);
      TailClean(f.value.items, delimiter);
      KeyedClean(f.key, ArrayTail(f.value.items, delimiter));
      BelowClean(f.value.items, delimiter, depth + 1);
    } else {
      ObjectClean(f.value.fields, delimiter, depth + 1);
    }
  }

  lemma {:induction false} FirstClean(f: Field, delimiter: char, depth: nat)
    requires FieldOneLine(f) && IsDelimiter(delimiter)
    ensures AllClean(FirstLines(f, delimiter, depth))
    decreases f, 2
  {
    if f.value.JArr? {
      TailClean(f.value.items, delimiter);
      KeyedClean(f.key, ArrayTail(f.value.items, delimiter));
      BelowClean(f.value.items, delimiter, depth + 1);
    } else {
      PairClean(f, delimiter, depth);
    }
  }

  lemma {:induction false} ObjectClean(fields: seq<Field>, delimiter: char, depth: nat)
    requires FieldsOneLine(fields) && IsDelimiter(delimiter)
    ensures AllClean(ObjectLines(fields, delimiter, depth))
    decreases fields, 0
  {
    if |fields| > 0 {
      assert FieldOneLine(fields[0]);
      PairClean(fields[0], delimiter, depth);
      ObjectClean(fields[1..], delimiter, depth);
    }
  }

  lemma ArrayClean(key: string, items: seq<Json>, delimiter: char, depth: nat)
    requires KeepsLine(key) && ItemsOneLine(items) && IsDelimiter(delimiter)
    ensures AllClean(ArrayLines(key, items, delimiter, depth))
  {
    ArrayShape(key, items, delimiter, depth);
    TailClean(items, delimiter);
    KeyedClean(key, ArrayTail(items, delimiter));
    BelowClean(items, delimiter, depth + 1);
  }

  lemma ValueClean(v: Json, delimiter: char)
    requires OneLine(v) && IsDelimiter(delimiter)
    ensures AllClean(ValueLines(v, delimiter))
  {
    if IsPrimitive(v) {
      PrimitiveClean(v, delimiter);
    } else if v.JArr? {
      ArrayClean("", v.items, delimiter, 0);
    } else {
      ObjectClean(v.fields, delimiter, 0);
    }
  }

  // ---------------------------------------------------------------------------
  // Lines and text
  // ---------------------------------------------------------------------------

  lemma MoreSpaces(indent: nat, depth: nat)
    requires depth > 0
    ensures Spaces(indent * depth) == Spaces(indent) + Spaces(indent * (depth - 1))
  {
    assert indent * depth == indent + indent * (depth - 1);
  }

  lemma {:induction false} LineBack(depth: nat, content: string, indent: nat, above: nat)
    requires Clean(content) && indent > 0
    ensures ReadLine(Spaces(indent * depth) + content, indent, above) == Line(above + depth, content)
    decreases depth
  {
    var s := Spaces(indent * depth) + content;
    if depth == 0 {
      assert s == content;
      assert |content| >= indent ==> content[..indent][0] != Spaces(indent)[0];
    } else {
      MoreSpaces(indent, depth);
      var rest := Spaces(indent * (depth - 1)) + content;
      assert s == Spaces(indent) + rest;
      assert s[..indent] == Spaces(indent) && s[indent..] == rest;
      LineBack(depth - 1, content, indent, above + 1);
    }
  }

  function IndentedAll(lines: seq<Line>, indent: nat): seq<string> {
    if |lines| == 0 then [] else [Indented(lines[0], indent)] + IndentedAll(lines[1..], indent)
  }

  lemma IndentedNoBreak(line: Line, indent: nat)
    requires Clean(line.content)
    ensures NoBreak(Indented(line, indent)) && Indented(line, indent) != ""
  {
  }

  lemma SplitFirst(t: string, rest: string)
    requires NoBreak(t)
    ensures SplitLines(t) == [t]
    ensures SplitLines(t + "\n" + rest) == [t] + SplitLines(rest)
  {
    LengthToIs(t, "", '\n');
    assert t + "" == t;
    LengthToIs(t, "\n" + rest, '\n');
    var s := t + "\n" + rest;
    assert s == t + ("\n" + rest) && s[..|t|] == t && s[|t| + 1..] == rest;
  }

  lemma {:induction false} SplitBack(lines: seq<Line>, indent: nat)
    requires |lines| > 0 && AllClean(lines)
    ensures SplitLines(JoinLines(lines, indent)) == IndentedAll(lines, indent)
    decreases |lines|
  {
    IndentedNoBreak(lines[0], indent);
    if |lines| == 1 {
      SplitFirst(Indented(lines[0], indent), "");
      assert IndentedAll(lines[1..], indent) == [];
    } else {
      SplitBack(lines[1..], indent);
      SplitFirst(Indented(lines[0], indent), JoinLines(lines[1..], indent));
    }
  }

  lemma {:induction false} ReadBack(lines: seq<Line>, indent: nat)
    requires AllClean(lines) && indent > 0
    ensures ReadLines(IndentedAll(lines, indent), indent) == lines
    decreases |lines|
  {
    if |lines| > 0 {
      var parts := IndentedAll(lines, indent);
      ReadBack(lines[1..], indent);
      LineBack(lines[0].depth, lines[0].content, indent, 0);
      assert parts[1..] == IndentedAll(lines[1..], indent);
      assert lines == [lines[0]] + lines[1..];
    }
  }

  lemma TextNotEmpty(lines: seq<Line>, indent: nat)
    requires |lines| > 0 && AllClean(lines)
    ensures JoinLines(lines, indent) != ""
  {
    IndentedNoBreak(lines[0], indent);
  }

  /** Decoding the text is decoding the lines. */
  lemma TextBack(lines: seq<Line>, indent: nat)
    requires AllClean(lines) && indent > 0
    ensures Decode(JoinLines(lines, indent), indent) == DecodeLines(lines)
  {
    if |lines| > 0 {
      TextNotEmpty(lines, indent);
      SplitBack(lines, indent);
      ReadBack(lines, indent);
    }
  }
}
