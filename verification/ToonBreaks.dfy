/** A key with a raw line break spoils the document: the rest of its line lands at the left
    margin, starts with what can only follow a key, and no reader accepts it there. */
module ToonBreaks {
  import opened Decimal
  import opened Ordering
  import opened Types
  import opened ToonText
  import opened ToonEncoder
  import opened ToonDecoder
  import opened ToonTokens
  import opened ToonShapes
  import opened ToonRoundTrip
  import opened ToonLines
  import opened ToonDocument

  // ---------------------------------------------------------------------------
  // Breaks in text
  // ---------------------------------------------------------------------------

  predicate FollowsKey(c: char) {
    c == ':' || c == '[' || c == '}' || IsDelimiter(c)
  }

  predicate BreakAt(s: string, i: nat) {
    i + 1 < |s| && s[i] == '\n' && FollowsKey(s[i + 1])
  }

  ghost predicate Breaks(s: string) {
    exists i: nat :: BreakAt(s, i)
  }

  ghost predicate SomeBreak(lines: seq<Line>) {
    exists i: nat :: i < |lines| && Breaks(lines[i].content)
  }

  lemma BreaksLeft(a: string, b: string)
    requires Breaks(a)
    ensures Breaks(a + b)
  {
    var i: nat :| BreakAt(a, i);
    assert BreakAt(a + b, i);
  }

  lemma BreaksRight(a: string, b: string)
    requires Breaks(b)
    ensures Breaks(a + b)
  {
    var i: nat :| BreakAt(b, i);
    assert BreakAt(a + b, |a| + i);
  }

  lemma SomeBreakIn(a: seq<Line>, b: seq<Line>)
    requires SomeBreak(a) || SomeBreak(b)
    ensures SomeBreak(a + b)
  {
    if SomeBreak(a) {
      var i: nat :| i < |a| && Breaks(a[i].content);
      assert (a + b)[i] == a[i];
    } else {
      var i: nat :| i < |b| && Breaks(b[i].content);
      assert (a + b)[|a| + i] == b[i];
    }
  }

  lemma MarkedBreaks(lines: seq<Line>, depth: nat)
    requires |lines| > 0 && SomeBreak(lines)
    ensures SomeBreak(Marked(lines, depth))
  {
    var i: nat :| i < |lines| && Breaks(lines[i].content);
    if i == 0 {
      BreaksRight("- ", lines[0].content);
    }
    assert i > 0 ==> Marked(lines, depth)[i] == lines[i];
    assert Breaks(Marked(lines, depth)[i].content);
  }

  lemma {:induction false} TextBreaks(lines: seq<Line>, indent: nat)
    requires SomeBreak(lines)
    ensures Breaks(JoinLines(lines, indent))
    decreases |lines|
  {
    var i: nat :| i < |lines| && Breaks(lines[i].content);
    var first := Indented(lines[0], indent);
    if i == 0 {
      BreaksRight(Spaces(indent * lines[0].depth), lines[0].content);
      if |lines| > 1 {
        BreaksLeft(first, "\n");
        BreaksLeft(first + "\n", JoinLines(lines[1..], indent));
      }
    } else {
      assert lines[1..][i - 1] == lines[i];
      TextBreaks(lines[1..], indent);
      BreaksRight(first + "\n", JoinLines(lines[1..], indent));
    }
  }

  // ---------------------------------------------------------------------------
  // Keys that break
  // ---------------------------------------------------------------------------

  lemma KeyBreaks(key: string, rest: string)
    requires !KeepsLine(key) && rest != "" && FollowsKey(rest[0])
    ensures Breaks(EncodeKey(key) + rest) && key != ""
  {
    assert BreakAt(key + rest, |key| - 1);
  }

  lemma {:induction false} HeaderBreaks(keys: seq<string>, delimiter: char, k: nat, rest: string)
    requires k < |keys| && !KeepsLine(keys[k]) && IsDelimiter(delimiter)
    ensures Breaks(JoinKeys(keys, delimiter) + "}" + rest)
    decreases |keys|
  {
    var tail := if |keys| == 1 then "}" + rest else [delimiter] + (JoinKeys(keys[1..], delimiter) + "}" + rest);
    JoinKeysFirst(keys, delimiter, rest);
    if k == 0 {
      KeyBreaks(keys[0], tail);
    } else {
      assert keys[1..][k - 1] == keys[k];
      HeaderBreaks(keys[1..], delimiter, k - 1, rest);
      BreaksRight([delimiter], JoinKeys(keys[1..], delimiter) + "}" + rest);
      BreaksRight(EncodeKey(keys[0]), tail);
    }
  }

  lemma BracketBreaks(n: nat, keys: seq<string>, delimiter: char, k: nat)
    requires k < |keys| && !KeepsLine(keys[k]) && IsDelimiter(delimiter)
    ensures Breaks(Bracket(n, Some(keys), delimiter))
  {
    var digits, d, list := NatToString(n), DelimiterPart(delimiter), JoinKeys(keys, delimiter);
    HeaderBreaks(keys, delimiter, k, "");
    assert list + "}" + "" == list + "}";
    BreaksRight("{", list + "}");
    Regroup("{", list, "}");
    BreaksRight("[" + digits + d + "]", "{" + list + "}");
    BreaksLeft("[" + digits + d + "]" + ("{" + list + "}"), ":");
  }

  // ---------------------------------------------------------------------------
  // Values that break
  // ---------------------------------------------------------------------------

  /** No object repeats a key, as no dictionary can. */
  ghost predicate Proper(v: Json) {
    match v
    case JArr(items) => forall i | 0 <= i < |items| :: Proper(items[i])
    case JObj(fields) => UniqueKeys(fields) && forall i | 0 <= i < |fields| :: Proper(fields[i].value)
    case _ => true
  }

  lemma FoundAt(fields: seq<Field>, j: nat)
    requires UniqueKeys(fields) && j < |fields|
    ensures Find(fields, fields[j].key) == Some(fields[j].value)
  {
    var v := Find(fields, fields[j].key);
    var i :| 0 <= i < |fields| && fields[i] == Field(fields[j].key, v.value);
    assert i == j;
  }

  /** The keys of every row are the header's, so a key that breaks is printed there. */
  lemma RowBreaks(row: Json, header: seq<string>) returns (k: nat)
    requires RowFits(row, header) && UniqueKeys(row.fields) && Distinct(header) && !OneLine(row)
    ensures k < |header| && !KeepsLine(header[k])
  {
    var j :| 0 <= j < |row.fields| && !FieldOneLine(row.fields[j]);
    var f := row.fields[j];
    FoundAt(row.fields, j);
    SameKeySet(row.fields, header, f.key);
    k :| 0 <= k < |header| && header[k] == f.key;
    assert IsPrimitive(Find(row.fields, header[k]).value);
    assert OneLine(f.value);
  }

  lemma TableBreaks(items: seq<Json>, delimiter: char)
    requires Tabular(items) && Proper(JArr(items)) && !ItemsOneLine(items) && IsDelimiter(delimiter)
    ensures Breaks(ArrayTail(items, delimiter))
  {
    var header := TabularHeader(items).value;
    var i :| 0 <= i < |items| && !OneLine(items[i]);
    assert Proper(items[0]) && Proper(items[i]);
    KeysAreDistinct(items[0].fields);
    var k := RowBreaks(items[i], header);
    TabularIsNotPrimitive(items);
    BracketBreaks(|items|, header, delimiter, k);
  }

  lemma PrimitivesOnOneLine(items: seq<Json>)
    requires AllPrimitive(items)
    ensures ItemsOneLine(items)
  {
    forall i | 0 <= i < |items|
      ensures OneLine(items[i])
    {
      assert IsPrimitive(items[i]);
    }
  }

  lemma {:induction false} ArrayBreaks(items: seq<Json>, delimiter: char, depth: nat)
    requires Proper(JArr(items)) && !ItemsOneLine(items) && IsDelimiter(delimiter)
    ensures Breaks(ArrayTail(items, delimiter)) || SomeBreak(Below(items, delimiter, depth))
    decreases items, 1
  {
    if AllPrimitive(items) {
      PrimitivesOnOneLine(items);
    } else if Tabular(items) {
      TableBreaks(items, delimiter);
    } else {
      ItemsBreak(items, delimiter, depth);
    }
  }

  lemma {:induction false} ItemsBreak(items: seq<Json>, delimiter: char, depth: nat)
    requires (forall i | 0 <= i < |items| :: Proper(items[i])) && !ItemsOneLine(items) && IsDelimiter(delimiter)
    ensures SomeBreak(ItemsLines(items, delimiter, depth))
    decreases items, 0
  {
    var first, others := ItemLines(items[0], delimiter, depth), ItemsLines(items[1..], delimiter, depth);
    if OneLine(items[0]) {
      ItemsBreak(items[1..], delimiter, depth);
    } else {
      ItemBreaks(items[0], delimiter, depth);
    }
    SomeBreakIn(first, others);
  }

  lemma {:induction false} ItemBreaks(v: Json, delimiter: char, depth: nat)
    requires Proper(v) && !OneLine(v) && IsDelimiter(delimiter)
    ensures SomeBreak(ItemLines(v, delimiter, depth))
    decreases v, 1
  {
    if v.JArr? {
      if AllPrimitive(v.items) {
        PrimitivesOnOneLine(v.items);
      }
      ItemsBreak(v.items, delimiter, depth + 1);
      SomeBreakIn([Line(depth, "- " + FormatHeader(|v.items|, "", None, delimiter))], ItemsLines(v.items, delimiter, depth + 1));
    } else {
      var first, others := FirstLines(v.fields[0], delimiter, depth + 1), ObjectLines(v.fields[1..], delimiter, depth + 1);
      if FieldOneLine(v.fields[0]) {
        FieldsBreak(v.fields[1..], delimiter, depth + 1);
      } else {
        FirstBreaks(v.fields[0], delimiter, depth + 1);
      }
      SomeBreakIn(first, others);
      ObjectItemShape(v.fields, delimiter, depth);
      MarkedBreaks(first + others, depth);
    }
  }

  lemma {:induction false} FieldsBreak(fields: seq<Field>, delimiter: char, depth: nat)
    requires (forall i | 0 <= i < |fields| :: Proper(fields[i].value)) && !FieldsOneLine(fields) && IsDelimiter(delimiter)
    ensures SomeBreak(ObjectLines(fields, delimiter, depth))
    decreases fields, 0
  {
    var f := fields[0];
    if FieldOneLine(f) {
      FieldsBreak(fields[1..], delimiter, depth);
    } else {
      PairBreaks(f, delimiter, depth);
    }
    SomeBreakIn(PairLines(f.key, f.value, delimiter, depth), ObjectLines(fields[1..], delimiter, depth));
  }

  /** The line of an array's header, followed by its items. */
  lemma HeadedBreaks(line: Line, below: seq<Line>)
    requires Breaks(line.content) || SomeBreak(below)
    ensures SomeBreak([line] + below)
  {
    if Breaks(line.content) {
      assert [line][0] == line;
    }
    SomeBreakIn([line], below);
  }

  lemma {:induction false} KeyedArrayBreaks(key: string, part: string, items: seq<Json>, delimiter: char, depth: nat)
    requires part == EncodeKey(key) || (key == "" && part == "")
    requires Proper(JArr(items)) && IsDelimiter(delimiter) && !(KeepsLine(key) && ItemsOneLine(items))
    ensures SomeBreak([Line(depth, part + ArrayTail(items, delimiter))] + Below(items, delimiter, depth + 1))
    decreases items, 2
  {
    var tail := ArrayTail(items, delimiter);
    TailStarts(items, delimiter);
    if KeepsLine(key) {
      ArrayBreaks(items, delimiter, depth + 1);
      if Breaks(tail) {
        BreaksRight(part, tail);
      }
    } else {
      KeyBreaks(key, tail);
    }
    HeadedBreaks(Line(depth, part + tail), Below(items, delimiter, depth + 1));
  }

  lemma {:induction false} PairBreaks(f: Field, delimiter: char, depth: nat)
    requires Proper(f.value) && !FieldOneLine(f) && IsDelimiter(delimiter)
    ensures SomeBreak(PairLines(f.key, f.value, delimiter, depth))
    decreases f, 1
  {
    if IsPrimitive(f.value) {
      var tail := ": " + EncodePrimitive(f.value, delimiter);
      KeyBreaks(f.key, tail);
      assert EncodeKey(f.key) + ": " + EncodePrimitive(f.value, delimiter) == EncodeKey(f.key) + tail;
      assert Breaks(PairLines(f.key, f.value, delimiter, depth)[0].content);
    } else if f.value.JArr? {
      ArrayShape(f.key, f.value.items, delimiter, depth);
      KeyedArrayBreaks(f.key, KeyPart(f.key), f.value.items, delimiter, depth);
    } else {
      if KeepsLine(f.key) {
        FieldsBreak(f.value.fields, delimiter, depth + 1);
      } else {
        KeyBreaks(f.key, ":");
      }
      HeadedBreaks(Line(depth, EncodeKey(f.key) + ":"), ObjectLines(f.value.fields, delimiter, depth + 1));
    }
  }

  lemma {:induction false} FirstBreaks(f: Field, delimiter: char, depth: nat)
    requires Proper(f.value) && !FieldOneLine(f) && IsDelimiter(delimiter)
    ensures SomeBreak(FirstLines(f, delimiter, depth))
    decreases f, 2
  {
    if f.value.JArr? {
      KeyedArrayBreaks(f.key, FirstKeyPart(f.key, f.value.items), f.value.items, delimiter, depth);
    } else {
      PairBreaks(f, delimiter, depth);
    }
  }

  lemma ArrayLinesBreak(key: string, items: seq<Json>, delimiter: char, depth: nat)
    requires Proper(JArr(items)) && !ItemsOneLine(items) && IsDelimiter(delimiter)
    ensures SomeBreak(ArrayLines(key, items, delimiter, depth))
  {
    ArrayShape(key, items, delimiter, depth);
    KeyedArrayBreaks(key, KeyPart(key), items, delimiter, depth);
  }

  lemma ValueBreaks(v: Json, delimiter: char)
    requires Proper(v) && !OneLine(v) && IsDelimiter(delimiter)
    ensures SomeBreak(ValueLines(v, delimiter))
  {
    if v.JArr? {
      ArrayLinesBreak("", v.items, delimiter, 0);
    } else {
      FieldsBreak(v.fields, delimiter, 0);
    }
  }

  // ---------------------------------------------------------------------------
  // No reader takes a stray line
  // ---------------------------------------------------------------------------

  predicate Stray(line: Line) {
    line.depth == 0 && line.content != "" && FollowsKey(line.content[0])
  }

  /** `rest` is what is left of `lines` after a stretch without stray lines. */
  ghost predicate Taken(lines: seq<Line>, rest: seq<Line>) {
    && |rest| <= |lines| && rest == lines[|lines| - |rest|..]
    && forall i | 0 <= i < |lines| - |rest| :: !Stray(lines[i])
  }

  lemma TakenFirst(lines: seq<Line>, rest: seq<Line>)
    requires |lines| > 0 && !Stray(lines[0]) && Taken(lines[1..], rest)
    ensures Taken(lines, rest)
  {
    assert forall i | 0 < i < |lines| :: lines[i] == lines[1..][i - 1];
  }

  lemma TakenTwice(lines: seq<Line>, middle: seq<Line>, rest: seq<Line>)
    requires Taken(lines, middle) && Taken(middle, rest)
    ensures Taken(lines, rest)
  {
    var n := |lines| - |middle|;
    assert forall i | n <= i < |lines| :: lines[i] == middle[i - n];
  }

  ghost predicate Takes<T>(p: Parsed<T>, lines: seq<Line>) {
    p.Parsed? ==> Taken(lines, p.rest)
  }

  lemma TakesBoth<S, T>(p: Parsed<S>, q: Parsed<T>, lines: seq<Line>)
    requires p.Parsed? && Takes(p, lines) && Takes(q, p.rest)
    ensures Takes(q, lines)
  {
    if q.Parsed? {
      TakenTwice(lines, p.rest, q.rest);
    }
  }

  lemma KeyIsNotStray(line: Line)
    requires ParseKey(line.content).Yes?
    ensures !Stray(line)
  {
  }

  lemma {:induction false} FieldsTake(lines: seq<Line>, depth: nat)
    ensures Takes(DecodeFields(lines, depth), lines)
    decreases |lines|, 2
  {
    if |lines| > 0 && lines[0].depth == depth {
      var f := DecodeField(lines, depth);
      FieldTakes(lines, depth);
      if f.Parsed? {
        FieldsTake(f.rest, depth);
        TakesBoth(f, DecodeFields(f.rest, depth), lines);
      }
    }
  }

  lemma {:induction false} FieldTakes(lines: seq<Line>, depth: nat)
    ensures Takes(DecodeField(lines, depth), lines)
    decreases |lines|, 1
  {
    var p := DecodeField(lines, depth);
    if p.Parsed? {
      var k := ParseKey(lines[0].content);
      KeyIsNotStray(lines[0]);
      ArrayTakes(k.rest, lines[1..], depth);
      FieldsTake(lines[1..], depth + 1);
      TakenFirst(lines, p.rest);
    }
  }

  lemma {:induction false} ArrayTakes(bracket: string, lines: seq<Line>, depth: nat)
    ensures Takes(DecodeArray(bracket, lines, depth), lines)
    decreases |lines|, 5
  {
    var p, h := DecodeArray(bracket, lines, depth), ParseBracket(bracket);
    if p.Parsed? {
      if h.rest != "" {
        assert p.rest == lines;
      } else if h.value.fields.Some? {
        RowsTake(lines, depth + 1, h.value.length, h.value.fields.value, h.value.delimiter);
      } else {
        ItemsTake(lines, depth + 1, h.value.length);
      }
    }
  }

  lemma {:induction false} RowsTake(lines: seq<Line>, depth: nat, n: nat, keys: seq<string>, delimiter: char)
    requires depth > 0
    ensures Takes(DecodeRows(lines, depth, n, keys, delimiter), lines)
    decreases |lines|, 0
  {
    var p := DecodeRows(lines, depth, n, keys, delimiter);
    if n > 0 && p.Parsed? {
      RowsTake(lines[1..], depth, n - 1, keys, delimiter);
      TakenFirst(lines, p.rest);
    }
  }

  lemma {:induction false} ItemsTake(lines: seq<Line>, depth: nat, n: nat)
    requires depth > 0
    ensures Takes(DecodeItems(lines, depth, n), lines)
    decreases |lines|, 4
  {
    if n > 0 && |lines| > 0 && lines[0].depth == depth {
      var v := DecodeItem(lines, depth);
      ItemTakes(lines, depth);
      if v.Parsed? {
        ItemsTake(v.rest, depth, n - 1);
        TakesBoth(v, DecodeItems(v.rest, depth, n - 1), lines);
      }
    }
  }

  lemma {:induction false} ItemTakes(lines: seq<Line>, depth: nat)
    requires |lines| > 0 && lines[0].depth == depth > 0
    ensures Takes(DecodeItem(lines, depth), lines)
    decreases |lines|, 3
  {
    var p := DecodeItem(lines, depth);
    var c := lines[0].content;
    if p.Parsed? {
      if c != "-" {
        if c[2..] != "" && c[2] == '[' {
          ArrayTakes(c[2..], lines[1..], depth);
        } else if IsPair(c[2..]) {
          var inner := [Line(depth + 1, c[2..])] + lines[1..];
          FieldsTake(inner, depth + 1);
          FieldsMove(inner, depth + 1);
          assert inner[1..] == lines[1..];
          TakenRest(inner, p.rest);
        }
      }
      TakenFirst(lines, p.rest);
    }
  }

  lemma FieldsMove(lines: seq<Line>, depth: nat)
    requires |lines| > 0 && lines[0].depth == depth
    ensures var p := DecodeFields(lines, depth); p.Parsed? ==> |p.rest| < |lines|
  {
  }

  lemma TakenRest(lines: seq<Line>, rest: seq<Line>)
    requires Taken(lines, rest) && |rest| < |lines|
    ensures Taken(lines[1..], rest)
  {
    assert forall i | 0 < i < |lines| :: lines[i] == lines[1..][i - 1];
  }

  lemma StrayIsRefused(lines: seq<Line>, i: nat)
    requires 0 < i < |lines| && Stray(lines[i])
    ensures DecodeLines(lines) == None
  {
    assert lines[1..][i - 1] == lines[i];
    ArrayTakes(lines[0].content, lines[1..], 0);
    FieldsTake(lines, 0);
  }

  // ---------------------------------------------------------------------------
  // From the text to a stray line
  // ---------------------------------------------------------------------------

  lemma {:induction false} LengthToStops(s: string, c: char)
    ensures var n := LengthTo(s, c);
            (forall i | 0 <= i < n :: s[i] != c) && (n < |s| ==> s[n] == c)
    decreases |s|
  {
    if s != "" && s[0] != c {
      LengthToStops(s[1..], c);
    }
  }

  lemma {:induction false} StartsStray(text: string)
    requires text != "" && FollowsKey(text[0])
    ensures var first := SplitLines(text)[0]; first != "" && FollowsKey(first[0])
  {
    LengthToStops(text, '\n');
  }

  lemma {:induction false} SplitMore(text: string, n: nat, tail: string)
    requires n == LengthTo(text, '\n') < |text| && tail == text[n + 1..]
    ensures |SplitLines(text)| == |SplitLines(tail)| + 1 && SplitLines(text)[1..] == SplitLines(tail)
  {
  }

  lemma BreakBeyond(text: string, n: nat, b: nat)
    requires BreakAt(text, b) && n < b
    ensures BreakAt(text[n + 1..], b - n - 1)
  {
  }

  lemma {:induction false} SplitStray(text: string) returns (i: nat)
    requires Breaks(text)
    ensures var parts := SplitLines(text);
            0 < i < |parts| && parts[i] != "" && FollowsKey(parts[i][0])
    decreases |text|
  {
    var n, b: nat := LengthTo(text, '\n'), 0;
    LengthToStops(text, '\n');
    b :| BreakAt(text, b);
    var tail := text[n + 1..];
    SplitMore(text, n, tail);
    if b == n {
      StartsStray(tail);
      i := 1;
    } else {
      BreakBeyond(text, n, b);
      var j := SplitStray(tail);
      i := j + 1;
    }
  }

  lemma {:induction false} ReadAt(parts: seq<string>, indent: nat, i: nat)
    requires indent > 0 && i < |parts|
    ensures |ReadLines(parts, indent)| == |parts| && ReadLines(parts, indent)[i] == ReadLine(parts[i], indent, 0)
    decreases |parts|
  {
    if |parts| > 1 {
      ReadAt(parts[1..], indent, if i > 0 then i - 1 else 0);
    }
  }

  lemma AtTheMargin(s: string, indent: nat)
    requires indent > 0 && s != "" && FollowsKey(s[0])
    ensures ReadLine(s, indent, 0) == Line(0, s) && Stray(Line(0, s))
  {
    assert |s| >= indent ==> s[..indent][0] != Spaces(indent)[0];
  }

  /** One key that ends in a raw line break, anywhere, and nothing can be read back. */
  lemma BrokenKeyIsRefused(v: Json, delimiter: char, indent: nat)
    requires Proper(v) && !OneLine(v) && IsDelimiter(delimiter) && indent > 0
    ensures Decode(Encode(v, delimiter, indent), indent) == None
  {
    var text := Encode(v, delimiter, indent);
    ValueBreaks(v, delimiter);
    TextBreaks(ValueLines(v, delimiter), indent);
    var i := SplitStray(text);
    var parts := SplitLines(text);
    ReadAt(parts, indent, i);
    AtTheMargin(parts[i], indent);
    StrayIsRefused(ReadLines(parts, indent), i);
    assert text != "";
  }

  lemma BreakingKey(key: string)
    requires key == "a\n"
    ensures !KeepsLine(key)
  {
    assert key[..1] == "a" && IsKeyStart('a');
    assert key[1] == '\n' && !IsKeyChar(key[1]);
    assert IsBareKey(key) && !IsIdentifier(key);
  }

  /** An object a caller can build: its key is an identifier and a line break. */
  const BREAKING := JObj([Field("a\n", JNull)])

  lemma BreakingKeyIsRefused(delimiter: char, indent: nat)
    requires IsDelimiter(delimiter) && indent > 0
    ensures Proper(BREAKING) && !OneLine(BREAKING)
    ensures Decode(Encode(BREAKING, delimiter, indent), indent) == None
  {
    var f := BREAKING.fields[0];
    BreakingKey(f.key);
    assert !FieldOneLine(f);
    BrokenKeyIsRefused(BREAKING, delimiter, indent);
  }
}
