/** Which of its forms the encoder picks, read off the characters of a string or a key and
    the shape of an array: what stands bare and what is quoted, and when an array is inline,
    tabular or a list. */
module ToonForms {
  import opened Decimal
  import opened Types
  import opened ToonText
  import opened ToonEncoder
  import opened ToonDecoder
  import opened ToonTokens
  import opened ToonShapes

  // ---------------------------------------------------------------------------
  // Numbers: -? digits (. digits)? ([eE] [+-]? digits)?
  // ---------------------------------------------------------------------------

  ghost predicate Whole(s: string) {
    s != "" && forall i | 0 <= i < |s| :: '0' <= s[i] <= '9'
  }

  ghost predicate FractionPart(s: string) {
    s == "" || (s[0] == '.' && Whole(s[1..]))
  }

  ghost predicate ExponentPart(s: string) {
    || s == ""
    || ((s[0] == 'e' || s[0] == 'E')
        && (Whole(s[1..]) || (|s| > 1 && (s[1] == '+' || s[1] == '-') && Whole(s[2..]))))
  }

  ghost predicate Tail(s: string, j: int) {
    0 <= j <= |s| && FractionPart(s[..j]) && ExponentPart(s[j..])
  }

  ghost predicate Unsigned(s: string, i: int) {
    0 <= i <= |s| && Whole(s[..i]) && exists j :: Tail(s[i..], j)
  }

  ghost predicate Number(s: string) {
    (exists i :: Unsigned(s, i)) || (s != "" && s[0] == '-' && exists i :: Unsigned(s[1..], i))
  }

  ghost predicate OneLine(s: string) {
    forall i | 0 <= i < |s| :: s[i] != '\n'
  }

  lemma {:induction false} DigitsFirst(s: string)
    ensures var n := |s| - |AfterDigits(s)|;
            AllDigits(s[..n]) && AfterDigits(s) == s[n..] && !StartsWithDigit(s[n..])
    decreases |s|
  {
    if StartsWithDigit(s) {
      DigitsFirst(s[1..]);
    }
  }

  lemma WholeIff(s: string)
    ensures Whole(s) <==> StartsWithDigit(s) && AfterDigits(s) == ""
  {
    if Whole(s) {
      AfterDigitsIs(s, "");
      assert s + "" == s;
    }
    DigitsFirst(s);
    assert s[..|s|] == s;
  }

  lemma BreakEndsLine()
    ensures !OneLine("\n")
  {
    assert "\n"[0] == '\n';
  }

  lemma OneLineFrom(s: string, n: nat)
    requires OneLine(s) && n <= |s|
    ensures OneLine(s[n..])
  {
  }

  lemma DigitsOnly(s: string)
    requires OneLine(s)
    ensures StartsWithDigit(s) && AtEnd(AfterDigits(s)) <==> Whole(s)
  {
    WholeIff(s);
    DigitsFirst(s);
    OneLineFrom(s, |s| - |AfterDigits(s)|);
    BreakEndsLine();
  }

  lemma ExponentIff(s: string)
    requires OneLine(s)
    ensures OptionalExponent(s) <==> ExponentPart(s)
  {
    BreakEndsLine();
    if s != "" && (s[0] == 'e' || s[0] == 'E') {
      if |s| > 1 && (s[1] == '+' || s[1] == '-') {
        assert AfterExponentSign(s[1..]) == s[2..] && s[1..][0] == s[1];
        DigitsOnly(s[2..]);
      } else {
        assert AfterExponentSign(s[1..]) == s[1..];
        DigitsOnly(s[1..]);
      }
    }
  }

  lemma NotDigit(s: string)
    requires ExponentPart(s)
    ensures !StartsWithDigit(s)
  {
  }

  lemma FractionIff(s: string)
    requires OneLine(s)
    ensures OptionalFraction(s) <==> exists j :: Tail(s, j)
  {
    ExponentIff(s);
    if OptionalExponent(s) {
      assert Tail(s, 0);
    } else if OptionalFraction(s) {
      DigitsFirst(s[1..]);
      var n := |s| - |AfterDigits(s[1..])|;
      OneLineFrom(s, n);
      ExponentIff(s[n..]);
      assert s[1..][..n - 1] == s[..n][1..] && s[1..][n - 1..] == s[n..];
      assert Tail(s, n);
    }
    if exists j :: Tail(s, j) {
      var j :| Tail(s, j);
      TailRead(s, j);
    }
  }

  lemma TailRead(s: string, j: int)
    requires OneLine(s) && Tail(s, j)
    ensures OptionalFraction(s)
  {
    if j == 0 {
      assert s[0..] == s;
      ExponentIff(s);
    } else {
      OneLineFrom(s, j);
      ExponentIff(s[j..]);
      NotDigit(s[j..]);
      assert s[1..] == s[..j][1..] + s[j..];
      AfterDigitsIs(s[..j][1..], s[j..]);
      assert s[1] == s[..j][1..][0];
    }
  }

  lemma UnsignedIff(s: string)
    requires OneLine(s)
    ensures StartsWithDigit(s) && OptionalFraction(AfterDigits(s)) <==> exists i :: Unsigned(s, i)
  {
    DigitsFirst(s);
    var n := |s| - |AfterDigits(s)|;
    OneLineFrom(s, n);
    FractionIff(s[n..]);
    if StartsWithDigit(s) && OptionalFraction(AfterDigits(s)) {
      assert n > 0;
      assert Unsigned(s, n);
    }
    if exists i :: Unsigned(s, i) {
      var i :| Unsigned(s, i);
      UnsignedRead(s, i);
    }
  }

  lemma UnsignedRead(s: string, i: int)
    requires OneLine(s) && Unsigned(s, i)
    ensures StartsWithDigit(s) && OptionalFraction(AfterDigits(s))
  {
    var j :| Tail(s[i..], j);
    OneLineFrom(s, i);
    TailRead(s[i..], j);
    assert !StartsWithDigit(s[i..]) by {
      if j == 0 {
        assert s[i..][0..] == s[i..];
        NotDigit(s[i..]);
      } else {
        assert s[i..][..j][0] == s[i];
      }
    }
    assert s == s[..i] + s[i..];
    AfterDigitsIs(s[..i], s[i..]);
    assert s[0] == s[..i][0];
  }

  /** The pattern `_is_numeric_like` matches on one line. */
  lemma NumericIff(s: string)
    requires OneLine(s)
    ensures NumericLike(s) <==> Number(s)
  {
    if s != "" && s[0] == '-' {
      OneLineFrom(s, 1);
      UnsignedIff(s[1..]);
      forall i
        ensures !Unsigned(s, i)
      {
        assert 0 < i <= |s| ==> s[..i][0] == '-';
      }
    } else {
      UnsignedIff(s);
    }
  }

  // ---------------------------------------------------------------------------
  // Strings and keys
  // ---------------------------------------------------------------------------

  /** White space and line terminators of ECMA-262. */
  ghost predicate Blank(c: char) {
    c as int in {9, 10, 11, 12, 13, 32, 160, 0x1680, 0x2028, 0x2029, 0x202F, 0x205F, 0x3000, 0xFEFF,
                 0x2000, 0x2001, 0x2002, 0x2003, 0x2004, 0x2005, 0x2006, 0x2007, 0x2008, 0x2009, 0x200A}
  }

  ghost predicate Plain(c: char, delimiter: char) {
    c !in {':', '\"', '\\', '[', ']', '{', '}', '\n', '\r', '\t', delimiter}
  }

  /** A string that is printed as it is. */
  ghost predicate StandsBare(s: string, delimiter: char) {
    && s != "" && !Blank(s[0]) && !Blank(s[|s| - 1])
    && s != "true" && s != "false" && s != "null" && !Number(s) && s[0] != '-'
    && forall i | 0 <= i < |s| :: Plain(s[i], delimiter)
  }

  lemma {:induction false} StripLeftShortens(s: string)
    ensures |StripLeft(s)| <= |s| && (s != "" && Blank(s[0]) ==> |StripLeft(s)| < |s|)
    decreases |s|
  {
    if s != "" && IsSpace(s[0]) {
      StripLeftShortens(s[1..]);
    }
  }

  lemma {:induction false} StripRightShortens(s: string)
    ensures |StripRight(s)| <= |s| && (s != "" && Blank(s[|s| - 1]) ==> |StripRight(s)| < |s|)
    decreases |s|
  {
    if s != "" && IsSpace(s[|s| - 1]) {
      StripRightShortens(s[..|s| - 1]);
    }
  }

  lemma StripIff(s: string)
    requires s != ""
    ensures s == Strip(s) <==> !Blank(s[0]) && !Blank(s[|s| - 1])
  {
    StripLeftShortens(s);
    StripRightShortens(StripLeft(s));
    if !Blank(s[0]) {
      assert StripLeft(s) == s;
    }
  }

  lemma SpecialIff(c: char, delimiter: char)
    ensures IsSpecial(c, delimiter) <==> !Plain(c, delimiter)
  {
  }

  lemma SafeIff(s: string, delimiter: char)
    ensures SafeUnquoted(s, delimiter) <==> StandsBare(s, delimiter)
  {
    if s != "" {
      StripIff(s);
      forall i | 0 <= i < |s|
        ensures IsSpecial(s[i], delimiter) <==> !Plain(s[i], delimiter)
      {
        SpecialIff(s[i], delimiter);
      }
      if OneLine(s) {
        NumericIff(s);
      } else {
        var i :| 0 <= i < |s| && s[i] == '\n';
        assert !Plain(s[i], delimiter) && IsSpecial(s[i], delimiter);
      }
    }
  }

  /** The text between quotes: five replacements, one after the other. */
  function Quoted(s: string): string {
    "\"" + Chain(s) + "\""
  }

  /** A string is printed as it is exactly when it may stand bare, and quoted otherwise. */
  lemma BareIff(s: string, delimiter: char)
    ensures EncodePrimitive(JStr(s), delimiter) == s <==> StandsBare(s, delimiter)
    ensures !StandsBare(s, delimiter) ==> EncodePrimitive(JStr(s), delimiter) == Quoted(s)
  {
    SafeIff(s, delimiter);
    EscapeIsTheChain(s);
    EscapeGrows(s);
  }

  lemma {:induction false} EscapeGrows(s: string)
    ensures |Escape(s)| >= |s|
    decreases |s|
  {
    if s != "" {
      EscapeGrows(s[1..]);
    }
  }

  /** A letter or underscore, then letters, digits, underscores and dots. */
  ghost predicate NameLike(s: string) {
    && s != "" && ('a' <= s[0] <= 'z' || 'A' <= s[0] <= 'Z' || s[0] == '_')
    && forall i | 0 < i < |s| ::
         'a' <= s[i] <= 'z' || 'A' <= s[i] <= 'Z' || '0' <= s[i] <= '9' || s[i] == '_' || s[i] == '.'
  }

  /** A key is printed as it is exactly when it looks like a name, one final line break
      aside, and quoted otherwise. */
  lemma KeyBareIff(key: string)
    ensures EncodeKey(key) == key <==> NameLike(key) || (key != "" && key[|key| - 1] == '\n' && NameLike(key[..|key| - 1]))
    ensures EncodeKey(key) == key || EncodeKey(key) == Quoted(key)
  {
    IdentifierIff(key);
    if key != "" {
      IdentifierIff(key[..|key| - 1]);
    }
    EscapeIsTheChain(key);
    EscapeGrows(key);
  }

  lemma IdentifierIff(key: string)
    ensures IsIdentifier(key) <==> NameLike(key)
  {
    if NameLike(key) {
      forall i | 0 <= i < |key|
        ensures IsKeyChar(key[i])
      {
      }
    }
    if IsIdentifier(key) {
      assert forall i | 0 < i < |key| :: IsKeyChar(key[i]);
    }
  }

  // ---------------------------------------------------------------------------
  // Arrays
  // ---------------------------------------------------------------------------

  /** `delimiter.join(texts)`. */
  function Separated(texts: seq<string>, delimiter: char): string {
    if |texts| == 0 then ""
    else if |texts| == 1 then texts[0]
    else Separated(texts[..|texts| - 1], delimiter) + [delimiter] + texts[|texts| - 1]
  }

  lemma {:induction false} SeparatedFirst(texts: seq<string>, delimiter: char)
    requires |texts| > 1
    ensures Separated(texts, delimiter) == texts[0] + [delimiter] + Separated(texts[1..], delimiter)
    decreases |texts|
  {
    var n := |texts| - 1;
    if n > 1 {
      SeparatedFirst(texts[..n], delimiter);
      assert texts[..n][1..] == texts[1..][..n - 1];
    }
  }

  ghost predicate Scalar(v: Json) {
    !v.JArr? && !v.JObj?
  }

  ghost predicate Scalars(vs: seq<Json>) {
    forall i | 0 <= i < |vs| :: Scalar(vs[i])
  }

  function Texts(vs: seq<Json>, delimiter: char): (texts: seq<string>)
    requires AllPrimitive(vs)
    ensures |texts| == |vs|
  {
    seq(|vs|, i requires 0 <= i < |vs| => EncodePrimitive(vs[i], delimiter))
  }

  lemma {:induction false} JoinedIs(vs: seq<Json>, delimiter: char)
    requires AllPrimitive(vs)
    ensures JoinPrimitives(vs, delimiter) == Separated(Texts(vs, delimiter), delimiter)
    decreases |vs|
  {
    if |vs| > 1 {
      JoinedIs(vs[1..], delimiter);
      SeparatedFirst(Texts(vs, delimiter), delimiter);
      assert Texts(vs, delimiter)[1..] == Texts(vs[1..], delimiter);
    }
  }

  function KeyTexts(keys: seq<string>): (texts: seq<string>)
    ensures |texts| == |keys|
  {
    seq(|keys|, i requires 0 <= i < |keys| => EncodeKey(keys[i]))
  }

  lemma KeyTextsTail(keys: seq<string>)
    requires |keys| > 0
    ensures KeyTexts(keys)[1..] == KeyTexts(keys[1..])
  {
  }

  lemma {:induction false} JoinedKeysIs(keys: seq<string>, delimiter: char)
    ensures JoinKeys(keys, delimiter) == Separated(KeyTexts(keys), delimiter)
    decreases |keys|
  {
    if |keys| > 1 {
      JoinedKeysIs(keys[1..], delimiter);
      SeparatedFirst(KeyTexts(keys), delimiter);
      KeyTextsTail(keys);
    }
  }

  /** The object's value under the key is `v`. */
  ghost predicate Cell(fields: seq<Field>, key: string, v: Json) {
    exists i :: 0 <= i < |fields| && fields[i] == Field(key, v) && forall j | 0 <= j < i :: fields[j].key != key
  }

  lemma {:induction false} FindIsCell(fields: seq<Field>, key: string)
    ensures forall v :: Find(fields, key) == Some(v) <==> Cell(fields, key, v)
    decreases |fields|
  {
    if |fields| > 0 {
      FindIsCell(fields[1..], key);
      forall v
        ensures Find(fields, key) == Some(v) <==> Cell(fields, key, v)
      {
        FindFirst(fields, key, v);
      }
    }
  }

  lemma FindFirst(fields: seq<Field>, key: string, v: Json)
    requires |fields| > 0
    requires Find(fields[1..], key) == Some(v) <==> Cell(fields[1..], key, v)
    ensures Find(fields, key) == Some(v) <==> Cell(fields, key, v)
  {
    if fields[0].key == key {
      if Cell(fields, key, v) {
        var i :| 0 <= i < |fields| && fields[i] == Field(key, v) && forall j | 0 <= j < i :: fields[j].key != key;
        assert i == 0;
      } else {
        assert fields[0] != Field(key, v);
      }
    } else {
      if Cell(fields, key, v) {
        var i :| 0 <= i < |fields| && fields[i] == Field(key, v) && forall j | 0 <= j < i :: fields[j].key != key;
        assert fields[1..][i - 1] == Field(key, v);
        assert forall j | 0 <= j < i - 1 :: fields[1..][j] == fields[j + 1];
      }
      if Cell(fields[1..], key, v) {
        var rest := fields[1..];
        var i :| 0 <= i < |rest| && rest[i] == Field(key, v) && forall j | 0 <= j < i :: rest[j].key != key;
        assert fields[i + 1] == Field(key, v);
        assert forall j | 0 < j < i + 1 :: fields[j] == rest[j - 1];
      }
    }
  }

  ghost predicate HasScalar(fields: seq<Field>, key: string) {
    exists v :: Cell(fields, key, v) && Scalar(v)
  }

  /** A flat object with a value for each of these keys and nothing else. */
  ghost predicate Flat(row: Json, first: seq<Field>) {
    && row.JObj? && |row.fields| == |first|
    && forall k | 0 <= k < |first| :: HasScalar(row.fields, first[k].key)
  }

  /** A non-empty array of flat objects over the keys of the first, of which there is one
      at least. */
  ghost predicate Uniform(items: seq<Json>) {
    && |items| > 0 && items[0].JObj? && |items[0].fields| > 0
    && forall i | 0 <= i < |items| :: Flat(items[i], items[0].fields)
  }

  lemma HasScalarIff(fields: seq<Field>, key: string)
    ensures Find(fields, key).Some? && IsPrimitive(Find(fields, key).value) <==> HasScalar(fields, key)
  {
    FindIsCell(fields, key);
    if Find(fields, key).Some? {
      assert Cell(fields, key, Find(fields, key).value);
    }
  }

  lemma FlatIff(row: Json, first: seq<Field>)
    ensures RowFits(row, Keys(first)) <==> Flat(row, first)
  {
    if row.JObj? {
      var keys := Keys(first);
      forall k | 0 <= k < |first|
        ensures Find(row.fields, keys[k]).Some? && IsPrimitive(Find(row.fields, keys[k]).value)
                <==> HasScalar(row.fields, first[k].key)
      {
        HasScalarIff(row.fields, keys[k]);
      }
    }
  }

  lemma UniformIff(items: seq<Json>)
    ensures Tabular(items) <==> Uniform(items)
  {
    assert Tabular(items) ==> items[0].JObj?;
    if |items| > 0 && items[0].JObj? {
      var first := items[0].fields;
      forall i | 0 <= i < |items|
        ensures RowFits(items[i], Keys(first)) <==> Flat(items[i], first)
      {
        FlatIff(items[i], first);
      }
      assert Uniform(items) <==> |first| > 0 && RowsFit(items, Keys(first)) && AllObjects(items);
    }
  }

  /** One value of each column, in column order. */
  ghost predicate IsRow(row: Json, first: seq<Field>, delimiter: char, content: string) {
    exists cells: seq<Json> | AllPrimitive(cells) ::
      && row.JObj? && |cells| == |first| && content == Separated(Texts(cells, delimiter), delimiter)
      && forall k | 0 <= k < |first| :: Cell(row.fields, first[k].key, cells[k])
  }

  lemma RowIs(row: Json, first: seq<Field>, delimiter: char)
    requires RowFits(row, Keys(first))
    ensures IsRow(row, first, delimiter, JoinPrimitives(RowValues(row, Keys(first)), delimiter))
  {
    var cells := RowValues(row, Keys(first));
    JoinedIs(cells, delimiter);
    forall k | 0 <= k < |first|
      ensures Cell(row.fields, first[k].key, cells[k])
    {
      FindIsCell(row.fields, first[k].key);
    }
  }

  lemma {:induction false} RowLinesAre(rows: seq<Json>, first: seq<Field>, delimiter: char, depth: nat)
    requires RowsFit(rows, Keys(first))
    ensures var lines := RowLines(rows, Keys(first), delimiter, depth);
            && |lines| == |rows|
            && forall i | 0 <= i < |rows| :: lines[i].depth == depth && IsRow(rows[i], first, delimiter, lines[i].content)
    decreases |rows|
  {
    if |rows| > 0 {
      var lines := RowLines(rows, Keys(first), delimiter, depth);
      RowIs(rows[0], first, delimiter);
      RowLinesAre(rows[1..], first, delimiter, depth);
      forall i | 0 <= i < |rows|
        ensures lines[i].depth == depth && IsRow(rows[i], first, delimiter, lines[i].content)
      {
        if i > 0 {
          assert lines[i] == lines[1..][i - 1] && rows[i] == rows[1..][i - 1];
        }
      }
    }
  }

  /** The count, and the delimiter when it is not the comma. */
  function Counted(n: nat, delimiter: char): string {
    "[" + NatToString(n) + (if delimiter == ',' then "" else [delimiter]) + "]"
  }

  /** The header's line from its bracket on. */
  ghost predicate HeaderForm(items: seq<Json>, delimiter: char, text: string) {
    var head := Counted(|items|, delimiter);
    if Scalars(items) then text == head + ":" + (if |items| == 0 then "" else " " + Separated(Texts(items, delimiter), delimiter))
    else if Uniform(items) then text == head + ("{" + Separated(KeyTexts(Keys(items[0].fields)), delimiter) + "}:")
    else text == head + ":"
  }

  /** The lines under the header. */
  ghost predicate LinesForm(items: seq<Json>, delimiter: char, depth: nat, lines: seq<Line>) {
    if Scalars(items) then lines == []
    else if Uniform(items) then
      && |lines| == |items|
      && forall i | 0 <= i < |items| :: lines[i].depth == depth && IsRow(items[i], items[0].fields, delimiter, lines[i].content)
    else lines == ItemsLines(items, delimiter, depth)
  }

  lemma ScalarsIff(items: seq<Json>)
    ensures AllPrimitive(items) <==> Scalars(items)
  {
    forall i | 0 <= i < |items|
      ensures IsPrimitive(items[i]) <==> Scalar(items[i])
    {
    }
  }

  lemma TableHeader(items: seq<Json>, delimiter: char)
    requires Tabular(items)
    ensures ArrayTail(items, delimiter)
            == Counted(|items|, delimiter) + ("{" + Separated(KeyTexts(Keys(items[0].fields)), delimiter) + "}:")
  {
    TabularIsNotPrimitive(items);
    var keys := Keys(items[0].fields);
    JoinedKeysIs(keys, delimiter);
    var text := "{" + JoinKeys(keys, delimiter) + "}";
    assert Counted(|items|, delimiter) + text + ":" == Counted(|items|, delimiter) + (text + ":");
  }

  lemma TailForm(items: seq<Json>, delimiter: char)
    ensures HeaderForm(items, delimiter, ArrayTail(items, delimiter))
  {
    UniformIff(items);
    ScalarsIff(items);
    if Scalars(items) {
      JoinedIs(items, delimiter);
    } else if Tabular(items) {
      TableHeader(items, delimiter);
    }
  }

  lemma TableRows(items: seq<Json>, delimiter: char, depth: nat)
    requires Tabular(items)
    ensures var lines := Below(items, delimiter, depth);
            && |lines| == |items|
            && forall i | 0 <= i < |items| :: lines[i].depth == depth && IsRow(items[i], items[0].fields, delimiter, lines[i].content)
  {
    TabularIsNotPrimitive(items);
    RowLinesAre(items, items[0].fields, delimiter, depth);
  }

  lemma BelowForm(items: seq<Json>, delimiter: char, depth: nat)
    ensures LinesForm(items, delimiter, depth, Below(items, delimiter, depth))
  {
    UniformIff(items);
    ScalarsIff(items);
    if Tabular(items) {
      TabularIsNotPrimitive(items);
      TableRows(items, delimiter, depth);
    }
  }

  /** An array is a header with its values after it, a header with one row for each item
      under it, or a header with a list under it: inline for scalars, tabular for uniform
      flat objects, a list otherwise. */
  lemma ArrayForm(key: string, items: seq<Json>, delimiter: char, depth: nat)
    ensures var lines := ArrayLines(key, items, delimiter, depth);
            && |lines| > 0 && lines[0].depth == depth
            && (exists text :: HeaderForm(items, delimiter, text)
                               && lines[0].content == (if key == "" then "" else EncodeKey(key)) + text)
            && LinesForm(items, delimiter, depth + 1, lines[1..])
  {
    ArrayShape(key, items, delimiter, depth);
    TailForm(items, delimiter);
    BelowForm(items, delimiter, depth + 1);
    assert ArrayLines(key, items, delimiter, depth)[1..] == Below(items, delimiter, depth + 1);
  }

  /** The same for an array that is the first field of a list item: the header shares the
      marker's line, and an empty key is left out only before a table. */
  lemma FirstArrayForm(key: string, items: seq<Json>, delimiter: char, depth: nat)
    ensures var lines := FirstPairLines(key, JArr(items), delimiter, depth);
            && |lines| > 0 && lines[0].depth == depth
            && (exists text :: HeaderForm(items, delimiter, text)
                               && lines[0].content == "- " + ((if key == "" && Uniform(items) then "" else EncodeKey(key)) + text))
            && LinesForm(items, delimiter, depth + 2, lines[1..])
  {
    FirstArrayShape(key, items, delimiter, depth);
    UniformIff(items);
    TailForm(items, delimiter);
    BelowForm(items, delimiter, depth + 2);
    assert FirstPairLines(key, JArr(items), delimiter, depth)[1..] == Below(items, delimiter, depth + 2);
  }
}
