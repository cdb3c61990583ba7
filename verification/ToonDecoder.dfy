/** A TOON reader written from the format (TOON specification v2.1.0): section 7 for
    strings and keys, section 8 for objects, section 9 for arrays, section 10 for objects as
    list items.  The repository only writes TOON; this is the other half, built to show that
    nothing is lost.  Numbers other than integers are refused. */
module ToonDecoder {
  import opened Decimal
  import opened Types
  import opened ToonText
  import opened ToonEncoder

  // ---------------------------------------------------------------------------
  // Tokens
  // ---------------------------------------------------------------------------

  datatype Parse<T> = Yes(value: T, rest: string) | No

  function Unescape(c: char): Option<char> {
    if c == '\\' then Some('\\')
    else if c == '\"' then Some('\"')
    else if c == 'n' then Some('\n')
    else if c == 'r' then Some('\r')
    else if c == 't' then Some('\t')
    else None
  }

  /** A string literal after its opening quote. */
  function ParseQuoted(s: string): (p: Parse<string>)
    ensures p.Yes? ==> |p.rest| < |s|
    decreases |s|
  {
    if s == "" then No
    else if s[0] == '\"' then Yes("", s[1..])
    else if s[0] == '\\' then
      if |s| < 2 || Unescape(s[1]).None? then No
      else
        var tail := ParseQuoted(s[2..]);
        if tail.No? then No else Yes([Unescape(s[1]).value] + tail.value, tail.rest)
    else
      var tail := ParseQuoted(s[1..]);
      if tail.No? then No else Yes([s[0]] + tail.value, tail.rest)
  }

  function KeyLength(s: string): (n: nat)
    ensures n <= |s|
  {
    if s != "" && IsKeyChar(s[0]) then 1 + KeyLength(s[1..]) else 0
  }

  function ParseKey(s: string): (p: Parse<string>)
    ensures p.Yes? ==> |p.rest| < |s|
  {
    if s == "" then No
    else if s[0] == '\"' then ParseQuoted(s[1..])
    else if IsKeyStart(s[0]) then
      assert KeyLength(s) > 0;
      Yes(s[..KeyLength(s)], s[KeyLength(s)..])
    else No
  }

  /** No leading zeros. */
  predicate IsNatLiteral(s: string) {
    AllDigits(s) && s != "" && (s[0] == '0' ==> s == "0")
  }

  function Classify(token: string): Option<Json> {
    var t := Strip(token);
    if t == "null" then Some(JNull)
    else if t == "true" then Some(JBool(true))
    else if t == "false" then Some(JBool(false))
    else if IsNatLiteral(t) then Some(JInt(ParseNat(t)))
    else if IsNatLiteral(AfterMinus(t)) then
      var n: int := ParseNat(AfterMinus(t));
      Some(JInt(-n))
    else if NumericLike(t) then None
    else Some(JStr(t))
  }

  function LengthTo(s: string, delimiter: char): (n: nat)
    ensures n <= |s|
  {
    if s == "" || s[0] == delimiter then 0 else 1 + LengthTo(s[1..], delimiter)
  }

  /** One value of a delimited row. */
  function ParseToken(s: string, delimiter: char): (p: Parse<Json>)
    ensures p.Yes? ==> |p.rest| <= |s|
  {
    if s != "" && s[0] == '\"' then
      var q := ParseQuoted(s[1..]);
      if q.No? then No else Yes(JStr(q.value), q.rest)
    else
      var n := LengthTo(s, delimiter);
      var v := Classify(s[..n]);
      if v.None? then No else Yes(v.value, s[n..])
  }

  function ParseRow(s: string, delimiter: char): Option<seq<Json>>
    decreases |s|
  {
    var p := ParseToken(s, delimiter);
    if p.No? then None
    else if p.rest == "" then Some([p.value])
    else if p.rest[0] != delimiter then None
    else
      var tail := ParseRow(p.rest[1..], delimiter);
      if tail.None? then None else Some([p.value] + tail.value)
  }

  /** A value that fills the rest of its line. */
  function ParseWhole(s: string): Option<Json> {
    if s != "" && s[0] == '\"' then
      var q := ParseQuoted(s[1..]);
      if q.Yes? && q.rest == "" then Some(JStr(q.value)) else None
    else Classify(s)
  }

  // ---------------------------------------------------------------------------
  // Headers
  // ---------------------------------------------------------------------------

  datatype Header = Header(length: nat, delimiter: char, fields: Option<seq<string>>)

  function ParseFields(s: string, delimiter: char): Parse<seq<string>>
    decreases |s|
  {
    var k := ParseKey(s);
    if k.No? || k.rest == "" then No
    else if k.rest[0] == '}' then Yes([k.value], k.rest[1..])
    else if k.rest[0] == delimiter then
      var tail := ParseFields(k.rest[1..], delimiter);
      if tail.No? then No else Yes([k.value] + tail.value, tail.rest)
    else No
  }

  /** What follows the digits: the delimiter, when it is not the comma. */
  function HeaderDelimiter(s: string): char {
    if s != "" && (s[0] == '\t' || s[0] == '|') then s[0] else ','
  }

  function AfterDelimiter(s: string): string {
    if HeaderDelimiter(s) == ',' then s else s[1..]
  }

  /** `[N]`, `[N]{...}` up to the colon. */
  function ParseBracket(s: string): Parse<Header> {
    if s == "" || s[0] != '[' || !StartsWithDigit(s[1..]) then No
    else
      var n := |s[1..]| - |AfterDigits(s[1..])|;
      var digits, after := s[1..][..n], s[1..][n..];
      var delimiter, tail := HeaderDelimiter(after), AfterDelimiter(after);
      if !AllDigits(digits) || tail == "" || tail[0] != ']' then No
      else
        var fields := tail[1..];
        if fields != "" && fields[0] == '{' then
          var f := ParseFields(fields[1..], delimiter);
          if f.No? || f.rest == "" || f.rest[0] != ':' then No
          else Yes(Header(ParseNat(digits), delimiter, Some(f.value)), f.rest[1..])
        else if fields != "" && fields[0] == ':' then Yes(Header(ParseNat(digits), delimiter, None), fields[1..])
        else No
  }

  // ---------------------------------------------------------------------------
  // Lines
  // ---------------------------------------------------------------------------

  datatype Parsed<T> = Parsed(value: T, rest: seq<Line>) | Failed

  /** The line starts with a key. */
  predicate IsPair(s: string) {
    var k := ParseKey(s);
    k.Yes? && k.rest != "" && (k.rest[0] == ':' || k.rest[0] == '[')
  }

  /** The fields of an object at one depth. */
  function DecodeFields(lines: seq<Line>, depth: nat): (p: Parsed<seq<Field>>)
    ensures p.Parsed? ==> |p.rest| <= |lines|
    ensures p.Parsed? && |lines| > 0 && lines[0].depth == depth ==> |p.rest| < |lines|
    decreases |lines|, 2
  {
    if |lines| == 0 || lines[0].depth != depth then Parsed([], lines)
    else
      var f := DecodeField(lines, depth);
      if f.Failed? then Failed
      else
        var tail := DecodeFields(f.rest, depth);
        if tail.Failed? then Failed else Parsed([f.value] + tail.value, tail.rest)
  }

  function DecodeField(lines: seq<Line>, depth: nat): (p: Parsed<Field>)
    ensures p.Parsed? ==> |p.rest| < |lines|
    decreases |lines|, 1
  {
    if |lines| == 0 then Failed
    else
      var k := ParseKey(lines[0].content);
      if k.No? || k.rest == "" then Failed
      else if k.rest[0] == '[' then
        var a := DecodeArray(k.rest, lines[1..], depth);
        if a.Failed? then Failed else Parsed(Field(k.value, a.value), a.rest)
      else if k.rest == ":" then
        var o := DecodeFields(lines[1..], depth + 1);
        if o.Failed? then Failed else Parsed(Field(k.value, JObj(o.value)), o.rest)
      else if |k.rest| >= 2 && k.rest[0] == ':' && k.rest[1] == ' ' then
        var v := ParseWhole(k.rest[2..]);
        if v.None? then Failed else Parsed(Field(k.value, v.value), lines[1..])
      else Failed
  }

  /** An array from its bracket on; `lines` are the ones below the header. */
  function DecodeArray(bracket: string, lines: seq<Line>, depth: nat): (p: Parsed<Json>)
    ensures p.Parsed? ==> |p.rest| <= |lines|
    decreases |lines|, 5
  {
    var h := ParseBracket(bracket);
    if h.No? then Failed
    else if h.rest != "" then
      var vs := ParseRow(h.rest[1..], h.value.delimiter);
      if h.rest[0] == ' ' && h.value.fields.None? && vs.Some? && |vs.value| == h.value.length
      then Parsed(JArr(vs.value), lines) else Failed
    else if h.value.fields.Some? then
      var rows := DecodeRows(lines, depth + 1, h.value.length, h.value.fields.value, h.value.delimiter);
      if rows.Failed? then Failed else Parsed(JArr(rows.value), rows.rest)
    else
      var items := DecodeItems(lines, depth + 1, h.value.length);
      if items.Failed? then Failed else Parsed(JArr(items.value), items.rest)
  }

  function Zip(keys: seq<string>, vs: seq<Json>): (fields: seq<Field>)
    requires |keys| == |vs|
    ensures |fields| == |keys| && forall i | 0 <= i < |keys| :: fields[i] == Field(keys[i], vs[i])
  {
    seq(|keys|, i requires 0 <= i < |keys| => Field(keys[i], vs[i]))
  }

  function DecodeRows(lines: seq<Line>, depth: nat, n: nat, keys: seq<string>, delimiter: char): (p: Parsed<seq<Json>>)
    ensures p.Parsed? ==> |p.rest| <= |lines|
    decreases |lines|, 0
  {
    if n == 0 then Parsed([], lines)
    else if |lines| == 0 || lines[0].depth != depth then Failed
    else
      var vs := ParseRow(lines[0].content, delimiter);
      if vs.None? || |vs.value| != |keys| then Failed
      else
        var tail := DecodeRows(lines[1..], depth, n - 1, keys, delimiter);
        if tail.Failed? then Failed else Parsed([JObj(Zip(keys, vs.value))] + tail.value, tail.rest)
  }

  function DecodeItems(lines: seq<Line>, depth: nat, n: nat): (p: Parsed<seq<Json>>)
    ensures p.Parsed? ==> |p.rest| <= |lines|
    decreases |lines|, 4
  {
    if n == 0 then Parsed([], lines)
    else if |lines| == 0 || lines[0].depth != depth then Failed
    else
      var v := DecodeItem(lines, depth);
      if v.Failed? then Failed
      else
        var tail := DecodeItems(v.rest, depth, n - 1);
        if tail.Failed? then Failed else Parsed([v.value] + tail.value, tail.rest)
  }

  /** One list item.  An object's first field is read as if it stood one level in. */
  function DecodeItem(lines: seq<Line>, depth: nat): (p: Parsed<Json>)
    ensures p.Parsed? ==> |p.rest| < |lines|
    decreases |lines|, 3
  {
    if |lines| == 0 then Failed
    else
      var c := lines[0].content;
      if c == "-" then Parsed(JObj([]), lines[1..])
      else if |c| < 2 || c[0] != '-' || c[1] != ' ' then Failed
      else if c[2..] != "" && c[2] == '[' then DecodeArray(c[2..], lines[1..], depth)
      else if IsPair(c[2..]) then
        var o := DecodeFields([Line(depth + 1, c[2..])] + lines[1..], depth + 1);
        if o.Failed? then Failed else Parsed(JObj(o.value), o.rest)
      else
        var v := ParseWhole(c[2..]);
        if v.None? then Failed else Parsed(v.value, lines[1..])
  }

  /** The first line tells what the root is; nothing may be left over. */
  function DecodeLines(lines: seq<Line>): Option<Json> {
    if |lines| == 0 then Some(JObj([]))
    else if lines[0].depth != 0 then None
    else if lines[0].content != "" && lines[0].content[0] == '[' then
      var a := DecodeArray(lines[0].content, lines[1..], 0);
      if a.Parsed? && a.rest == [] then Some(a.value) else None
    else if IsPair(lines[0].content) then
      var o := DecodeFields(lines, 0);
      if o.Parsed? && o.rest == [] then Some(JObj(o.value)) else None
    else if |lines| == 1 then ParseWhole(lines[0].content)
    else None
  }

  // ---------------------------------------------------------------------------
  // Text
  // ---------------------------------------------------------------------------

  function SplitLines(text: string): (parts: seq<string>)
    ensures |parts| > 0
    decreases |text|
  {
    var n := LengthTo(text, '\n');
    if n == |text| then [text] else [text[..n]] + SplitLines(text[n + 1..])
  }

  predicate StartsIndented(s: string, indent: nat) {
    |s| >= indent && s[..indent] == Spaces(indent)
  }

  /** Takes off one indentation unit at a time. */
  function ReadLine(s: string, indent: nat, depth: nat): Line
    requires indent > 0
    decreases |s|
  {
    if StartsIndented(s, indent) then ReadLine(s[indent..], indent, depth + 1) else Line(depth, s)
  }

  function ReadLines(parts: seq<string>, indent: nat): seq<Line>
    requires indent > 0
  {
    if |parts| == 0 then [] else [ReadLine(parts[0], indent, 0)] + ReadLines(parts[1..], indent)
  }

  function Decode(text: string, indent: nat): Option<Json>
    requires indent > 0
  {
    if text == "" then Some(JObj([])) else DecodeLines(ReadLines(SplitLines(text), indent))
  }
}
