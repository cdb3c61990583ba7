/** TOON literals: escaping, quoting, primitives, keys and array headers. */
module ToonText {
  import opened Decimal
  import opened Types

  // ---------------------------------------------------------------------------
  // The data model
  // ---------------------------------------------------------------------------

  /** A normalised JSON value whose numbers are integers.  Objects keep insertion order. */
  datatype Json =
    | JNull
    | JBool(b: bool)
    | JInt(n: int)
    | JStr(s: string)
    | JArr(items: seq<Json>)
    | JObj(fields: seq<Field>)

  datatype Field = Field(key: string, value: Json)

  predicate IsPrimitive(v: Json) {
    v.JNull? || v.JBool? || v.JInt? || v.JStr?
  }

  /** The three delimiters; comma is the default and is not written in headers. */
  predicate IsDelimiter(c: char) {
    c == ',' || c == '\t' || c == '|'
  }

  // ---------------------------------------------------------------------------
  // Escaping
  // ---------------------------------------------------------------------------

  function EscapeChar(c: char): string {
    if c == '\\' then "\\\\"
    else if c == '\"' then "\\\""
    else if c == '\n' then "\\n"
    else if c == '\r' then "\\r"
    else if c == '\t' then "\\t"
    else [c]
  }

  /** The chained replacements act on each character once. */
  function Escape(s: string): string {
    if s == "" then "" else EscapeChar(s[0]) + Escape(s[1..])
  }

  function Quote(s: string): string {
    "\"" + Escape(s) + "\""
  }

  // ---------------------------------------------------------------------------
  // When a string may stand bare
  // ---------------------------------------------------------------------------

  /** The characters `String.prototype.trim` strips (section 22.1.3.32 of ECMA-262). */
  predicate IsSpace(c: char) {
    var n := c as int;
    n == 0x09 || n == 0x0A || n == 0x0B || n == 0x0C || n == 0x0D || n == 0x20 || n == 0xA0 || n == 0x1680
    || 0x2000 <= n <= 0x200A || n == 0x2028 || n == 0x2029 || n == 0x202F || n == 0x205F || n == 0x3000 || n == 0xFEFF
  }

  function StripLeft(s: string): string {
    if s != "" && IsSpace(s[0]) then StripLeft(s[1..]) else s
  }

  function StripRight(s: string): string {
    if s != "" && IsSpace(s[|s| - 1]) then StripRight(s[..|s| - 1]) else s
  }

  function Strip(s: string): string {
    StripRight(StripLeft(s))
  }

  /** What is left after the leading digits. */
  function AfterDigits(s: string): (t: string)
    ensures |t| <= |s|
  {
    if s != "" && IsDigit(s[0]) then AfterDigits(s[1..]) else s
  }

  predicate StartsWithDigit(s: string) {
    s != "" && IsDigit(s[0])
  }

  /** `$` also matches before one final line break. */
  predicate AtEnd(s: string) {
    s == "" || s == "\n"
  }

  function AfterExponentSign(s: string): string {
    if s != "" && (s[0] == '+' || s[0] == '-') then s[1..] else s
  }

  predicate OptionalExponent(s: string) {
    AtEnd(s)
    || (s != "" && (s[0] == 'e' || s[0] == 'E') && StartsWithDigit(AfterExponentSign(s[1..]))
        && AtEnd(AfterDigits(AfterExponentSign(s[1..]))))
  }

  predicate OptionalFraction(s: string) {
    OptionalExponent(s)
    || (s != "" && s[0] == '.' && StartsWithDigit(s[1..]) && OptionalExponent(AfterDigits(s[1..])))
  }

  function AfterMinus(s: string): string {
    if s != "" && s[0] == '-' then s[1..] else s
  }

  /** Optional minus, digits, optional fraction, optional exponent.  The separate
      leading-zero pattern of the source accepts nothing more. */
  predicate NumericLike(s: string) {
    StartsWithDigit(AfterMinus(s)) && OptionalFraction(AfterDigits(AfterMinus(s)))
  }

  predicate IsReserved(s: string) {
    s == "true" || s == "false" || s == "null"
  }

  predicate IsSpecial(c: char, delimiter: char) {
    c == ':' || c == '\"' || c == '\\' || c == '[' || c == ']' || c == '{' || c == '}'
    || c == '\n' || c == '\r' || c == '\t' || c == delimiter
  }

  predicate SafeUnquoted(s: string, delimiter: char) {
    && s != "" && s == Strip(s)
    && !IsReserved(s) && !NumericLike(s)
    && (forall i | 0 <= i < |s| :: !IsSpecial(s[i], delimiter))
    && s[0] != '-'
  }

  // ---------------------------------------------------------------------------
  // Primitives
  // ---------------------------------------------------------------------------

  function IntToString(n: int): string {
    if n < 0 then "-" + NatToString(-n) else NatToString(n)
  }

  function EncodeString(s: string, delimiter: char): string {
    if SafeUnquoted(s, delimiter) then s else Quote(s)
  }

  function EncodePrimitive(v: Json, delimiter: char): string
    requires IsPrimitive(v)
  {
    match v
    case JNull => "null"
    case JBool(b) => if b then "true" else "false"
    case JInt(n) => IntToString(n)
    case JStr(s) => EncodeString(s, delimiter)
  }

  predicate AllPrimitive(vs: seq<Json>) {
    forall i | 0 <= i < |vs| :: IsPrimitive(vs[i])
  }

  function JoinPrimitives(vs: seq<Json>, delimiter: char): string
    requires AllPrimitive(vs)
  {
    if |vs| == 0 then ""
    else if |vs| == 1 then EncodePrimitive(vs[0], delimiter)
    else EncodePrimitive(vs[0], delimiter) + [delimiter] + JoinPrimitives(vs[1..], delimiter)
  }

  // ---------------------------------------------------------------------------
  // Keys and headers
  // ---------------------------------------------------------------------------

  predicate IsKeyStart(c: char) {
    ('a' <= c <= 'z') || ('A' <= c <= 'Z') || c == '_'
  }

  predicate IsKeyChar(c: char) {
    IsKeyStart(c) || IsDigit(c) || c == '.'
  }

  predicate IsIdentifier(key: string) {
    key != "" && IsKeyStart(key[0]) && forall i | 0 <= i < |key| :: IsKeyChar(key[i])
  }

  /** The key pattern ends in `$` too, so one final line break slips through. */
  predicate IsBareKey(key: string) {
    IsIdentifier(key) || (|key| > 0 && key[|key| - 1] == '\n' && IsIdentifier(key[..|key| - 1]))
  }

  function EncodeKey(key: string): string {
    if IsBareKey(key) then key else Quote(key)
  }

  function JoinKeys(keys: seq<string>, delimiter: char): string {
    if |keys| == 0 then ""
    else if |keys| == 1 then EncodeKey(keys[0])
    else EncodeKey(keys[0]) + [delimiter] + JoinKeys(keys[1..], delimiter)
  }

  /** `_format_header`: an absent key and an empty one are both left out. */
  function FormatHeader(length: nat, key: string, fields: Option<seq<string>>, delimiter: char): string {
    (if key != "" then EncodeKey(key) else "") + Bracket(length, fields, delimiter)
  }

  /** The header from its opening bracket to its colon. */
  function Bracket(length: nat, fields: Option<seq<string>>, delimiter: char): string {
    "[" + NatToString(length) + (if delimiter != ',' then [delimiter] else "") + "]"
    + (if fields.Some? then "{" + JoinKeys(fields.value, delimiter) + "}" else "")
    + ":"
  }
}
