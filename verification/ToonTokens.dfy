/** Every token the encoder prints is read back as what it was. */
module ToonTokens {
  import opened Decimal
  import opened Types
  import opened ToonText
  import opened ToonEncoder
  import opened ToonDecoder

  // ---------------------------------------------------------------------------
  // Escaping
  // ---------------------------------------------------------------------------

  function ReplaceAll(s: string, c: char, sub: string): string {
    if s == "" then "" else (if s[0] == c then sub else [s[0]]) + ReplaceAll(s[1..], c, sub)
  }

  lemma {:induction false} ReplaceConcat(a: string, b: string, c: char, sub: string)
    ensures ReplaceAll(a + b, c, sub) == ReplaceAll(a, c, sub) + ReplaceAll(b, c, sub)
    decreases |a|
  {
    if a == "" {
      assert a + b == b;
    } else {
      assert (a + b)[1..] == a[1..] + b;
      ReplaceConcat(a[1..], b, c, sub);
    }
  }

  function Chain(s: string): string {
    ReplaceAll(ReplaceAll(ReplaceAll(ReplaceAll(ReplaceAll(s, '\\', "\\\\"), '\"', "\\\""), '\n', "\\n"), '\r', "\\r"), '\t', "\\t")
  }

  lemma ChainConcat(a: string, b: string)
    ensures Chain(a + b) == Chain(a) + Chain(b)
  {
    ReplaceConcat(a, b, '\\', "\\\\");
    var a1, b1 := ReplaceAll(a, '\\', "\\\\"), ReplaceAll(b, '\\', "\\\\");
    ReplaceConcat(a1, b1, '\"', "\\\"");
    var a2, b2 := ReplaceAll(a1, '\"', "\\\""), ReplaceAll(b1, '\"', "\\\"");
    ReplaceConcat(a2, b2, '\n', "\\n");
    var a3, b3 := ReplaceAll(a2, '\n', "\\n"), ReplaceAll(b2, '\n', "\\n");
    ReplaceConcat(a3, b3, '\r', "\\r");
    ReplaceConcat(ReplaceAll(a3, '\r', "\\r"), ReplaceAll(b3, '\r', "\\r"), '\t', "\\t");
  }

  lemma ReplaceOne(x: char, c: char, sub: string)
    ensures ReplaceAll([x], c, sub) == if x == c then sub else [x]
  {
    assert [x][1..] == "";
  }

  lemma ReplaceTwo(x: char, y: char, c: char, sub: string)
    requires x != c && y != c
    ensures ReplaceAll([x, y], c, sub) == [x, y]
  {
    assert [x, y] == [x] + [y];
    ReplaceConcat([x], [y], c, sub);
    ReplaceOne(x, c, sub);
    ReplaceOne(y, c, sub);
  }

  lemma ChainTail(x: char, y: char)
    requires x != '\n' && x != '\r' && x != '\t' && y != '\n' && y != '\r' && y != '\t'
    ensures ReplaceAll(ReplaceAll(ReplaceAll([x, y], '\n', "\\n"), '\r', "\\r"), '\t', "\\t") == [x, y]
  {
    ReplaceTwo(x, y, '\n', "\\n");
    ReplaceTwo(x, y, '\r', "\\r");
    ReplaceTwo(x, y, '\t', "\\t");
  }

  lemma ChainOne(x: char)
    ensures Chain([x]) == EscapeChar(x)
  {
    ReplaceOne(x, '\\', "\\\\");
    ReplaceOne(x, '\"', "\\\"");
    ReplaceOne(x, '\n', "\\n");
    ReplaceOne(x, '\r', "\\r");
    ReplaceOne(x, '\t', "\\t");
    if x == '\\' {
      ReplaceTwo('\\', '\\', '\"', "\\\"");
      ChainTail('\\', '\\');
    } else if x == '\"' {
      ChainTail('\\', '\"');
    } else if x == '\n' {
      ReplaceTwo('\\', 'n', '\r', "\\r");
      ReplaceTwo('\\', 'n', '\t', "\\t");
    } else if x == '\r' {
      ReplaceTwo('\\', 'r', '\t', "\\t");
    }
  }

  /** The five replacements, one after the other, escape every character once. */
  lemma {:induction false} EscapeIsTheChain(s: string)
    ensures Escape(s) == Chain(s)
    decreases |s|
  {
    if s != "" {
      EscapeIsTheChain(s[1..]);
      assert s == [s[0]] + s[1..];
      ChainConcat([s[0]], s[1..]);
      ChainOne(s[0]);
    }
  }

  lemma ParseEscapedChar(c: char, tail: string, value: string, rest: string)
    requires ParseQuoted(tail) == Yes(value, rest)
    ensures ParseQuoted(EscapeChar(c) + tail) == Yes([c] + value, rest)
  {
    var e := EscapeChar(c);
    if |e| == 2 {
      assert (e + tail)[2..] == tail;
      assert Unescape(e[1]) == Some(c);
    } else {
      assert (e + tail)[1..] == tail;
    }
  }

  lemma Regroup(a: string, b: string, c: string)
    ensures (a + b) + c == a + (b + c)
  {
  }

  lemma EscapeFirst(s: string, rest: string)
    requires s != ""
    ensures Escape(s) + "\"" + rest == EscapeChar(s[0]) + (Escape(s[1..]) + "\"" + rest)
  {
    var first, others := EscapeChar(s[0]), Escape(s[1..]);
    Regroup(first, others, "\"");
    Regroup(first, others + "\"", rest);
  }

  lemma {:induction false} QuotedBack(s: string, rest: string)
    ensures ParseQuoted(Escape(s) + "\"" + rest) == Yes(s, rest)
    decreases |s|
  {
    if s == "" {
      assert Escape(s) + "\"" + rest == "\"" + rest;
    } else {
      QuotedBack(s[1..], rest);
      EscapeFirst(s, rest);
      ParseEscapedChar(s[0], Escape(s[1..]) + "\"" + rest, s[1..], rest);
      assert [s[0]] + s[1..] == s;
    }
  }

  lemma QuoteBack(s: string, rest: string)
    ensures (Quote(s) + rest)[0] == '\"' && ParseQuoted((Quote(s) + rest)[1..]) == Yes(s, rest)
  {
    QuotedBack(s, rest);
    assert (Quote(s) + rest)[1..] == Escape(s) + "\"" + rest;
  }

  // ---------------------------------------------------------------------------
  // Keys
  // ---------------------------------------------------------------------------

  /** The pattern's blind spot: a line break after an identifier is printed raw. */
  predicate KeepsLine(key: string) {
    IsBareKey(key) ==> IsIdentifier(key)
  }

  lemma {:induction false} KeyLengthIs(key: string, rest: string)
    requires forall i | 0 <= i < |key| :: IsKeyChar(key[i])
    requires rest != "" ==> !IsKeyChar(rest[0])
    ensures KeyLength(key + rest) == |key|
    decreases |key|
  {
    if key == "" {
      assert key + rest == rest;
    } else {
      assert (key + rest)[1..] == key[1..] + rest;
      KeyLengthIs(key[1..], rest);
    }
  }

  lemma KeyBack(key: string, rest: string)
    requires KeepsLine(key) && (rest != "" ==> !IsKeyChar(rest[0]))
    ensures ParseKey(EncodeKey(key) + rest) == Yes(key, rest)
  {
    if IsBareKey(key) {
      KeyLengthIs(key, rest);
      assert (key + rest)[..|key|] == key && (key + rest)[|key|..] == rest;
    } else {
      QuoteBack(key, rest);
    }
  }

  // ---------------------------------------------------------------------------
  // Numbers
  // ---------------------------------------------------------------------------

  lemma {:induction false} AfterDigitsIs(digits: string, rest: string)
    requires AllDigits(digits) && !StartsWithDigit(rest)
    ensures AfterDigits(digits + rest) == rest
    decreases |digits|
  {
    if digits == "" {
      assert digits + rest == rest;
    } else {
      assert (digits + rest)[1..] == digits[1..] + rest;
      AfterDigitsIs(digits[1..], rest);
    }
  }

  lemma NatLiteralIsNumeric(s: string)
    requires IsNatLiteral(s)
    ensures NumericLike(s) && AfterMinus(s) == s
  {
    AfterDigitsIs(s, "");
    assert s + "" == s;
  }

  lemma PrintedIsLiteral(n: nat)
    ensures IsNatLiteral(NatToString(n)) && ParseNat(NatToString(n)) == n
  {
    ParsePrinted(n);
  }

  // ---------------------------------------------------------------------------
  // Primitives
  // ---------------------------------------------------------------------------

  lemma StripKeeps(s: string)
    requires s != "" && !IsSpace(s[0]) && !IsSpace(s[|s| - 1])
    ensures Strip(s) == s
  {
  }

  /** A bare token: it ends where the delimiter comes, and is read as `v`. */
  ghost predicate Bare(t: string, v: Json, delimiter: char) {
    && t != "" && t[0] != '\"' && t[0] != ' ' && (forall i | 0 <= i < |t| :: !IsSpecial(t[i], delimiter))
    && Classify(t) == Some(v)
  }

  lemma DigitsAreBare(t: string, delimiter: char)
    requires IsDelimiter(delimiter) && t != "" && forall i | 0 <= i < |t| :: t[i] == '-' || IsDigit(t[i])
    ensures t[0] != '\"' && t[0] != ' ' && Strip(t) == t && !IsReserved(t)
    ensures forall i | 0 <= i < |t| :: !IsSpecial(t[i], delimiter)
  {
    StripKeeps(t);
  }

  lemma NatIsBare(n: nat, delimiter: char)
    requires IsDelimiter(delimiter)
    ensures Bare(NatToString(n), JInt(n), delimiter)
  {
    PrintedIsLiteral(n);
    DigitsAreBare(NatToString(n), delimiter);
  }

  lemma NegativeIsBare(n: nat, delimiter: char)
    requires IsDelimiter(delimiter)
    ensures Bare("-" + NatToString(n), JInt(-(n as int)), delimiter)
  {
    var digits := NatToString(n);
    var t := "-" + digits;
    PrintedIsLiteral(n);
    DigitsAreBare(t, delimiter);
    assert t[0] == '-' && !IsDigit(t[0]) && AfterMinus(t) == digits;
  }

  lemma IntIsBare(n: int, delimiter: char)
    requires IsDelimiter(delimiter)
    ensures Bare(IntToString(n), JInt(n), delimiter)
  {
    if n < 0 {
      NegativeIsBare(-n, delimiter);
    } else {
      NatIsBare(n, delimiter);
    }
  }

  lemma {:induction false} StripRightEnd(s: string)
    ensures StripRight(s) != "" ==> !IsSpace(StripRight(s)[|StripRight(s)| - 1]) && StripRight(s)[0] == s[0]
    ensures |StripRight(s)| <= |s|
    decreases |s|
  {
    if s != "" && IsSpace(s[|s| - 1]) {
      StripRightEnd(s[..|s| - 1]);
    }
  }

  lemma {:induction false} StripLeftStart(s: string)
    ensures StripLeft(s) != "" ==> !IsSpace(StripLeft(s)[0])
    decreases |s|
  {
    if s != "" && IsSpace(s[0]) {
      StripLeftStart(s[1..]);
    }
  }

  lemma SafeIsBare(s: string, delimiter: char)
    requires SafeUnquoted(s, delimiter)
    ensures Bare(s, JStr(s), delimiter)
  {
    StripRightEnd(StripLeft(s));
    StripLeftStart(s);
    if IsNatLiteral(s) {
      NatLiteralIsNumeric(s);
    }
    assert AfterMinus(s) == s;
    assert !IsSpecial(s[0], delimiter);
  }

  lemma LiteralsAreBare(delimiter: char)
    requires IsDelimiter(delimiter)
    ensures Bare("null", JNull, delimiter) && Bare("true", JBool(true), delimiter) && Bare("false", JBool(false), delimiter)
  {
    StripKeeps("null");
    StripKeeps("true");
    StripKeeps("false");
  }

  /** A primitive is printed quoted, when it is a string, or bare. */
  lemma PrimitiveShape(v: Json, delimiter: char)
    requires IsPrimitive(v) && IsDelimiter(delimiter)
    ensures (v.JStr? && EncodePrimitive(v, delimiter) == Quote(v.s)) || Bare(EncodePrimitive(v, delimiter), v, delimiter)
  {
    match v {
      case JInt(n) => IntIsBare(n, delimiter);
      case JStr(s) =>
        if SafeUnquoted(s, delimiter) {
          SafeIsBare(s, delimiter);
        }
      case _ => LiteralsAreBare(delimiter);
    }
  }

  lemma {:induction false} LengthToIs(t: string, rest: string, delimiter: char)
    requires (forall i | 0 <= i < |t| :: t[i] != delimiter) && (rest != "" ==> rest[0] == delimiter)
    ensures LengthTo(t + rest, delimiter) == |t|
    decreases |t|
  {
    if t == "" {
      assert t + rest == rest;
    } else {
      assert (t + rest)[1..] == t[1..] + rest;
      LengthToIs(t[1..], rest, delimiter);
    }
  }

  lemma TokenBack(v: Json, delimiter: char, rest: string)
    requires IsPrimitive(v) && IsDelimiter(delimiter) && (rest != "" ==> rest[0] == delimiter)
    ensures ParseToken(EncodePrimitive(v, delimiter) + rest, delimiter) == Yes(v, rest)
  {
    var t := EncodePrimitive(v, delimiter);
    PrimitiveShape(v, delimiter);
    if v.JStr? && t == Quote(v.s) {
      QuoteBack(v.s, rest);
    } else {
      assert forall i | 0 <= i < |t| :: !IsSpecial(t[i], delimiter);
      LengthToIs(t, rest, delimiter);
      assert (t + rest)[..|t|] == t && (t + rest)[|t|..] == rest;
    }
  }

  lemma WholeBack(v: Json, delimiter: char)
    requires IsPrimitive(v) && IsDelimiter(delimiter)
    ensures ParseWhole(EncodePrimitive(v, delimiter)) == Some(v)
  {
    PrimitiveShape(v, delimiter);
    if v.JStr? && EncodePrimitive(v, delimiter) == Quote(v.s) {
      QuoteBack(v.s, "");
      assert Quote(v.s) + "" == Quote(v.s);
    }
  }

  lemma JoinFirst(vs: seq<Json>, delimiter: char)
    requires |vs| > 0 && AllPrimitive(vs)
    ensures JoinPrimitives(vs, delimiter)
            == EncodePrimitive(vs[0], delimiter) + (if |vs| == 1 then "" else [delimiter] + JoinPrimitives(vs[1..], delimiter))
  {
  }

  lemma LastToken(s: string, delimiter: char, v: Json)
    requires ParseToken(s, delimiter) == Yes(v, "")
    ensures ParseRow(s, delimiter) == Some([v])
  {
  }

  lemma MoreTokens(s: string, delimiter: char, v: Json, tail: string, vs: seq<Json>)
    requires ParseToken(s, delimiter) == Yes(v, [delimiter] + tail) && ParseRow(tail, delimiter) == Some(vs)
    ensures ParseRow(s, delimiter) == Some([v] + vs)
  {
    assert ([delimiter] + tail)[1..] == tail;
  }

  /** A delimited row is read back value by value. */
  lemma {:induction false} RowBack(vs: seq<Json>, delimiter: char)
    requires |vs| > 0 && AllPrimitive(vs) && IsDelimiter(delimiter)
    ensures ParseRow(JoinPrimitives(vs, delimiter), delimiter) == Some(vs)
    decreases |vs|
  {
    var s := JoinPrimitives(vs, delimiter);
    JoinFirst(vs, delimiter);
    if |vs| == 1 {
      TokenBack(vs[0], delimiter, "");
      LastToken(s, delimiter, vs[0]);
      assert vs == [vs[0]];
    } else {
      var tail := JoinPrimitives(vs[1..], delimiter);
      TokenBack(vs[0], delimiter, [delimiter] + tail);
      RowBack(vs[1..], delimiter);
      MoreTokens(s, delimiter, vs[0], tail, vs[1..]);
      assert vs == [vs[0]] + vs[1..];
    }
  }

  // ---------------------------------------------------------------------------
  // Headers
  // ---------------------------------------------------------------------------

  lemma JoinKeysFirst(keys: seq<string>, delimiter: char, rest: string)
    requires |keys| > 0
    ensures JoinKeys(keys, delimiter) + "}" + rest
            == EncodeKey(keys[0])
               + (if |keys| == 1 then "}" + rest else [delimiter] + (JoinKeys(keys[1..], delimiter) + "}" + rest))
  {
    var first := EncodeKey(keys[0]);
    if |keys| == 1 {
      Regroup(first, "}", rest);
    } else {
      var others := JoinKeys(keys[1..], delimiter);
      Regroup(first + [delimiter], others, "}");
      Regroup(first + [delimiter], others + "}", rest);
      Regroup(first, [delimiter], others + "}" + rest);
    }
  }

  lemma OneField(s: string, delimiter: char, key: string, rest: string)
    requires ParseKey(s) == Yes(key, "}" + rest)
    ensures ParseFields(s, delimiter) == Yes([key], rest)
  {
    assert ("}" + rest)[1..] == rest;
  }

  lemma MoreFields(s: string, delimiter: char, key: string, tail: string, keys: seq<string>, rest: string)
    requires delimiter != '}' && ParseKey(s) == Yes(key, [delimiter] + tail) && ParseFields(tail, delimiter) == Yes(keys, rest)
    ensures ParseFields(s, delimiter) == Yes([key] + keys, rest)
  {
    assert ([delimiter] + tail)[1..] == tail;
  }

  lemma LastField(keys: seq<string>, delimiter: char, rest: string)
    requires |keys| == 1 && KeepsLine(keys[0])
    ensures ParseFields(JoinKeys(keys, delimiter) + "}" + rest, delimiter) == Yes(keys, rest)
  {
    JoinKeysFirst(keys, delimiter, rest);
    KeyBack(keys[0], "}" + rest);
    OneField(JoinKeys(keys, delimiter) + "}" + rest, delimiter, keys[0], rest);
    assert keys == [keys[0]];
  }

  lemma FirstField(keys: seq<string>, delimiter: char, tail: string, rest: string)
    requires |keys| > 1 && IsDelimiter(delimiter) && KeepsLine(keys[0])
    requires tail == JoinKeys(keys[1..], delimiter) + "}" + rest && ParseFields(tail, delimiter) == Yes(keys[1..], rest)
    ensures ParseFields(JoinKeys(keys, delimiter) + "}" + rest, delimiter) == Yes(keys, rest)
  {
    JoinKeysFirst(keys, delimiter, rest);
    KeyBack(keys[0], [delimiter] + tail);
    MoreFields(JoinKeys(keys, delimiter) + "}" + rest, delimiter, keys[0], tail, keys[1..], rest);
    assert keys == [keys[0]] + keys[1..];
  }

  lemma {:induction false} FieldsBack(keys: seq<string>, delimiter: char, rest: string)
    requires |keys| > 0 && IsDelimiter(delimiter) && forall i | 0 <= i < |keys| :: KeepsLine(keys[i])
    ensures ParseFields(JoinKeys(keys, delimiter) + "}" + rest, delimiter) == Yes(keys, rest)
    decreases |keys|
  {
    if |keys| == 1 {
      LastField(keys, delimiter, rest);
    } else {
      FieldsBack(keys[1..], delimiter, rest);
      FirstField(keys, delimiter, JoinKeys(keys[1..], delimiter) + "}" + rest, rest);
    }
  }

  /** The part of a header after its closing bracket. */
  function FieldsPart(fields: Option<seq<string>>, delimiter: char): string {
    (if fields.Some? then "{" + JoinKeys(fields.value, delimiter) + "}" else "") + ":"
  }

  function DelimiterPart(delimiter: char): string {
    if delimiter != ',' then [delimiter] else ""
  }

  lemma BracketParts(n: nat, fields: Option<seq<string>>, delimiter: char, tail: string)
    ensures Bracket(n, fields, delimiter) + tail
            == "[" + (NatToString(n) + (DelimiterPart(delimiter) + ("]" + (FieldsPart(fields, delimiter) + tail))))
  {
    var digits, d, part := NatToString(n), DelimiterPart(delimiter), FieldsPart(fields, delimiter);
    var list := if fields.Some? then "{" + JoinKeys(fields.value, delimiter) + "}" else "";
    Regroup("[" + digits + d + "]", list, ":");
    Regroup("[" + digits + d + "]", part, tail);
    Regroup("[" + digits + d, "]", part + tail);
    Regroup("[" + digits, d, "]" + (part + tail));
    Regroup("[", digits, d + ("]" + (part + tail)));
  }

  lemma DelimiterBack(delimiter: char, rest: string)
    requires IsDelimiter(delimiter)
    ensures var s := DelimiterPart(delimiter) + ("]" + rest);
            HeaderDelimiter(s) == delimiter && AfterDelimiter(s) == "]" + rest && !StartsWithDigit(s)
  {
    var s := DelimiterPart(delimiter) + ("]" + rest);
    if delimiter != ',' {
      assert s[1..] == "]" + rest;
    } else {
      assert s == "]" + rest;
    }
  }

  lemma FieldsPartTail(keys: seq<string>, delimiter: char, tail: string)
    ensures var s := FieldsPart(Some(keys), delimiter) + tail;
            s[0] == '{' && s[1..] == JoinKeys(keys, delimiter) + "}" + (":" + tail)
  {
    var keyText := JoinKeys(keys, delimiter);
    assert FieldsPart(Some(keys), delimiter) + tail == "{" + (keyText + "}" + (":" + tail));
  }

  lemma FieldsPartBack(fields: Option<seq<string>>, delimiter: char, tail: string)
    requires IsDelimiter(delimiter)
    requires fields.Some? ==> |fields.value| > 0 && forall i | 0 <= i < |fields.value| :: KeepsLine(fields.value[i])
    ensures var s := FieldsPart(fields, delimiter) + tail;
            if fields.None? then s == ":" + tail
            else s[0] == '{' && ParseFields(s[1..], delimiter) == Yes(fields.value, ":" + tail)
  {
    if fields.Some? {
      FieldsBack(fields.value, delimiter, ":" + tail);
      FieldsPartTail(fields.value, delimiter, tail);
    }
  }

  lemma BracketDigits(s: string, digits: string, after: string)
    requires s == "[" + (digits + after) && AllDigits(digits) && digits != "" && !StartsWithDigit(after)
    ensures s[0] == '[' && StartsWithDigit(s[1..]) && AfterDigits(s[1..]) == after
    ensures |s[1..]| - |after| == |digits| && s[1..][..|digits|] == digits && s[1..][|digits|..] == after
  {
    assert s[1..] == digits + after;
    AfterDigitsIs(digits, after);
  }

  lemma BracketFrom(s: string, digits: string, after: string, delimiter: char, part: string,
                    fields: Option<seq<string>>, tail: string)
    requires s != "" && s[0] == '[' && StartsWithDigit(s[1..]) && AllDigits(digits)
    requires |s[1..]| - |AfterDigits(s[1..])| == |digits| && s[1..][..|digits|] == digits && s[1..][|digits|..] == after
    requires HeaderDelimiter(after) == delimiter && AfterDelimiter(after) == "]" + part
    requires if fields.None? then part == ":" + tail
             else part != "" && part[0] == '{' && ParseFields(part[1..], delimiter) == Yes(fields.value, ":" + tail)
    ensures ParseBracket(s) == Yes(Header(ParseNat(digits), delimiter, fields), tail)
  {
    assert ("]" + part)[1..] == part && (":" + tail)[1..] == tail;
  }

  lemma BracketBack(n: nat, fields: Option<seq<string>>, delimiter: char, tail: string)
    requires IsDelimiter(delimiter)
    requires fields.Some? ==> |fields.value| > 0 && forall i | 0 <= i < |fields.value| :: KeepsLine(fields.value[i])
    ensures ParseBracket(Bracket(n, fields, delimiter) + tail) == Yes(Header(n, delimiter, fields), tail)
  {
    var part := FieldsPart(fields, delimiter) + tail;
    BracketParts(n, fields, delimiter, tail);
    DelimiterBack(delimiter, part);
    PrintedIsLiteral(n);
    var s, after := Bracket(n, fields, delimiter) + tail, DelimiterPart(delimiter) + ("]" + part);
    BracketDigits(s, NatToString(n), after);
    FieldsPartBack(fields, delimiter, tail);
    BracketFrom(s, NatToString(n), after, delimiter, part, fields, tail);
  }
}
