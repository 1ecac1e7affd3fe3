/**
 Values made of the JavaScript primitives, arrays and plain objects, the printer `JSON.stringify` on them, and a
 parser for the printed form. Objects that print otherwise than by their own keys are in `JsValues`.

 A number is kept as the token `JSON.stringify` prints for it, so a finite double is any token of
 number characters (Number::toString is injective on the finite doubles other than -0, which prints
 as 0). NaN and the infinities print as `null` and are one value here, `NonFinite`.
 */
module Json {
  import opened Options
  import opened Texts

  datatype Entry<V> = Entry(key: Text, value: V)

  datatype Value =
    | Undefined
    | Null
    | NonFinite
    | Bool(b: bool)
    | Num(token: Text)
    | Str(text: Text)
    | Arr(items: seq<Value>)
    | Obj(fields: seq<Entry<Value>>) // own enumerable keys in `Object.keys` order

  datatype Parsed<T> = Parsed(value: T, rest: Text)

  const QUOTE: CodeUnit := 0x22
  const COMMA: CodeUnit := 0x2C
  const COLON: CodeUnit := 0x3A
  const BACKSLASH: CodeUnit := 0x5C
  const OPEN_BRACKET: CodeUnit := 0x5B
  const CLOSE_BRACKET: CodeUnit := 0x5D
  const OPEN_BRACE: CodeUnit := 0x7B
  const CLOSE_BRACE: CodeUnit := 0x7D
  const NULL_TEXT: Text := [0x6E, 0x75, 0x6C, 0x6C]
  const TRUE_TEXT: Text := [0x74, 0x72, 0x75, 0x65]
  const FALSE_TEXT: Text := [0x66, 0x61, 0x6C, 0x73, 0x65]

  predicate IsNumberUnit(u: CodeUnit) {
    0x30 <= u <= 0x39 || u == 0x2B || u == 0x2D || u == 0x2E || u == 0x45 || u == 0x65
  }

  /** A number token starts with a digit or a minus sign. */
  predicate IsNumberToken(t: Text) {
    t != [] && (0x30 <= t[0] <= 0x39 || t[0] == 0x2D) && forall i :: 0 <= i < |t| ==> IsNumberUnit(t[i])
  }

  predicate UniqueKeys<V>(es: seq<Entry<V>>) {
    forall i, j :: 0 <= i < j < |es| ==> es[i].key != es[j].key
  }

  /** What such a value satisfies: number tokens are numbers and object keys are distinct. */
  predicate IsValue(v: Value) {
    match v
    case Num(t) => IsNumberToken(t)
    case Arr(items) => forall i :: 0 <= i < |items| ==> IsValue(items[i])
    case Obj(fields) => UniqueKeys(fields) && forall i :: 0 <= i < |fields| ==> IsValue(fields[i].value)
    case _ => true
  }

  /** A value that JSON can carry without loss: no `undefined`, NaN or infinity anywhere. */
  predicate IsPlain(v: Value) {
    match v
    case Undefined => false
    case NonFinite => false
    case Num(t) => IsNumberToken(t)
    case Arr(items) => forall i :: 0 <= i < |items| ==> IsPlain(items[i])
    case Obj(fields) => forall i :: 0 <= i < |fields| ==> IsPlain(fields[i].value)
    case _ => true
  }

  // ---------------------------------------------------------------- string literals

  predicate IsHighSurrogate(u: CodeUnit) { 0xD800 <= u <= 0xDBFF }
  predicate IsLowSurrogate(u: CodeUnit) { 0xDC00 <= u <= 0xDFFF }

  function HexDigit(n: CodeUnit): (d: CodeUnit)
    requires n < 16
    ensures 0x30 <= d <= 0x39 || 0x61 <= d <= 0x66
  {
    if n < 10 then 0x30 + n else 0x57 + n
  }

  const HEX_DIGITS: Text := Ascii("0123456789abcdef")

  lemma HexDigitSpelled(n: CodeUnit)
    requires n < 16
    ensures HexDigit(n) == HEX_DIGITS[n]
  {
    var d := HEX_DIGITS;
    assert d[0] == 0x30 && d[1] == 0x31 && d[2] == 0x32 && d[3] == 0x33 && d[4] == 0x34 && d[5] == 0x35 && d[6] == 0x36;
    assert d[7] == 0x37 && d[8] == 0x38 && d[9] == 0x39 && d[10] == 0x61 && d[11] == 0x62 && d[12] == 0x63;
    assert d[13] == 0x64 && d[14] == 0x65 && d[15] == 0x66;
  }

  function HexValue(u: CodeUnit): (n: Option<CodeUnit>)
    ensures n.Some? ==> n.value < 16
  {
    if 0x30 <= u <= 0x39 then Some(u - 0x30)
    else if 0x61 <= u <= 0x66 then Some(u - 0x57)
    else None
  }

  /** Backslash, `u` and four lower-case hexadecimal digits. */
  function UnicodeEscape(u: CodeUnit): Text {
    [BACKSLASH, 0x75, HexDigit(u / 4096), HexDigit(u / 256 % 16), HexDigit(u / 16 % 16), HexDigit(u % 16)]
  }

  function EscapeUnit(u: CodeUnit): Text {
    if u == QUOTE || u == BACKSLASH then [BACKSLASH, u]
    else if u == 0x08 then [BACKSLASH, 0x62]
    else if u == 0x09 then [BACKSLASH, 0x74]
    else if u == 0x0A then [BACKSLASH, 0x6E]
    else if u == 0x0C then [BACKSLASH, 0x66]
    else if u == 0x0D then [BACKSLASH, 0x72]
    else if u < 0x20 || IsHighSurrogate(u) || IsLowSurrogate(u) then UnicodeEscape(u)
    else [u]
  }

  /** A surrogate pair is copied; a lone surrogate is escaped. */
  function EscapeAll(s: Text): Text {
    if s == [] then []
    else if IsHighSurrogate(s[0]) && |s| > 1 && IsLowSurrogate(s[1]) then s[..2] + EscapeAll(s[2..])
    else EscapeUnit(s[0]) + EscapeAll(s[1..])
  }

  function Quote(s: Text): Text {
    [QUOTE] + EscapeAll(s) + [QUOTE]
  }

  function ReadHex(a: CodeUnit, b: CodeUnit, c: CodeUnit, d: CodeUnit): Option<CodeUnit> {
    match (HexValue(a), HexValue(b), HexValue(c), HexValue(d))
    case (Some(w), Some(x), Some(y), Some(z)) => Some(w * 4096 + x * 256 + y * 16 + z)
    case _ => None
  }

  function ReadShortEscape(u: CodeUnit): Option<CodeUnit> {
    if u == QUOTE || u == BACKSLASH || u == 0x2F then Some(u)
    else if u == 0x62 then Some(0x08)
    else if u == 0x74 then Some(0x09)
    else if u == 0x6E then Some(0x0A)
    else if u == 0x66 then Some(0x0C)
    else if u == 0x72 then Some(0x0D)
    else None
  }

  /** Reads one possibly escaped code unit. */
  function ReadUnit(t: Text): (r: Option<Parsed<CodeUnit>>)
    ensures r.Some? ==> |r.value.rest| < |t|
  {
    if t == [] then None
    else if t[0] != BACKSLASH then Some(Parsed(t[0], t[1..]))
    else if |t| < 2 then None
    else if t[1] != 0x75 then
      (match ReadShortEscape(t[1])
       case None => None
       case Some(u) => Some(Parsed(u, t[2..])))
    else if |t| < 6 then None
    else
      match ReadHex(t[2], t[3], t[4], t[5])
      case None => None
      case Some(u) => Some(Parsed(u, t[6..]))
  }

  /** Reads a string literal whose opening quote has been consumed. */
  function ReadString(t: Text): (r: Option<Parsed<Text>>)
    ensures r.Some? ==> |r.value.rest| < |t|
    decreases |t|
  {
    if t == [] then None
    else if t[0] == QUOTE then Some(Parsed([], t[1..]))
    else
      match ReadUnit(t)
      case None => None
      case Some(Parsed(u, rest)) =>
        match ReadString(rest)
        case None => None
        case Some(Parsed(s, rest')) => Some(Parsed([u] + s, rest'))
  }

  lemma HexRoundTrip(n: CodeUnit)
    requires n < 16
    ensures HexValue(HexDigit(n)) == Some(n)
  {
  }

  lemma HexDigitsOf(u: CodeUnit)
    ensures u / 4096 < 16
    ensures u == u / 4096 * 4096 + u / 256 % 16 * 256 + u / 16 % 16 * 16 + u % 16
  {
    assert u / 16 == u / 16 / 16 * 16 + u / 16 % 16;
    assert u / 256 == u / 256 / 16 * 16 + u / 256 % 16;
    assert u / 16 / 16 == u / 256 && u / 256 / 16 == u / 4096;
  }

  lemma ReadHexDigits(a: CodeUnit, b: CodeUnit, c: CodeUnit, d: CodeUnit)
    requires a < 16 && b < 16 && c < 16 && d < 16
    ensures ReadHex(HexDigit(a), HexDigit(b), HexDigit(c), HexDigit(d)) == Some(a * 4096 + b * 256 + c * 16 + d)
  {
    HexRoundTrip(a);
    HexRoundTrip(b);
    HexRoundTrip(c);
    HexRoundTrip(d);
  }

  lemma ReadUnicodeEscape(u: CodeUnit, rest: Text)
    ensures ReadUnit(UnicodeEscape(u) + rest) == Some(Parsed(u, rest))
  {
    HexDigitsOf(u);
    ReadHexDigits(u / 4096, u / 256 % 16, u / 16 % 16, u % 16);
    var e := UnicodeEscape(u);
    var t := e + rest;
    assert t[0] == e[0] && t[1] == e[1] && t[2] == e[2] && t[3] == e[3] && t[4] == e[4] && t[5] == e[5];
    assert t[6..] == rest;
  }

  lemma ReadUnitEscape(u: CodeUnit, rest: Text)
    ensures ReadUnit(EscapeUnit(u) + rest) == Some(Parsed(u, rest))
    ensures EscapeUnit(u) != [] && EscapeUnit(u)[0] != QUOTE
  {
    var e := EscapeUnit(u);
    if e == UnicodeEscape(u) {
      ReadUnicodeEscape(u, rest);
    } else {
      assert |e| <= 2 && (e + rest)[|e|..] == rest;
    }
  }

  lemma ReadStringStep(t: Text, u: CodeUnit, tail: Text, s: Text, rest: Text)
    requires t != [] && t[0] != QUOTE
    requires ReadUnit(t) == Some(Parsed(u, tail)) && ReadString(tail) == Some(Parsed(s, rest))
    ensures ReadString(t) == Some(Parsed([u] + s, rest))
  {
  }

  lemma {:induction false} ReadStringEscaped(s: Text, rest: Text)
    ensures ReadString(EscapeAll(s) + [QUOTE] + rest) == Some(Parsed(s, rest))
    decreases |s|, 1
  {
    if s == [] {
      assert EscapeAll(s) + [QUOTE] + rest == [QUOTE] + rest;
      HeadTail(QUOTE, rest);
    } else if IsHighSurrogate(s[0]) && |s| > 1 && IsLowSurrogate(s[1]) {
      ReadStringEscaped(s[2..], rest);
      ReadPair(s, rest);
    } else {
      ReadEscapedUnit(s, rest);
    }
  }

  lemma ReadPair(s: Text, rest: Text)
    requires |s| > 1 && IsHighSurrogate(s[0]) && IsLowSurrogate(s[1])
    requires ReadString(EscapeAll(s[2..]) + [QUOTE] + rest) == Some(Parsed(s[2..], rest))
    ensures ReadString(EscapeAll(s) + [QUOTE] + rest) == Some(Parsed(s, rest))
  {
    var tail := EscapeAll(s[2..]) + [QUOTE] + rest;
    ReadPlainUnit(s[1], tail, s[2..], rest);
    ReadPlainUnit(s[0], [s[1]] + tail, [s[1]] + s[2..], rest);
    Regroup(s[..2], EscapeAll(s[2..]), [QUOTE], rest);
    assert s[..2] == [s[0]] + [s[1]];
    Regroup([s[0]], [s[1]], tail, []);
    assert [s[0]] + ([s[1]] + tail) == s[..2] + tail;
    assert s == [s[0]] + ([s[1]] + s[2..]);
  }

  lemma ReadPlainUnit(u: CodeUnit, tail: Text, s: Text, rest: Text)
    requires u != QUOTE && u != BACKSLASH && ReadString(tail) == Some(Parsed(s, rest))
    ensures ReadString([u] + tail) == Some(Parsed([u] + s, rest))
  {
    HeadTail(u, tail);
    ReadStringStep([u] + tail, u, tail, s, rest);
  }

  lemma {:induction false} ReadEscapedUnit(s: Text, rest: Text)
    requires s != [] && !(IsHighSurrogate(s[0]) && |s| > 1 && IsLowSurrogate(s[1]))
    ensures ReadString(EscapeAll(s) + [QUOTE] + rest) == Some(Parsed(s, rest))
    decreases |s|, 0
  {
    var e := EscapeUnit(s[0]);
    var tail := EscapeAll(s[1..]) + [QUOTE] + rest;
    ReadUnitEscape(s[0], tail);
    ReadStringEscaped(s[1..], rest);
    Regroup(e, EscapeAll(s[1..]), [QUOTE], rest);
    ReadStringStep(e + tail, s[0], tail, s[1..], rest);
    assert s == [s[0]] + s[1..];
  }

  // ---------------------------------------------------------------- the printer

  function WriteItems(items: seq<Value>): Text
    decreases items, 0
  {
    if items == [] then []
    else if |items| == 1 then Write(items[0])
    else Write(items[0]) + ([COMMA] + WriteItems(items[1..]))
  }

  /** Each member's printed value; members whose value is `undefined` are left out. */
  function MemberTexts(fields: seq<Entry<Value>>): seq<Entry<Text>>
    decreases fields, 0
  {
    if fields == [] then []
    else if fields[0].value.Undefined? then MemberTexts(fields[1..])
    else [Entry(fields[0].key, Write(fields[0].value))] + MemberTexts(fields[1..])
  }

  function JoinMembers(members: seq<Entry<Text>>): Text {
    if members == [] then []
    else
      var first := Quote(members[0].key) + [COLON] + members[0].value;
      if |members| == 1 then first else first + ([COMMA] + JoinMembers(members[1..]))
  }

  /** The text `JSON.stringify` gives a value nested in an array or object. */
  function Write(v: Value): Text
    decreases v, 1
  {
    match v
    case Undefined => NULL_TEXT
    case Null => NULL_TEXT
    case NonFinite => NULL_TEXT
    case Bool(b) => if b then TRUE_TEXT else FALSE_TEXT
    case Num(token) => token
    case Str(text) => Quote(text)
    case Arr(items) => [OPEN_BRACKET] + WriteItems(items) + [CLOSE_BRACKET]
    case Obj(fields) => [OPEN_BRACE] + JoinMembers(MemberTexts(fields)) + [CLOSE_BRACE]
  }

  /** `JSON.stringify(v)`: no text at all for a top-level `undefined`. */
  function Stringify(v: Value): Option<Text> {
    if v.Undefined? then None else Some(Write(v))
  }

  // ---------------------------------------------------------------- the parser

  function NumberLength(t: Text): (n: nat)
    ensures n <= |t|
  {
    if t != [] && IsNumberUnit(t[0]) then 1 + NumberLength(t[1..]) else 0
  }

  function ParseValue(t: Text): (r: Option<Parsed<Value>>)
    ensures r.Some? ==> |r.value.rest| < |t|
    decreases |t|, 0
  {
    if t == [] then None
    else if NULL_TEXT <= t then Some(Parsed(Null, t[4..]))
    else if TRUE_TEXT <= t then Some(Parsed(Bool(true), t[4..]))
    else if FALSE_TEXT <= t then Some(Parsed(Bool(false), t[5..]))
    else if t[0] == QUOTE then
      (match ReadString(t[1..])
       case None => None
       case Some(Parsed(s, rest)) => Some(Parsed(Str(s), rest)))
    else if t[0] == OPEN_BRACKET then
      if |t| > 1 && t[1] == CLOSE_BRACKET then Some(Parsed(Arr([]), t[2..]))
      else
        (match ParseItems(t[1..])
         case None => None
         case Some(Parsed(items, rest)) => Some(Parsed(Arr(items), rest)))
    else if t[0] == OPEN_BRACE then
      if |t| > 1 && t[1] == CLOSE_BRACE then Some(Parsed(Obj([]), t[2..]))
      else
        (match ParseMembers(t[1..])
         case None => None
         case Some(Parsed(fields, rest)) => Some(Parsed(Obj(fields), rest)))
    else
      var n := NumberLength(t);
      if n == 0 then None else Some(Parsed(Num(t[..n]), t[n..]))
  }

  /** One or more items up to and including the closing bracket. */
  function ParseItems(t: Text): (r: Option<Parsed<seq<Value>>>)
    ensures r.Some? ==> |r.value.rest| < |t|
    decreases |t|, 1
  {
    match ParseValue(t)
    case None => None
    case Some(Parsed(v, rest)) =>
      if rest == [] then None
      else if rest[0] == CLOSE_BRACKET then Some(Parsed([v], rest[1..]))
      else if rest[0] != COMMA then None
      else
        match ParseItems(rest[1..])
        case None => None
        case Some(Parsed(vs, rest')) => Some(Parsed([v] + vs, rest'))
  }

  /** One or more members up to and including the closing brace. */
  function ParseMembers(t: Text): (r: Option<Parsed<seq<Entry<Value>>>>)
    ensures r.Some? ==> |r.value.rest| < |t|
    decreases |t|, 1
  {
    if t == [] || t[0] != QUOTE then None
    else
      match ReadString(t[1..])
      case None => None
      case Some(Parsed(key, afterKey)) =>
        if afterKey == [] || afterKey[0] != COLON then None
        else
          match ParseValue(afterKey[1..])
          case None => None
          case Some(Parsed(v, rest)) =>
            if rest == [] then None
            else if rest[0] == CLOSE_BRACE then Some(Parsed([Entry(key, v)], rest[1..]))
            else if rest[0] != COMMA then None
            else
              match ParseMembers(rest[1..])
              case None => None
              case Some(Parsed(es, rest')) => Some(Parsed([Entry(key, v)] + es, rest'))
  }

  // ---------------------------------------------------------------- round trip

  /** What may follow a value inside a JSON text. */
  predicate Delimited(rest: Text) {
    rest == [] || rest[0] == COMMA || rest[0] == CLOSE_BRACKET || rest[0] == CLOSE_BRACE
  }

  lemma {:induction false} NumberLengthOfToken(token: Text, rest: Text)
    requires forall i :: 0 <= i < |token| ==> IsNumberUnit(token[i])
    requires Delimited(rest)
    ensures NumberLength(token + rest) == |token|
  {
    if token == [] {
      assert token + rest == rest;
    } else {
      assert (token + rest)[1..] == token[1..] + rest;
      NumberLengthOfToken(token[1..], rest);
    }
  }

  lemma WriteStart(v: Value)
    requires IsPlain(v)
    ensures Write(v) != []
    ensures Write(v)[0] != CLOSE_BRACKET
  {
  }

  lemma ParseKeyword(v: Value, rest: Text)
    requires v.Null? || v.Bool?
    ensures ParseValue(Write(v) + rest) == Some(Parsed(v, rest))
  {
    var t := Write(v) + rest;
    assert t[0] == Write(v)[0];
    assert t[|Write(v)|..] == rest;
  }

  lemma ParseNumber(token: Text, rest: Text)
    requires IsNumberToken(token) && Delimited(rest)
    ensures ParseValue(token + rest) == Some(Parsed(Num(token), rest))
  {
    var t := token + rest;
    NumberLengthOfToken(token, rest);
    assert t[0] == token[0] && t[..|token|] == token && t[|token|..] == rest;
  }

  lemma ParseString(text: Text, rest: Text)
    ensures ParseValue(Quote(text) + rest) == Some(Parsed(Str(text), rest))
  {
    var t := Quote(text) + rest;
    assert t[0] == QUOTE;
    assert t[1..] == EscapeAll(text) + [QUOTE] + rest;
    ReadStringEscaped(text, rest);
  }

  /** Parsing what was printed gives the value back and leaves what followed it untouched. */
  lemma {:induction false} ParseWrite(v: Value, rest: Text)
    requires IsPlain(v) && Delimited(rest)
    ensures ParseValue(Write(v) + rest) == Some(Parsed(v, rest))
    decreases v, 1
  {
    match v
    case Null => ParseKeyword(v, rest);
    case Bool(_) => ParseKeyword(v, rest);
    case Num(token) => ParseNumber(token, rest);
    case Str(text) => ParseString(text, rest);
    case Arr(items) =>
      if items != [] {
        WriteStart(items[0]);
        ParseWriteItems(items, rest);
      }
      ParseArray(items, WriteItems(items), rest);
    case Obj(fields) =>
      if fields != [] {
        ParseWriteMembers(fields, rest);
      }
      ParseObject(fields, JoinMembers(MemberTexts(fields)), rest);
  }

  lemma ParseArray(items: seq<Value>, inner: Text, rest: Text)
    requires if items == [] then inner == []
             else inner != [] && inner[0] != CLOSE_BRACKET &&
                  ParseItems(inner + [CLOSE_BRACKET] + rest) == Some(Parsed(items, rest))
    ensures ParseValue([OPEN_BRACKET] + inner + [CLOSE_BRACKET] + rest) == Some(Parsed(Arr(items), rest))
  {
    var tail := inner + [CLOSE_BRACKET] + rest;
    Regroup([OPEN_BRACKET], inner, [CLOSE_BRACKET], rest);
    HeadTail(OPEN_BRACKET, tail);
    if items == [] {
      assert tail == [CLOSE_BRACKET] + rest;
      assert ([OPEN_BRACKET] + tail)[2..] == rest;
    } else {
      assert ([OPEN_BRACKET] + tail)[1] == tail[0] == inner[0];
    }
  }

  lemma ParseObject(fields: seq<Entry<Value>>, inner: Text, rest: Text)
    requires if fields == [] then inner == []
             else inner != [] && inner[0] == QUOTE &&
                  ParseMembers(inner + [CLOSE_BRACE] + rest) == Some(Parsed(fields, rest))
    ensures ParseValue([OPEN_BRACE] + inner + [CLOSE_BRACE] + rest) == Some(Parsed(Obj(fields), rest))
  {
    var tail := inner + [CLOSE_BRACE] + rest;
    Regroup([OPEN_BRACE], inner, [CLOSE_BRACE], rest);
    HeadTail(OPEN_BRACE, tail);
    if fields == [] {
      assert tail == [CLOSE_BRACE] + rest;
      assert ([OPEN_BRACE] + tail)[2..] == rest;
    } else {
      assert ([OPEN_BRACE] + tail)[1] == tail[0] == inner[0];
    }
  }

  lemma RegroupList(first: Text, inner: Text, close: CodeUnit, rest: Text)
    ensures first + ([COMMA] + inner) + [close] + rest == first + ([COMMA] + (inner + [close] + rest))
  {
  }

  lemma RegroupEnd(text: Text, close: CodeUnit, rest: Text)
    ensures text + [close] + rest == text + ([close] + rest)
  {
  }

  lemma ParseNextItem(v: Value, more: Text, vs: seq<Value>, rest: Text)
    requires ParseValue(Write(v) + ([COMMA] + more)) == Some(Parsed(v, [COMMA] + more))
    requires ParseItems(more) == Some(Parsed(vs, rest))
    ensures ParseItems(Write(v) + ([COMMA] + more)) == Some(Parsed([v] + vs, rest))
  {
    HeadTail(COMMA, more);
  }

  lemma {:induction false} ParseWriteItems(items: seq<Value>, rest: Text)
    requires items != [] && forall i :: 0 <= i < |items| ==> IsPlain(items[i])
    ensures ParseItems(WriteItems(items) + [CLOSE_BRACKET] + rest) == Some(Parsed(items, rest))
    decreases items, 0
  {
    var v := items[0];
    SplitHead(items);
    if |items| == 1 {
      var tail := [CLOSE_BRACKET] + rest;
      ParseWrite(v, tail);
      HeadTail(CLOSE_BRACKET, rest);
      assert Write(v) + [CLOSE_BRACKET] + rest == Write(v) + tail;
    } else {
      ParseWriteItems(items[1..], rest);
      var inner := WriteItems(items[1..]);
      var more := inner + [CLOSE_BRACKET] + rest;
      ParseWrite(v, [COMMA] + more);
      ParseNextItem(v, more, items[1..], rest);
      RegroupList(Write(v), inner, CLOSE_BRACKET, rest);
    }
  }

  function MemberText(e: Entry<Value>): Text {
    Quote(e.key) + [COLON] + Write(e.value)
  }

  lemma MemberTextStart(e: Entry<Value>, tail: Text)
    ensures |MemberText(e)| > 0 && MemberText(e)[0] == (MemberText(e) + tail)[0] == QUOTE
  {
  }

  /** ParseMembers reads one printed member and stands before `tail`. */
  lemma ParseMember(e: Entry<Value>, tail: Text)
    requires ParseValue(Write(e.value) + tail) == Some(Parsed(e.value, tail))
    ensures var t := MemberText(e) + tail;
            t != [] && t[0] == QUOTE && ReadString(t[1..]).Some? &&
            ReadString(t[1..]).value == Parsed(e.key, [COLON] + (Write(e.value) + tail))
  {
    var afterKey := [COLON] + (Write(e.value) + tail);
    ReadStringEscaped(e.key, afterKey);
    RegroupMember(Quote(e.key), [COLON], Write(e.value), tail);
    Regroup([QUOTE], EscapeAll(e.key), [QUOTE], afterKey);
    HeadTail(QUOTE, EscapeAll(e.key) + [QUOTE] + afterKey);
  }

  lemma RegroupMember(a: Text, b: Text, c: Text, d: Text)
    ensures a + b + c + d == a + (b + (c + d))
  {
  }

  lemma ParseLastMember(e: Entry<Value>, rest: Text)
    requires ParseValue(Write(e.value) + ([CLOSE_BRACE] + rest)) == Some(Parsed(e.value, [CLOSE_BRACE] + rest))
    ensures ParseMembers(MemberText(e) + [CLOSE_BRACE] + rest) == Some(Parsed([e], rest))
  {
    var tail := [CLOSE_BRACE] + rest;
    RegroupEnd(MemberText(e), CLOSE_BRACE, rest);
    ParseMember(e, tail);
    HeadTail(CLOSE_BRACE, rest);
    HeadTail(COLON, Write(e.value) + tail);
  }

  lemma ParseNextMember(e: Entry<Value>, inner: Text, es: seq<Entry<Value>>, rest: Text)
    requires var more := inner + [CLOSE_BRACE] + rest;
             && ParseValue(Write(e.value) + ([COMMA] + more)) == Some(Parsed(e.value, [COMMA] + more))
             && ParseMembers(more) == Some(Parsed(es, rest))
    ensures ParseMembers(MemberText(e) + ([COMMA] + inner) + [CLOSE_BRACE] + rest) == Some(Parsed([e] + es, rest))
  {
    var more := inner + [CLOSE_BRACE] + rest;
    var tail := [COMMA] + more;
    RegroupList(MemberText(e), inner, CLOSE_BRACE, rest);
    ParseMember(e, tail);
    HeadTail(COMMA, more);
    HeadTail(COLON, Write(e.value) + tail);
  }

  lemma {:induction false} ParseWriteMembers(fields: seq<Entry<Value>>, rest: Text)
    requires fields != [] && forall i :: 0 <= i < |fields| ==> IsPlain(fields[i].value)
    ensures ParseMembers(JoinMembers(MemberTexts(fields)) + [CLOSE_BRACE] + rest) == Some(Parsed(fields, rest))
    ensures JoinMembers(MemberTexts(fields)) != [] && JoinMembers(MemberTexts(fields))[0] == QUOTE
    decreases fields, 0
  {
    var e := fields[0];
    SplitHead(fields);
    assert IsPlain(e.value) && (|fields| > 1 ==> IsPlain(fields[1].value));
    JoinMembersOf(fields);
    MemberTextStart(e, if |fields| == 1 then [] else [COMMA] + JoinMembers(MemberTexts(fields[1..])));
    if |fields| == 1 {
      ParseWrite(e.value, [CLOSE_BRACE] + rest);
      ParseLastMember(e, rest);
    } else {
      ParseWriteMembers(fields[1..], rest);
      var inner := JoinMembers(MemberTexts(fields[1..]));
      ParseWrite(e.value, [COMMA] + (inner + [CLOSE_BRACE] + rest));
      ParseNextMember(e, inner, fields[1..], rest);
    }
  }

  lemma JoinMembersOf(fields: seq<Entry<Value>>)
    requires fields != [] && !fields[0].value.Undefined? && (|fields| > 1 ==> !fields[1].value.Undefined?)
    ensures JoinMembers(MemberTexts(fields)) ==
            if |fields| == 1 then MemberText(fields[0])
            else MemberText(fields[0]) + ([COMMA] + JoinMembers(MemberTexts(fields[1..])))
  {
    var first := Entry(fields[0].key, Write(fields[0].value));
    var others := MemberTexts(fields[1..]);
    assert MemberTexts(fields) == [first] + others;
    assert ([first] + others)[1..] == others;
    assert |fields| > 1 ==> others != [];
  }

  /** Plain values with equal texts are equal. */
  lemma WriteInjective(v: Value, w: Value)
    requires IsPlain(v) && IsPlain(w) && Write(v) == Write(w)
    ensures v == w
  {
    ParseWrite(v, []);
    ParseWrite(w, []);
    assert Write(v) + [] == Write(w) + [];
  }
}
