/**
 The texts themselves: how escapes, literals, arrays and objects are spelled, and in which order an object's keys
 come. The round trips elsewhere hold of any consistent notation; this is the one of RFC 8259 and ECMAScript.
 */
module JsonSpelling {
  import opened Options
  import opened Texts
  import opened Json
  import opened CanonicalJson
  import opened StableJson
  import opened RequestFingerprint
  import opened Utf16

  // ---------------------------------------------------------------- escapes

  /** A quote, a backslash and the five controls with a letter of their own are written in two characters. */
  lemma ShortEscapes()
    ensures EscapeUnit(0x22) == Ascii("\\\"") && EscapeUnit(0x5C) == Ascii("\\\\")
    ensures EscapeUnit(0x08) == Ascii("\\b") && EscapeUnit(0x09) == Ascii("\\t") && EscapeUnit(0x0A) == Ascii("\\n")
    ensures EscapeUnit(0x0C) == Ascii("\\f") && EscapeUnit(0x0D) == Ascii("\\r")
  {
    assert Ascii("\\\"") == [0x5C, 0x22] && Ascii("\\\\") == [0x5C, 0x5C] && Ascii("\\b") == [0x5C, 0x62];
    assert Ascii("\\t") == [0x5C, 0x74] && Ascii("\\n") == [0x5C, 0x6E] && Ascii("\\f") == [0x5C, 0x66];
    assert Ascii("\\r") == [0x5C, 0x72];
  }

  predicate HasShortEscape(u: CodeUnit) {
    u == 0x22 || u == 0x5C || u == 0x08 || u == 0x09 || u == 0x0A || u == 0x0C || u == 0x0D
  }

  /** A backslash, `u` and the four hexadecimal digits of the code unit. */
  function FourDigits(u: CodeUnit): Text {
    Ascii("\\u") + [HEX_DIGITS[u / 4096], HEX_DIGITS[u / 256 % 16], HEX_DIGITS[u / 16 % 16], HEX_DIGITS[u % 16]]
  }

  lemma UnicodeEscapeSpelled(u: CodeUnit)
    ensures UnicodeEscape(u) == FourDigits(u)
  {
    HexDigitSpelled(u / 4096);
    HexDigitSpelled(u / 256 % 16);
    HexDigitSpelled(u / 16 % 16);
    HexDigitSpelled(u % 16);
    assert Ascii("\\u") == [0x5C, 0x75];
  }

  /** Of the others a control or a surrogate standing alone is written as its four digits; all else as itself. */
  lemma OtherEscapes(u: CodeUnit)
    requires !HasShortEscape(u)
    ensures EscapeUnit(u) == if u < 0x20 || 0xD800 <= u < 0xE000 then FourDigits(u) else [u]
  {
    UnicodeEscapeSpelled(u);
  }

  predicate NeedsEscape(u: CodeUnit) {
    u < 0x20 || HasShortEscape(u)
  }

  lemma {:induction false} EscapeNeverShortens(s: Text)
    ensures |EscapeAll(s)| >= |s|
    decreases |s|
  {
    if s == [] {
    } else if IsHighSurrogate(s[0]) && |s| > 1 && IsLowSurrogate(s[1]) {
      EscapeNeverShortens(s[2..]);
    } else {
      EscapeNeverShortens(s[1..]);
    }
  }

  /** A text is written as it is exactly when its surrogates come in pairs and nothing else in it needs an escape. */
  lemma {:induction false} WrittenAsItIsIff(s: Text)
    ensures EscapeAll(s) == s <==> WellFormed(s) && forall i :: 0 <= i < |s| ==> !NeedsEscape(s[i])
    decreases |s|
  {
    if s == [] {
    } else if IsHighSurrogate(s[0]) && |s| > 1 && IsLowSurrogate(s[1]) {
      WrittenAsItIsIff(s[2..]);
      assert s == s[..2] + s[2..] && EscapeAll(s) == s[..2] + EscapeAll(s[2..]);
      assert EscapeAll(s)[2..] == EscapeAll(s[2..]);
      assert forall i :: 2 <= i < |s| ==> s[i] == s[2..][i - 2];
    } else {
      WrittenAsItIsIff(s[1..]);
      EscapeNeverShortens(s[1..]);
      assert s == [s[0]] + s[1..] && EscapeAll(s) == EscapeUnit(s[0]) + EscapeAll(s[1..]);
      assert EscapeUnit(s[0]) == [s[0]] ==> EscapeAll(s)[1..] == EscapeAll(s[1..]);
      assert forall i :: 1 <= i < |s| ==> s[i] == s[1..][i - 1];
    }
  }

  // ---------------------------------------------------------------- literals, arrays, objects

  lemma Literals(text: Text)
    ensures Write(Null) == Write(Undefined) == Write(NonFinite) == Ascii("null")
    ensures Write(Bool(true)) == Ascii("true") && Write(Bool(false)) == Ascii("false")
    ensures Write(Str(text)) == Ascii("\"") + EscapeAll(text) + Ascii("\"")
  {
    assert Ascii("null") == NULL_TEXT && Ascii("true") == TRUE_TEXT && Ascii("false") == FALSE_TEXT;
    assert Ascii("\"") == [0x22];
  }

  /** The parts with commas between them. */
  function Listed(parts: seq<Text>): Text {
    if parts == [] then []
    else if |parts| == 1 then parts[0]
    else parts[0] + (Ascii(",") + Listed(parts[1..]))
  }

  lemma Marks()
    ensures Ascii(",") == [COMMA] && Ascii(":") == [COLON] && Ascii("[") == [OPEN_BRACKET] && Ascii("]") == [CLOSE_BRACKET]
    ensures Ascii("{") == [OPEN_BRACE] && Ascii("}") == [CLOSE_BRACE]
  {
  }

  function WriteAll(items: seq<Value>): (r: seq<Text>)
    ensures |r| == |items| && forall i :: 0 <= i < |items| ==> r[i] == Write(items[i])
  {
    seq(|items|, i requires 0 <= i < |items| => Write(items[i]))
  }

  function MemberSpelled(e: Entry<Text>): Text {
    Write(Str(e.key)) + Ascii(":") + e.value
  }

  function MembersSpelled(es: seq<Entry<Text>>): (r: seq<Text>)
    ensures |r| == |es| && forall i :: 0 <= i < |es| ==> r[i] == MemberSpelled(es[i])
  {
    seq(|es|, i requires 0 <= i < |es| => MemberSpelled(es[i]))
  }

  lemma {:induction false} ItemsListed(items: seq<Value>)
    ensures WriteItems(items) == Listed(WriteAll(items))
  {
    Marks();
    if |items| > 1 {
      ItemsListed(items[1..]);
      assert WriteAll(items)[1..] == WriteAll(items[1..]);
    }
  }

  lemma {:induction false} MembersListed(es: seq<Entry<Text>>)
    ensures JoinMembers(es) == Listed(MembersSpelled(es))
  {
    Marks();
    if |es| > 1 {
      MembersListed(es[1..]);
      assert MembersSpelled(es)[1..] == MembersSpelled(es[1..]);
    }
  }

  lemma {:induction false} StableListed(items: seq<Value>)
    ensures JoinTexts(StableItems(items)) == Listed(StableAll(items))
  {
    Marks();
    StableItemsLength(items);
    if |items| > 1 {
      StableListed(items[1..]);
      StableItemsLength(items[1..]);
      assert StableItems(items)[1..] == StableItems(items[1..]);
      assert StableAll(items)[1..] == StableAll(items[1..]);
    }
  }

  function StableAll(items: seq<Value>): (r: seq<Text>)
    ensures |r| == |items| && forall i :: 0 <= i < |items| ==> r[i] == StableStringify(items[i])
  {
    seq(|items|, i requires 0 <= i < |items| => StableStringify(items[i]))
  }

  /** An array is its items in brackets, in their own order. */
  lemma ArraysSpelled(items: seq<Value>)
    ensures Write(Arr(items)) == Ascii("[") + Listed(WriteAll(items)) + Ascii("]")
    ensures StableStringify(Arr(items)) == Ascii("[") + Listed(StableAll(items)) + Ascii("]")
  {
    Marks();
    ItemsListed(items);
    StableListed(items);
  }

  lemma {:induction false} StableMembersAre(fields: seq<Entry<Value>>, x: Entry<Text>)
    ensures |StableMembers(fields)| == |fields|
    ensures x in StableMembers(fields) <==> exists f :: f in fields && x == Entry(f.key, StableStringify(f.value))
  {
    if fields != [] {
      StableMembersAre(fields[1..], x);
      assert fields == [fields[0]] + fields[1..];
      assert forall f :: f in fields <==> f == fields[0] || f in fields[1..];
    }
  }

  /** The stable text of an object is all its members in braces, their keys ascending by code units. */
  lemma StableObjectsSpelled(fields: seq<Entry<Value>>) returns (es: seq<Entry<Text>>)
    requires UniqueKeys(fields)
    ensures forall x :: x in es <==> exists f :: f in fields && x == Entry(f.key, StableStringify(f.value))
    ensures forall i, j :: 0 <= i < j < |es| ==> Less(es[i].key, es[j].key)
    ensures StableStringify(Obj(fields)) == Ascii("{") + Listed(MembersSpelled(es)) + Ascii("}")
  {
    var members := StableMembers(fields);
    es := SortByKey(SortOrder, members);
    Marks();
    MembersListed(es);
    StableKeys(fields);
    SortSorts(SortOrder, members);
    forall x ensures x in es <==> exists f :: f in fields && x == Entry(f.key, StableStringify(f.value)) {
      SortMembers(SortOrder, members, x);
      StableMembersAre(fields, x);
    }
    forall i, j | 0 <= i < j < |es| ensures Less(es[i].key, es[j].key) {
      assert Before(SortOrder, es[i].key, es[j].key);
    }
  }

  lemma {:induction false} StableKeys(fields: seq<Entry<Value>>)
    ensures |StableMembers(fields)| == |fields|
    ensures forall i :: 0 <= i < |fields| ==> StableMembers(fields)[i].key == fields[i].key
  {
    if fields != [] {
      StableKeys(fields[1..]);
    }
  }

  // ---------------------------------------------------------------- array indices

  /** A numeral without leading zeros. */
  predicate IsNumeral(k: Text) {
    k != [] && (forall i :: 0 <= i < |k| ==> 0x30 <= k[i] <= 0x39) && (k[0] == 0x30 ==> |k| == 1)
  }

  function Pow10(n: nat): nat {
    if n == 0 then 1 else 10 * Pow10(n - 1)
  }

  predicate AllDigits(k: Text) {
    forall i :: 0 <= i < |k| ==> 0x30 <= k[i] <= 0x39
  }

  /** The number a text of digits stands for. */
  function NumberOf(k: Text): nat
    requires AllDigits(k)
  {
    if k == [] then 0 else 10 * NumberOf(k[..|k| - 1]) + (k[|k| - 1] as nat - 0x30)
  }

  lemma {:induction false} NumberBelow(k: Text)
    requires AllDigits(k)
    ensures NumberOf(k) < Pow10(|k|)
    ensures k != [] && k[0] != 0x30 ==> NumberOf(k) >= Pow10(|k| - 1)
  {
    if k != [] {
      NumberBelow(k[..|k| - 1]);
    }
  }

  lemma {:induction false} PowGrows(m: nat, n: nat)
    requires m <= n
    ensures Pow10(m) <= Pow10(n)
  {
    if m < n {
      PowGrows(m, n - 1);
    }
  }

  /** The last code unit decides exactly when everything before it is the same. */
  lemma LessByLast(a: Text, b: Text)
    requires |a| == |b| > 0
    ensures var n := |a| - 1; Less(a, b) <==> Less(a[..n], b[..n]) || (a[..n] == b[..n] && a[n] < b[n])
  {
    var n := |a| - 1;
    var x, y := a[n..], b[n..];
    assert a == a[..n] + x && b == b[..n] + y && x == [a[n]] && y == [b[n]];
    LessTotal(a[..n], b[..n]);
    if Less(a[..n], b[..n]) {
      LessBeforeSuffix(a[..n], b[..n], x, y);
    } else if Less(b[..n], a[..n]) {
      LessBeforeSuffix(b[..n], a[..n], y, x);
      LessAsymmetric(b, a);
      LessAsymmetric(b[..n], a[..n]);
    } else {
      LessAfterPrefix(a[..n], x, y);
      LessIrreflexive(a[..n]);
      assert Less(x[1..], y[1..]) == Less([], []);
    }
  }

  /** Of two digit texts of one length the lexicographically smaller is the smaller number. */
  lemma {:induction false} SameLengthOrder(a: Text, b: Text)
    requires |a| == |b| && AllDigits(a) && AllDigits(b)
    ensures Less(a, b) <==> NumberOf(a) < NumberOf(b)
    ensures a == b <==> NumberOf(a) == NumberOf(b)
  {
    if a != [] {
      var n := |a| - 1;
      SameLengthOrder(a[..n], b[..n]);
      LessByLast(a, b);
      assert a == a[..n] + [a[n]] && b == b[..n] + [b[n]];
    }
  }

  lemma LargestStarts()
    ensures AllDigits(LARGEST_INDEX) && NumberOf(LARGEST_INDEX[..4]) == 4_294
  {
    var k := LARGEST_INDEX;
    NumberStep(k, 4);
    NumberStep(k, 3);
    NumberStep(k, 2);
    NumberStep(k, 1);
  }

  lemma LargestGoesOn()
    ensures AllDigits(LARGEST_INDEX) && NumberOf(LARGEST_INDEX[..7]) == 4_294_967
  {
    var k := LARGEST_INDEX;
    LargestStarts();
    NumberStep(k, 7);
    NumberStep(k, 6);
    NumberStep(k, 5);
  }

  lemma LargestIndex()
    ensures AllDigits(LARGEST_INDEX) && NumberOf(LARGEST_INDEX) == 4_294_967_294
  {
    var k := LARGEST_INDEX;
    LargestGoesOn();
    NumberStep(k, 10);
    NumberStep(k, 9);
    NumberStep(k, 8);
    assert k[..10] == k;
  }

  lemma NumberStep(k: Text, n: nat)
    requires 0 < n <= |k| && AllDigits(k)
    ensures NumberOf(k[..n]) == 10 * NumberOf(k[..n - 1]) + (k[n - 1] as nat - 0x30)
  {
    assert k[..n][..n - 1] == k[..n - 1];
  }

  /** An array index of ECMAScript: the numeral of a number up to 2^32 - 2. */
  predicate IsArrayIndex(k: Text) {
    IsNumeral(k) && NumberOf(k) <= 4_294_967_294
  }

  lemma IndexKeyIff(k: Text)
    ensures IsIndexKey(k) <==> IsArrayIndex(k)
  {
    if IsNumeral(k) {
      NumberBelow(k);
      LargestIndex();
      assert Pow10(9) == 1_000_000_000 && Pow10(10) == 10_000_000_000;
      if |k| < 10 {
        PowGrows(|k|, 9);
      } else if |k| == 10 {
        SameLengthOrder(LARGEST_INDEX, k);
      } else {
        PowGrows(10, |k| - 1);
      }
    }
  }

  /** Array indices first, by number; the others after them, by code units. */
  predicate EnumeratedBefore(a: Text, b: Text) {
    if IsArrayIndex(a) && IsArrayIndex(b) then NumberOf(a) < NumberOf(b)
    else if IsArrayIndex(a) || IsArrayIndex(b) then IsArrayIndex(a)
    else Less(a, b)
  }

  lemma IndexOrder(a: Text, b: Text)
    requires IsIndexKey(a) && IsIndexKey(b)
    ensures Before(EnumerationOrder, a, b) <==> NumberOf(a) < NumberOf(b)
  {
    NumberBelow(a);
    NumberBelow(b);
    if |a| == |b| {
      SameLengthOrder(a, b);
      LessAfterPrefix([0, |a| as CodeUnit], a, b);
    } else if |a| < |b| {
      PowGrows(|a|, |b| - 1);
      LessBeforeSuffix([0, |a| as CodeUnit], [0, |b| as CodeUnit], a, b);
    } else {
      PowGrows(|b|, |a| - 1);
      LessBeforeSuffix([0, |b| as CodeUnit], [0, |a| as CodeUnit], b, a);
      BeforeAsymmetric(EnumerationOrder, b, a);
    }
  }

  /** The order in which the model enumerates keys is that of ECMAScript, section 10.1.11.1, over sorted keys. */
  lemma EnumerationIff(a: Text, b: Text)
    ensures Before(EnumerationOrder, a, b) <==> EnumeratedBefore(a, b)
  {
    IndexKeyIff(a);
    IndexKeyIff(b);
    if IsIndexKey(a) && IsIndexKey(b) {
      IndexOrder(a, b);
    } else if !IsIndexKey(a) && !IsIndexKey(b) {
      LessAfterPrefix([1, 0], a, b);
    }
  }

  // ---------------------------------------------------------------- the canonical text of an object

  lemma SortedValueDefined(v: Value)
    ensures SortValue(v).Undefined? <==> v.Undefined?
  {
  }

  lemma {:induction false} AllPrinted(fields: seq<Entry<Value>>)
    requires forall i :: 0 <= i < |fields| ==> !fields[i].value.Undefined?
    ensures |MemberTexts(fields)| == |fields|
    ensures forall i :: 0 <= i < |fields| ==> MemberTexts(fields)[i] == Entry(fields[i].key, Write(fields[i].value))
  {
    if fields != [] {
      AllPrinted(fields[1..]);
    }
  }

  /**
   The canonical text of a body is its members in braces, without the nullish ones and `__proto__`, each with the
   text of its own sorted value, in the order in which ECMAScript enumerates the keys.
   */
  lemma CanonicalObjectsSpelled(fields: seq<Entry<Value>>) returns (es: seq<Entry<Text>>)
    requires UniqueKeys(fields)
    ensures forall x :: x in es <==> exists f :: f in fields && !PrintsNothing(f) && x == Entry(f.key, Write(SortValue(f.value)))
    ensures forall i, j :: 0 <= i < j < |es| ==> EnumeratedBefore(es[i].key, es[j].key)
    ensures Canonicalize(Obj(fields)) == Some(Ascii("{") + Listed(MembersSpelled(es)) + Ascii("}"))
  {
    var kept := KeptFields(fields);
    var sorted := SortByKey(EnumerationOrder, kept);
    es := MemberTexts(sorted);
    KeptFieldsUnique(fields);
    SortSorts(EnumerationOrder, kept);
    forall i | 0 <= i < |sorted| ensures !sorted[i].value.Undefined? {
      SortMembers(EnumerationOrder, kept, sorted[i]);
      KeptFieldsMembers(fields, sorted[i]);
    }
    AllPrinted(sorted);
    forall x ensures x in es <==> exists f :: f in fields && !PrintsNothing(f) && x == Entry(f.key, Write(SortValue(f.value))) {
      PrintedMember(fields, sorted, es, x);
    }
    forall i, j | 0 <= i < j < |es| ensures EnumeratedBefore(es[i].key, es[j].key) {
      assert Before(EnumerationOrder, sorted[i].key, sorted[j].key);
      EnumerationIff(es[i].key, es[j].key);
    }
    Marks();
    MembersListed(es);
  }

  predicate PrintsNothing(f: Entry<Value>) {
    f.value.Null? || f.value.Undefined? || f.key == Ascii("__proto__")
  }

  lemma KeptIff(f: Entry<Value>)
    ensures RequestFingerprint.Kept(f) <==> !PrintsNothing(f)
  {
    assert Ascii("__proto__") == PROTO;
  }

  lemma PrintedMember(fields: seq<Entry<Value>>, sorted: seq<Entry<Value>>, es: seq<Entry<Text>>, x: Entry<Text>)
    requires sorted == SortByKey(EnumerationOrder, KeptFields(fields)) && |es| == |sorted|
    requires forall i :: 0 <= i < |sorted| ==> es[i] == Entry(sorted[i].key, Write(sorted[i].value))
    ensures x in es <==> exists f :: f in fields && !PrintsNothing(f) && x == Entry(f.key, Write(SortValue(f.value)))
  {
    if x in es {
      var i :| 0 <= i < |es| && es[i] == x;
      SortMembers(EnumerationOrder, KeptFields(fields), sorted[i]);
      KeptFieldsMembers(fields, sorted[i]);
      var f :| f in fields && RequestFingerprint.Kept(f) && sorted[i] == Entry(f.key, SortValue(f.value));
      KeptIff(f);
    }
    if f :| f in fields && !PrintsNothing(f) && x == Entry(f.key, Write(SortValue(f.value))) {
      KeptIff(f);
      var y := Entry(f.key, SortValue(f.value));
      KeptFieldsMembers(fields, y);
      SortMembers(EnumerationOrder, KeptFields(fields), y);
      var i :| 0 <= i < |sorted| && sorted[i] == y;
      assert es[i] == x;
    }
  }
}
