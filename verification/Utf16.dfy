/**
 No JSON text printed here has a lone surrogate, so encoding it to UTF-8 before hashing loses nothing.
 */
module Utf16 {
  import opened Texts
  import opened Json
  import opened CanonicalJson
  import opened StableJson

  /** Every surrogate belongs to a high-low pair. */
  predicate WellFormed(t: Text) {
    if t == [] then true
    else if IsHighSurrogate(t[0]) then |t| > 1 && IsLowSurrogate(t[1]) && WellFormed(t[2..])
    else !IsLowSurrogate(t[0]) && WellFormed(t[1..])
  }

  lemma {:induction false} ConcatWellFormed(a: Text, b: Text)
    requires WellFormed(a) && WellFormed(b)
    ensures WellFormed(a + b)
    decreases |a|
  {
    if a == [] {
      assert a + b == b;
    } else if IsHighSurrogate(a[0]) {
      ConcatWellFormed(a[2..], b);
      assert (a + b)[2..] == a[2..] + b;
    } else {
      ConcatWellFormed(a[1..], b);
      assert (a + b)[1..] == a[1..] + b;
    }
  }

  lemma {:induction false} PlainWellFormed(t: Text)
    requires forall i :: 0 <= i < |t| ==> !IsHighSurrogate(t[i]) && !IsLowSurrogate(t[i])
    ensures WellFormed(t)
  {
    if t != [] {
      PlainWellFormed(t[1..]);
    }
  }

  /** Escaping makes any sequence of code units well-formed. */
  lemma {:induction false} EscapeWellFormed(s: Text)
    ensures WellFormed(EscapeAll(s))
    decreases |s|
  {
    if s == [] {
    } else if IsHighSurrogate(s[0]) && |s| > 1 && IsLowSurrogate(s[1]) {
      EscapeWellFormed(s[2..]);
      assert (s[..2] + EscapeAll(s[2..]))[2..] == EscapeAll(s[2..]);
    } else {
      EscapeWellFormed(s[1..]);
      PlainWellFormed(EscapeUnit(s[0]));
      ConcatWellFormed(EscapeUnit(s[0]), EscapeAll(s[1..]));
    }
  }

  lemma BracketedWellFormed(open: CodeUnit, t: Text, close: CodeUnit)
    requires open < 0x80 && close < 0x80 && WellFormed(t)
    ensures WellFormed([open] + t + [close])
  {
    PlainWellFormed([open]);
    PlainWellFormed([close]);
    ConcatWellFormed([open], t);
    ConcatWellFormed([open] + t, [close]);
  }

  lemma QuoteWellFormed(s: Text)
    ensures WellFormed(Quote(s))
  {
    EscapeWellFormed(s);
    BracketedWellFormed(QUOTE, EscapeAll(s), QUOTE);
  }

  lemma {:induction false} WriteWellFormed(v: Value)
    requires IsPlain(v)
    ensures WellFormed(Write(v))
    decreases v, 1
  {
    match v
    case Str(text) => QuoteWellFormed(text);
    case Arr(items) =>
      WriteItemsWellFormed(items);
      BracketedWellFormed(OPEN_BRACKET, WriteItems(items), CLOSE_BRACKET);
    case Obj(fields) =>
      WriteMembersWellFormed(fields);
      BracketedWellFormed(OPEN_BRACE, JoinMembers(MemberTexts(fields)), CLOSE_BRACE);
    case _ => PlainWellFormed(Write(v));
  }

  lemma {:induction false} WriteItemsWellFormed(items: seq<Value>)
    requires forall i :: 0 <= i < |items| ==> IsPlain(items[i])
    ensures WellFormed(WriteItems(items))
    decreases items, 0
  {
    if items != [] {
      WriteWellFormed(items[0]);
      WriteItemsWellFormed(items[1..]);
      ListWellFormed(Write(items[0]), WriteItems(items[1..]));
    }
  }

  lemma ListWellFormed(first: Text, others: Text)
    requires WellFormed(first) && WellFormed(others)
    ensures WellFormed(first + ([COMMA] + others))
  {
    PlainWellFormed([COMMA]);
    ConcatWellFormed([COMMA], others);
    ConcatWellFormed(first, [COMMA] + others);
  }

  lemma {:induction false} WriteMembersWellFormed(fields: seq<Entry<Value>>)
    requires forall i :: 0 <= i < |fields| ==> IsPlain(fields[i].value)
    ensures WellFormed(JoinMembers(MemberTexts(fields)))
    decreases fields, 0
  {
    if fields != [] {
      assert IsPlain(fields[0].value) && (|fields| > 1 ==> IsPlain(fields[1].value));
      JoinMembersOf(fields);
      WriteWellFormed(fields[0].value);
      QuoteWellFormed(fields[0].key);
      PlainWellFormed([COLON]);
      ConcatWellFormed(Quote(fields[0].key), [COLON]);
      ConcatWellFormed(Quote(fields[0].key) + [COLON], Write(fields[0].value));
      WriteMembersWellFormed(fields[1..]);
      ListWellFormed(MemberText(fields[0]), JoinMembers(MemberTexts(fields[1..])));
    }
  }

  /** Whatever strings the hashed payload holds, its text has no lone surrogate. */
  lemma StableWellFormed(v: Value)
    requires IsValue(v)
    ensures WellFormed(StableStringify(v))
  {
    StableIsWriteOfCanon(v);
    CanonIsPlain(SortOrder, v);
    WriteWellFormed(Canon(SortOrder, v));
  }
}
