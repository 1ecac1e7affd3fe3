/** `stableStringify`, the deterministic JSON text under the audit hash. */
module StableJson {
  import opened Options
  import opened Texts
  import opened Json
  import opened CanonicalJson

  function JoinTexts(texts: seq<Text>): Text {
    if texts == [] then []
    else if |texts| == 1 then texts[0]
    else texts[0] + ([COMMA] + JoinTexts(texts[1..]))
  }

  function StableItems(items: seq<Value>): seq<Text>
    decreases items, 0
  {
    if items == [] then [] else [StableStringify(items[0])] + StableItems(items[1..])
  }

  function StableMembers(fields: seq<Entry<Value>>): seq<Entry<Text>>
    decreases fields, 0
  {
    if fields == [] then []
    else [Entry(fields[0].key, StableStringify(fields[0].value))] + StableMembers(fields[1..])
  }

  /**
   `JSON.stringify(value) ?? 'null'` for a primitive; an array keeps its order; an object's members are
   joined in the sorted order of their keys. A member whose value is `undefined` prints as `null`.
   */
  function StableStringify(v: Value): Text
    decreases v, 1
  {
    match v
    case Arr(items) => [OPEN_BRACKET] + JoinTexts(StableItems(items)) + [CLOSE_BRACKET]
    case Obj(fields) => [OPEN_BRACE] + JoinMembers(SortByKey(SortOrder, StableMembers(fields))) + [CLOSE_BRACE]
    case _ => match Stringify(v)
              case Some(text) => text
              case None => NULL_TEXT
  }

  /** `stableStringify` prints exactly what `JSON.stringify` prints for the key-sorted copy. */
  lemma {:induction false} StableIsWriteOfCanon(v: Value)
    requires IsValue(v)
    ensures StableStringify(v) == Write(Canon(SortOrder, v))
    decreases v, 1
  {
    match v
    case Arr(items) => StableItemsOfCanon(items);
    case Obj(fields) =>
      StableMembersOfCanon(fields);
      var s := CanonFields(SortOrder, fields);
      forall i | 0 <= i < |s| ensures !s[i].value.Undefined? {
        CanonIsPlain(SortOrder, fields[i].value);
      }
      MemberTextsSort(SortOrder, s);
    case _ =>
  }

  lemma {:induction false} StableItemsOfCanon(items: seq<Value>)
    requires forall i :: 0 <= i < |items| ==> IsValue(items[i])
    ensures JoinTexts(StableItems(items)) == WriteItems(CanonItems(SortOrder, items))
    decreases items, 0
  {
    if items != [] {
      StableIsWriteOfCanon(items[0]);
      StableItemsOfCanon(items[1..]);
      assert StableItems(items)[1..] == StableItems(items[1..]);
      assert CanonItems(SortOrder, items)[1..] == CanonItems(SortOrder, items[1..]);
      StableItemsLength(items);
    }
  }

  lemma {:induction false} StableItemsLength(items: seq<Value>)
    ensures |StableItems(items)| == |items|
  {
    if items != [] {
      StableItemsLength(items[1..]);
    }
  }

  lemma {:induction false} StableMembersOfCanon(fields: seq<Entry<Value>>)
    requires forall i :: 0 <= i < |fields| ==> IsValue(fields[i].value)
    ensures StableMembers(fields) == MemberTexts(CanonFields(SortOrder, fields))
    decreases fields, 0
  {
    if fields != [] {
      StableIsWriteOfCanon(fields[0].value);
      CanonIsPlain(SortOrder, fields[0].value);
      StableMembersOfCanon(fields[1..]);
      assert CanonFields(SortOrder, fields)[1..] == CanonFields(SortOrder, fields[1..]);
    }
  }

  /** Parsing a stable text followed by any delimiter-led text gives the key-sorted value and that text. */
  lemma ParseStable(v: Value, rest: Text)
    requires IsValue(v) && Delimited(rest)
    ensures ParseValue(StableStringify(v) + rest) == Some(Parsed(Canon(SortOrder, v), rest))
  {
    StableIsWriteOfCanon(v);
    CanonIsPlain(SortOrder, v);
    ParseWrite(Canon(SortOrder, v), rest);
  }

  /** Two values have one stable text exactly when they are equal up to key order. */
  lemma StableEqualIffSame(v: Value, w: Value)
    requires IsValue(v) && IsValue(w)
    ensures StableStringify(v) == StableStringify(w) <==> SameJson(v, w)
  {
    StableIsWriteOfCanon(v);
    StableIsWriteOfCanon(w);
    CanonIsPlain(SortOrder, v);
    CanonIsPlain(SortOrder, w);
    if StableStringify(v) == StableStringify(w) {
      WriteInjective(Canon(SortOrder, v), Canon(SortOrder, w));
      CanonEqualSame(SortOrder, v, w);
    }
    if SameJson(v, w) {
      SameCanonEqual(SortOrder, v, w);
    }
  }
}
