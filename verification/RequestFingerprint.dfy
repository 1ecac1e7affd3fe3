/** The canonical request text behind the idempotency fingerprint. */
module RequestFingerprint {
  import opened Options
  import opened Texts
  import opened Json
  import opened CanonicalJson
  import opened JsonColumn
  import opened JsValues

  // "__proto__": assigning this property of a plain object sets its prototype and adds no own key.
  const PROTO: Text := [0x5F, 0x5F, 0x70, 0x72, 0x6F, 0x74, 0x6F, 0x5F, 0x5F]

  predicate Nullish(v: Value) {
    v.Null? || v.Undefined?
  }

  predicate Kept(e: Entry<Value>) {
    !Nullish(e.value) && e.key != PROTO
  }

  function SortItems(items: seq<Value>): (r: seq<Value>)
    ensures |r| == |items|
    ensures forall i :: 0 <= i < |items| ==> r[i] == SortValue(items[i])
    decreases items, 0
  {
    if items == [] then [] else [SortValue(items[0])] + SortItems(items[1..])
  }

  function KeptFields(fields: seq<Entry<Value>>): seq<Entry<Value>>
    decreases fields, 0
  {
    if fields == [] then []
    else if Kept(fields[0]) then
      [Entry(fields[0].key, SortValue(fields[0].value))] + KeptFields(fields[1..])
    else KeptFields(fields[1..])
  }

  /** What `sortValue` returns, as enumerated by `Object.keys`. */
  function SortValue(v: Value): Value
    decreases v, 1
  {
    match v
    case Arr(items) => Arr(SortItems(items))
    case Obj(fields) => Obj(SortByKey(EnumerationOrder, KeptFields(fields)))
    case _ => v
  }

  /** `canonicalize`; `JSON.stringify` gives no text for `undefined`. */
  function Canonicalize(v: Value): Option<Text> {
    Stringify(SortValue(v))
  }

  // ---------------------------------------------------------------- the key loop

  /** `result[key] = value` on a plain object that does not own `key` yet. */
  function Assign(result: seq<Entry<Value>>, key: Text, value: Value): seq<Entry<Value>> {
    if key == PROTO then result
    else if IsIndexKey(key) then Insert(EnumerationOrder, Entry(key, value), result)
    else result + [Entry(key, value)]
  }

  lemma {:induction false} KeptFieldsMembers(fields: seq<Entry<Value>>, x: Entry<Value>)
    ensures x in KeptFields(fields) <==> exists f :: f in fields && Kept(f) && x == Entry(f.key, SortValue(f.value))
  {
    if fields != [] {
      KeptFieldsMembers(fields[1..], x);
      assert fields == [fields[0]] + fields[1..];
      assert forall f :: f in fields <==> f == fields[0] || f in fields[1..];
    }
  }

  lemma {:induction false} KeptFieldsUnique(fields: seq<Entry<Value>>)
    requires UniqueKeys(fields)
    ensures UniqueKeys(KeptFields(fields))
  {
    if fields != [] {
      KeptFieldsUnique(fields[1..]);
      forall x | x in KeptFields(fields[1..]) ensures x.key != fields[0].key {
        KeptFieldsMembers(fields[1..], x);
      }
    }
  }

  lemma AppendSorted(s: seq<Entry<Value>>, e: Entry<Value>)
    requires SortedByKey(EnumerationOrder, s) && !IsIndexKey(e.key)
    requires forall x :: x in s ==> Less(x.key, e.key)
    ensures SortedByKey(EnumerationOrder, s + [e])
  {
    forall i | 0 <= i < |s| ensures Before(EnumerationOrder, s[i].key, e.key) {
      assert s[i] in s;
      LessAfterPrefix([1, 0], s[i].key, e.key);
    }
  }

  lemma AssignKeepsOrder(result: seq<Entry<Value>>, key: Text, value: Value)
    requires SortedByKey(EnumerationOrder, result) && key != PROTO
    requires forall x :: x in result ==> Less(x.key, key)
    ensures SortedByKey(EnumerationOrder, Assign(result, key, value))
    ensures forall x :: x in Assign(result, key, value) <==> x == Entry(key, value) || x in result
  {
    var e := Entry(key, value);
    if IsIndexKey(key) {
      forall x | x in result ensures x.key != key {
        LessIrreflexive(key);
      }
      InsertSorted(EnumerationOrder, e, result);
      forall x ensures x in Assign(result, key, value) <==> x == e || x in result {
        InsertMembers(EnumerationOrder, e, result, x);
      }
    } else {
      AppendSorted(result, e);
    }
  }

  /** The entries the loop has produced from the first `n` sorted fields. */
  ghost predicate Produced(result: seq<Entry<Value>>, sorted: seq<Entry<Value>>, n: nat)
    requires n <= |sorted|
  {
    && SortedByKey(EnumerationOrder, result)
    && forall x :: x in result <==> IsKeptFrom(sorted[..n], x)
  }

  ghost predicate IsKeptFrom(fields: seq<Entry<Value>>, x: Entry<Value>) {
    exists f :: f in fields && Kept(f) && x == Entry(f.key, SortValue(f.value))
  }

  lemma ProducedStep(result: seq<Entry<Value>>, sorted: seq<Entry<Value>>, n: nat)
    requires n < |sorted| && SortedByKey(SortOrder, sorted) && Produced(result, sorted, n)
    ensures !Nullish(sorted[n].value) ==>
              Produced(Assign(result, sorted[n].key, SortValue(sorted[n].value)), sorted, n + 1)
    ensures Nullish(sorted[n].value) ==> Produced(result, sorted, n + 1)
  {
    var e := sorted[n];
    assert sorted[..n + 1] == sorted[..n] + [e];
    assert forall f :: f in sorted[..n + 1] <==> f == e || f in sorted[..n];
    forall x ensures IsKeptFrom(sorted[..n + 1], x) <==>
                     IsKeptFrom(sorted[..n], x) || (Kept(e) && x == Entry(e.key, SortValue(e.value)))
    {
      KeptFromOneMore(sorted[..n], e, x);
    }
    if Kept(e) {
      forall x | x in result ensures Less(x.key, e.key) {
        assert IsKeptFrom(sorted[..n], x);
      }
      AssignKeepsOrder(result, e.key, SortValue(e.value));
    }
  }

  lemma KeptFromOneMore(fields: seq<Entry<Value>>, e: Entry<Value>, x: Entry<Value>)
    ensures IsKeptFrom(fields + [e], x) <==>
            IsKeptFrom(fields, x) || (Kept(e) && x == Entry(e.key, SortValue(e.value)))
  {
    assert e in fields + [e];
    assert forall f :: f in fields + [e] <==> f == e || f in fields;
  }

  lemma ProducedAll(result: seq<Entry<Value>>, fields: seq<Entry<Value>>)
    requires UniqueKeys(fields)
    requires Produced(result, SortByKey(SortOrder, fields), |SortByKey(SortOrder, fields)|)
    ensures result == SortByKey(EnumerationOrder, KeptFields(fields))
  {
    var sorted := SortByKey(SortOrder, fields);
    var expected := SortByKey(EnumerationOrder, KeptFields(fields));
    assert sorted[..|sorted|] == sorted;
    KeptFieldsUnique(fields);
    SortSorts(EnumerationOrder, KeptFields(fields));
    forall x ensures x in result <==> x in expected {
      SortMembers(EnumerationOrder, KeptFields(fields), x);
      KeptFieldsMembers(fields, x);
      forall f ensures f in sorted <==> f in fields {
        SortMembers(SortOrder, fields, f);
      }
    }
    SortedDetermined(EnumerationOrder, result, expected);
  }

  /** The recursive loop of the source: sorted keys, nullish values skipped, one assignment a key. */
  method SortValueLoop(v: Value) returns (r: Value)
    requires IsValue(v)
    ensures r == SortValue(v)
    decreases v
  {
    match v
    case Arr(items) =>
      var mapped: seq<Value> := [];
      for i := 0 to |items|
        invariant |mapped| == i && forall k :: 0 <= k < i ==> mapped[k] == SortValue(items[k])
      {
        var item := SortValueLoop(items[i]);
        mapped := mapped + [item];
      }
      assert mapped == SortItems(items);
      r := Arr(mapped);
    case Obj(fields) =>
      var sorted := SortByKey(SortOrder, fields);
      var result: seq<Entry<Value>> := [];
      SortSorts(SortOrder, fields);
      for i := 0 to |sorted|
        invariant Produced(result, sorted, i)
      {
        var e := sorted[i];
        ProducedStep(result, sorted, i);
        if !Nullish(e.value) {
          SortMembers(SortOrder, fields, e);
          var k :| 0 <= k < |fields| && fields[k] == e;
          var sortedValue := SortValueLoop(fields[k].value);
          result := Assign(result, e.key, sortedValue);
        }
      }
      ProducedAll(result, fields);
      r := Obj(result);
    case _ =>
      r := v;
  }

  // ---------------------------------------------------------------- what the text identifies

  function StripItems(items: seq<Value>): (r: seq<Value>)
    ensures |r| == |items|
    ensures forall i :: 0 <= i < |items| ==> r[i] == Strip(items[i])
    decreases items, 0
  {
    if items == [] then [] else [Strip(items[0])] + StripItems(items[1..])
  }

  function StripFields(fields: seq<Entry<Value>>): seq<Entry<Value>>
    decreases fields, 0
  {
    if fields == [] then []
    else if Kept(fields[0]) then [Entry(fields[0].key, Strip(fields[0].value))] + StripFields(fields[1..])
    else StripFields(fields[1..])
  }

  /** The value without the object fields the canonical text ignores; arrays keep every item. */
  function Strip(v: Value): Value
    decreases v, 1
  {
    match v
    case Arr(items) => Arr(StripItems(items))
    case Obj(fields) => Obj(StripFields(fields))
    case _ => v
  }

  lemma {:induction false} StripFieldsMembers(fields: seq<Entry<Value>>, x: Entry<Value>)
    ensures x in StripFields(fields) <==> exists f :: f in fields && Kept(f) && x == Entry(f.key, Strip(f.value))
  {
    if fields != [] {
      StripFieldsMembers(fields[1..], x);
      assert fields == [fields[0]] + fields[1..];
      assert forall f :: f in fields <==> f == fields[0] || f in fields[1..];
    }
  }

  lemma {:induction false} StripFieldsUnique(fields: seq<Entry<Value>>)
    requires UniqueKeys(fields)
    ensures UniqueKeys(StripFields(fields))
  {
    if fields != [] {
      StripFieldsUnique(fields[1..]);
      forall x | x in StripFields(fields[1..]) ensures x.key != fields[0].key {
        StripFieldsMembers(fields[1..], x);
      }
    }
  }

  lemma {:induction false} StripIsValue(v: Value)
    requires IsValue(v)
    ensures IsValue(Strip(v))
    decreases v
  {
    match v
    case Arr(items) =>
      forall i | 0 <= i < |items| ensures IsValue(Strip(items[i])) {
        StripIsValue(items[i]);
      }
    case Obj(fields) =>
      var s := StripFields(fields);
      StripFieldsUnique(fields);
      forall k | 0 <= k < |s| ensures IsValue(s[k].value) {
        StripFieldsMembers(fields, s[k]);
        var i :| 0 <= i < |fields| && Kept(fields[i]) && s[k] == Entry(fields[i].key, Strip(fields[i].value));
        StripIsValue(fields[i].value);
      }
    case _ =>
  }

  /** The canonical text is the text of the stripped value with every object's keys put in one order. */
  lemma {:induction false} WriteSortValue(v: Value)
    requires IsValue(v)
    ensures Write(SortValue(v)) == Write(Canon(EnumerationOrder, Strip(v)))
    decreases v, 1
  {
    match v
    case Arr(items) => WriteSortItems(items);
    case Obj(fields) =>
      WriteKeptFields(fields);
      StripIsValue(v);
      var kept, canon := KeptFields(fields), CanonFields(EnumerationOrder, StripFields(fields));
      forall i | 0 <= i < |kept| ensures !kept[i].value.Undefined? {
        KeptFieldsMembers(fields, kept[i]);
      }
      forall i | 0 <= i < |canon| ensures !canon[i].value.Undefined? {
        CanonIsPlain(EnumerationOrder, StripFields(fields)[i].value);
      }
      MemberTextsSort(EnumerationOrder, kept);
      MemberTextsSort(EnumerationOrder, canon);
    case _ =>
  }

  lemma {:induction false} WriteSortItems(items: seq<Value>)
    requires forall i :: 0 <= i < |items| ==> IsValue(items[i])
    ensures WriteItems(SortItems(items)) == WriteItems(CanonItems(EnumerationOrder, StripItems(items)))
    decreases items, 0
  {
    if items != [] {
      WriteSortValue(items[0]);
      WriteSortItems(items[1..]);
      assert SortItems(items)[1..] == SortItems(items[1..]);
      assert CanonItems(EnumerationOrder, StripItems(items))[1..] == CanonItems(EnumerationOrder, StripItems(items[1..]));
    }
  }

  lemma {:induction false} WriteKeptFields(fields: seq<Entry<Value>>)
    requires forall i :: 0 <= i < |fields| ==> IsValue(fields[i].value)
    ensures MemberTexts(KeptFields(fields)) == MemberTexts(CanonFields(EnumerationOrder, StripFields(fields)))
    decreases fields, 0
  {
    if fields != [] {
      WriteKeptFields(fields[1..]);
      if Kept(fields[0]) {
        var e := fields[0];
        WriteSortValue(e.value);
        StripIsValue(e.value);
        CanonIsPlain(EnumerationOrder, Strip(e.value));
        assert KeptFields(fields)[1..] == KeptFields(fields[1..]);
        assert CanonFields(EnumerationOrder, StripFields(fields))[1..]
            == CanonFields(EnumerationOrder, StripFields(fields[1..]));
      }
    }
  }

  /**
   Two bodies have one canonical text exactly when they are equal up to key order once the nullish and
   `__proto__` fields are dropped everywhere.
   */
  lemma CanonicalEqualIffSame(v: Value, w: Value)
    requires IsValue(v) && IsValue(w)
    ensures Canonicalize(v) == Canonicalize(w) <==>
            (v.Undefined? <==> w.Undefined?) && SameJson(Strip(v), Strip(w))
  {
    WriteSortValue(v);
    WriteSortValue(w);
    StripIsValue(v);
    StripIsValue(w);
    var cv, cw := Canon(EnumerationOrder, Strip(v)), Canon(EnumerationOrder, Strip(w));
    CanonIsPlain(EnumerationOrder, Strip(v));
    CanonIsPlain(EnumerationOrder, Strip(w));
    if Write(cv) == Write(cw) {
      WriteInjective(cv, cw);
      CanonEqualSame(EnumerationOrder, Strip(v), Strip(w));
    }
    if SameJson(Strip(v), Strip(w)) {
      SameCanonEqual(EnumerationOrder, Strip(v), Strip(w));
    }
  }

  // ---------------------------------------------------------------- sortValue is idempotent

  lemma {:induction false} KeptFieldsOfSorted(s: seq<Entry<Value>>)
    requires forall x :: x in s ==> Kept(x) && SortValue(x.value) == x.value
    ensures KeptFields(s) == s
  {
    if s != [] {
      assert s[0] in s && s == [s[0]] + s[1..];
      KeptFieldsOfSorted(s[1..]);
    }
  }

  lemma {:induction false} SortValueIdempotent(v: Value)
    requires IsValue(v)
    ensures SortValue(SortValue(v)) == SortValue(v)
    decreases v
  {
    match v
    case Arr(items) =>
      forall i | 0 <= i < |items| ensures SortValue(SortValue(items[i])) == SortValue(items[i]) {
        SortValueIdempotent(items[i]);
      }
      assert SortItems(SortItems(items)) == SortItems(items);
    case Obj(fields) =>
      var s := SortByKey(EnumerationOrder, KeptFields(fields));
      forall x | x in s ensures Kept(x) && SortValue(x.value) == x.value {
        SortMembers(EnumerationOrder, KeptFields(fields), x);
        KeptFieldsMembers(fields, x);
        var i :| 0 <= i < |fields| && Kept(fields[i]) && x == Entry(fields[i].key, SortValue(fields[i].value));
        SortValueIdempotent(fields[i].value);
      }
      KeptFieldsOfSorted(s);
      KeptFieldsUnique(fields);
      SortSorts(EnumerationOrder, KeptFields(fields));
      SortOfSorted(EnumerationOrder, s);
    case _ =>
  }

  // ---------------------------------------------------------------- when `__proto__` matters

  function DropNullItems(items: seq<Value>): (r: seq<Value>)
    ensures |r| == |items|
    ensures forall i :: 0 <= i < |items| ==> r[i] == DropNull(items[i])
    decreases items, 0
  {
    if items == [] then [] else [DropNull(items[0])] + DropNullItems(items[1..])
  }

  function DropNullFields(fields: seq<Entry<Value>>): seq<Entry<Value>>
    decreases fields, 0
  {
    if fields == [] then []
    else if Nullish(fields[0].value) then DropNullFields(fields[1..])
    else [Entry(fields[0].key, DropNull(fields[0].value))] + DropNullFields(fields[1..])
  }

  /** The documented reading of a body: only null and undefined object fields are dropped. */
  function DropNull(v: Value): Value
    decreases v, 1
  {
    match v
    case Arr(items) => Arr(DropNullItems(items))
    case Obj(fields) => Obj(DropNullFields(fields))
    case _ => v
  }

  /** No field that would be kept is named `__proto__`, at any depth. */
  predicate ProtoFree(v: Value) {
    match v
    case Arr(items) => forall i :: 0 <= i < |items| ==> ProtoFree(items[i])
    case Obj(fields) =>
      forall i :: 0 <= i < |fields| && !Nullish(fields[i].value) ==> fields[i].key != PROTO && ProtoFree(fields[i].value)
    case _ => true
  }

  lemma {:induction false} ProtoFreeStrip(v: Value)
    requires ProtoFree(v)
    ensures Strip(v) == DropNull(v)
    decreases v, 1
  {
    match v
    case Arr(items) =>
      forall i | 0 <= i < |items| ensures Strip(items[i]) == DropNull(items[i]) {
        ProtoFreeStrip(items[i]);
      }
      assert StripItems(items) == DropNullItems(items);
    case Obj(fields) => ProtoFreeStripFields(fields);
    case _ =>
  }

  lemma {:induction false} ProtoFreeStripFields(fields: seq<Entry<Value>>)
    requires forall i :: 0 <= i < |fields| && !Nullish(fields[i].value) ==> fields[i].key != PROTO && ProtoFree(fields[i].value)
    ensures StripFields(fields) == DropNullFields(fields)
    decreases fields, 0
  {
    if fields != [] {
      ProtoFreeStripFields(fields[1..]);
      if !Nullish(fields[0].value) {
        ProtoFreeStrip(fields[0].value);
      }
    }
  }

  lemma {:induction false} DropNullFieldsMembers(fields: seq<Entry<Value>>, x: Entry<Value>)
    ensures x in DropNullFields(fields) <==>
            exists f :: f in fields && !Nullish(f.value) && x == Entry(f.key, DropNull(f.value))
  {
    if fields != [] {
      DropNullFieldsMembers(fields[1..], x);
      assert fields == [fields[0]] + fields[1..];
      assert forall f :: f in fields <==> f == fields[0] || f in fields[1..];
    }
  }

  lemma {:induction false} StripProtoFree(v: Value)
    ensures ProtoFree(Strip(v)) && Strip(Strip(v)) == Strip(v)
    decreases v
  {
    match v
    case Arr(items) =>
      forall i | 0 <= i < |items| ensures ProtoFree(Strip(items[i])) && Strip(Strip(items[i])) == Strip(items[i]) {
        StripProtoFree(items[i]);
      }
      assert StripItems(StripItems(items)) == StripItems(items);
    case Obj(fields) =>
      var s := StripFields(fields);
      forall x | x in s ensures Kept(x) && ProtoFree(x.value) && Strip(x.value) == x.value {
        StripFieldsMembers(fields, x);
        var i :| 0 <= i < |fields| && Kept(fields[i]) && x == Entry(fields[i].key, Strip(fields[i].value));
        StripProtoFree(fields[i].value);
      }
      StripFieldsOfStripped(s);
    case _ =>
  }

  lemma {:induction false} StripFieldsOfStripped(s: seq<Entry<Value>>)
    requires forall x :: x in s ==> Kept(x) && Strip(x.value) == x.value
    ensures StripFields(s) == s
  {
    if s != [] {
      assert s[0] in s && s == [s[0]] + s[1..];
      StripFieldsOfStripped(s[1..]);
    }
  }

  lemma {:induction false} DropNullIsValue(v: Value)
    requires IsValue(v)
    ensures IsValue(DropNull(v))
    decreases v
  {
    match v
    case Arr(items) =>
      forall i | 0 <= i < |items| ensures IsValue(DropNull(items[i])) {
        DropNullIsValue(items[i]);
      }
    case Obj(fields) =>
      DropNullUnique(fields);
      forall x | x in DropNullFields(fields) ensures IsValue(x.value) {
        DropNullFieldsMembers(fields, x);
        var i :| 0 <= i < |fields| && !Nullish(fields[i].value) && x == Entry(fields[i].key, DropNull(fields[i].value));
        DropNullIsValue(fields[i].value);
      }
    case _ =>
  }

  lemma {:induction false} DropNullUnique(fields: seq<Entry<Value>>)
    requires UniqueKeys(fields)
    ensures UniqueKeys(DropNullFields(fields))
  {
    if fields != [] {
      DropNullUnique(fields[1..]);
      forall x | x in DropNullFields(fields[1..]) ensures x.key != fields[0].key {
        DropNullFieldsMembers(fields[1..], x);
      }
    }
  }

  // ---------------------------------------------------------------- bodies of JavaScript values

  /**
   Each field is kept exactly when the documentation keeps it, which drops null JSON and nothing else, and an
   object with a `toJSON` has the own fields of its JSON.
   */
  ghost predicate ReadsAsDocumented(v: JsValue) {
    match v
    case Scalar(_) => true
    case List(items) => forall i :: 0 <= i < |items| ==> ReadsAsDocumented(items[i])
    case Dict(fields) =>
      forall i :: 0 <= i < |fields| ==>
        && (KeepsField(fields[i]) <==> !Nullish(JsonOf(fields[i].value)))
        && (KeepsField(fields[i]) ==> ReadsAsDocumented(fields[i].value))
    case Exotic(fields, json) => SameJson(DropNull(json), Strip(Obj(OwnFields(fields))))
  }

  /** `sortValue` keeps the field: it looks at the value itself, and the assignment loses `__proto__`. */
  predicate KeepsField(e: Entry<JsValue>) {
    Kept(Entry(e.key, OwnKeys(e.value)))
  }

  ghost predicate FieldMeets(f: Entry<Value>, g: Entry<Value>) {
    (Kept(f) <==> !Nullish(g.value)) && (Kept(f) ==> SameJson(DropNull(g.value), Strip(f.value)))
  }

  lemma FieldOfBoth(fs: seq<Entry<Value>>, gs: seq<Entry<Value>>, i: nat)
    requires SameKeys(fs, gs) && UniqueKeys(fs) && i < |fs|
    requires SameJson(Obj(DropNullFields(gs)), Obj(StripFields(fs)))
    ensures FieldMeets(fs[i], gs[i])
  {
    var left, right := DropNullFields(gs), StripFields(fs);
    assert fs[i] in fs && gs[i] in gs;
    if Kept(fs[i]) {
      var y := Entry(fs[i].key, Strip(fs[i].value));
      StripFieldsMembers(fs, y);
      var j :| 0 <= j < |right| && right[j] == y;
      assert IsTwinOf(left, right[j]);
      var k :| 0 <= k < |left| && left[k].key == y.key && SameJson(left[k].value, y.value);
      DropNullFieldsMembers(gs, left[k]);
      var g :| g in gs && !Nullish(g.value) && left[k] == Entry(g.key, DropNull(g.value));
      KeyAt(gs, g, i);
    }
    if !Nullish(gs[i].value) {
      var x := Entry(gs[i].key, DropNull(gs[i].value));
      DropNullFieldsMembers(gs, x);
      var k :| 0 <= k < |left| && left[k] == x;
      assert HasTwin(left[k], right);
      var j :| 0 <= j < |right| && right[j].key == x.key && SameJson(x.value, right[j].value);
      StripFieldsMembers(fs, right[j]);
      var f :| f in fs && Kept(f) && right[j] == Entry(f.key, Strip(f.value));
      KeyAt(fs, f, i);
    }
  }

  lemma KeyAt(fs: seq<Entry<Value>>, f: Entry<Value>, i: nat)
    requires UniqueKeys(fs) && f in fs && i < |fs| && fs[i].key == f.key
    ensures fs[i] == f
  {
    var k :| 0 <= k < |fs| && fs[k] == f;
  }

  lemma LeftMeets(fs: seq<Entry<Value>>, gs: seq<Entry<Value>>, k: nat)
    requires SameKeys(fs, gs) && (forall i :: 0 <= i < |fs| ==> FieldMeets(fs[i], gs[i])) && k < |DropNullFields(gs)|
    ensures HasTwin(DropNullFields(gs)[k], StripFields(fs))
  {
    var x, right := DropNullFields(gs)[k], StripFields(fs);
    DropNullFieldsMembers(gs, x);
    var i :| 0 <= i < |gs| && !Nullish(gs[i].value) && x == Entry(gs[i].key, DropNull(gs[i].value));
    assert FieldMeets(fs[i], gs[i]) && fs[i] in fs;
    var y := Entry(fs[i].key, Strip(fs[i].value));
    StripFieldsMembers(fs, y);
    var j :| 0 <= j < |right| && right[j] == y;
  }

  lemma RightMeets(fs: seq<Entry<Value>>, gs: seq<Entry<Value>>, j: nat)
    requires SameKeys(fs, gs) && (forall i :: 0 <= i < |fs| ==> FieldMeets(fs[i], gs[i])) && j < |StripFields(fs)|
    ensures IsTwinOf(DropNullFields(gs), StripFields(fs)[j])
  {
    var left, y := DropNullFields(gs), StripFields(fs)[j];
    StripFieldsMembers(fs, y);
    var i :| 0 <= i < |fs| && Kept(fs[i]) && y == Entry(fs[i].key, Strip(fs[i].value));
    assert FieldMeets(fs[i], gs[i]) && gs[i] in gs;
    var x := Entry(gs[i].key, DropNull(gs[i].value));
    DropNullFieldsMembers(gs, x);
    var k :| 0 <= k < |left| && left[k] == x;
  }

  lemma FieldsOfBothIff(fs: seq<Entry<Value>>, gs: seq<Entry<Value>>)
    requires SameKeys(fs, gs) && UniqueKeys(fs)
    ensures SameJson(Obj(DropNullFields(gs)), Obj(StripFields(fs))) <==> forall i :: 0 <= i < |fs| ==> FieldMeets(fs[i], gs[i])
  {
    if SameJson(Obj(DropNullFields(gs)), Obj(StripFields(fs))) {
      forall i | 0 <= i < |fs| ensures FieldMeets(fs[i], gs[i]) {
        FieldOfBoth(fs, gs, i);
      }
    } else if forall i :: 0 <= i < |fs| ==> FieldMeets(fs[i], gs[i]) {
      forall k | 0 <= k < |DropNullFields(gs)| ensures HasTwin(DropNullFields(gs)[k], StripFields(fs)) {
        LeftMeets(fs, gs, k);
      }
      forall j | 0 <= j < |StripFields(fs)| ensures IsTwinOf(DropNullFields(gs), StripFields(fs)[j]) {
        RightMeets(fs, gs, j);
      }
      assert false;
    }
  }

  /** What `sortValue` keeps of a body is its documented reading. */
  ghost predicate SameReading(v: JsValue) {
    SameJson(DropNull(JsonOf(v)), Strip(OwnKeys(v)))
  }

  /** A body reads as documented exactly when what `sortValue` keeps of it is its documented reading. */
  lemma {:induction false} ReadsIff(v: JsValue)
    requires IsJs(v)
    ensures SameReading(v) <==> ReadsAsDocumented(v)
    decreases v
  {
    match v
    case Scalar(_) =>
    case List(items) =>
      forall i | 0 <= i < |items|
        ensures SameReading(items[i]) <==> ReadsAsDocumented(items[i])
      {
        ReadsIff(items[i]);
      }
      ListReadsIff(items);
    case Dict(fields) =>
      forall i | 0 <= i < |fields|
        ensures SameReading(fields[i].value) <==> ReadsAsDocumented(fields[i].value)
      {
        ReadsIff(fields[i].value);
      }
      DictReadsIff(fields);
    case Exotic(_, _) =>
  }

  lemma ListReadsIff(items: seq<JsValue>)
    requires forall i :: 0 <= i < |items| ==> (SameReading(items[i]) <==> ReadsAsDocumented(items[i]))
    ensures SameReading(List(items)) <==> ReadsAsDocumented(List(items))
  {
    var json, own := DropNullItems(JsonItems(items)), StripItems(OwnItems(items));
    assert forall i :: 0 <= i < |items| ==> json[i] == DropNull(JsonOf(items[i])) && own[i] == Strip(OwnKeys(items[i]));
  }

  lemma DictReadsIff(fields: seq<Entry<JsValue>>)
    requires UniqueKeys(fields)
    requires forall i :: 0 <= i < |fields| ==>
               (SameReading(fields[i].value) <==> ReadsAsDocumented(fields[i].value))
    ensures SameReading(Dict(fields)) <==> ReadsAsDocumented(Dict(fields))
  {
    var own, json := OwnFields(fields), JsonFields(fields);
    FieldsOfBothIff(own, json);
    assert forall i :: 0 <= i < |fields| ==> own[i] == Entry(fields[i].key, OwnKeys(fields[i].value));
  }

  lemma SameThroughout(a: Value, b: Value, c: Value)
    requires IsValue(a) && IsValue(b) && IsValue(c) && SameJson(a, b)
    ensures SameJson(a, c) <==> SameJson(b, c)
  {
    SameCanonEqual(SortOrder, a, b);
    if SameJson(a, c) {
      SameCanonEqual(SortOrder, a, c);
      CanonEqualSame(SortOrder, b, c);
    } else if SameJson(b, c) {
      SameCanonEqual(SortOrder, b, c);
      CanonEqualSame(SortOrder, a, c);
    }
  }

  /** For one pair of bodies, the second free of `__proto__`. */
  ghost predicate ContractHolds(v: JsValue, w: Value) {
    Canonicalize(OwnKeys(v)) == Canonicalize(w) <==> SameJson(DropNull(JsonOf(v)), DropNull(w))
  }

  lemma ContractAgainst(v: JsValue, w: Value)
    requires IsJs(v) && v != Scalar(Undefined) && IsValue(w) && !w.Undefined? && ProtoFree(w)
    ensures ContractHolds(v, w) <==> (SameJson(Strip(OwnKeys(v)), DropNull(w)) <==> SameJson(DropNull(JsonOf(v)), DropNull(w)))
  {
    ViewsAreValues(v);
    CanonicalEqualIffSame(OwnKeys(v), w);
    ProtoFreeStrip(w);
  }

  lemma ReadingContract(v: JsValue, w: Value)
    requires IsJs(v) && v != Scalar(Undefined) && ReadsAsDocumented(v) && IsValue(w) && !w.Undefined? && ProtoFree(w)
    ensures ContractHolds(v, w)
  {
    ViewsAreValues(v);
    ReadsIff(v);
    ContractAgainst(v, w);
    StripIsValue(OwnKeys(v));
    DropNullIsValue(JsonOf(v));
    DropNullIsValue(w);
    SameThroughout(DropNull(JsonOf(v)), Strip(OwnKeys(v)), DropNull(w));
  }

  lemma StrippedTwin(v: JsValue)
    requires IsJs(v) && v != Scalar(Undefined) && !ReadsAsDocumented(v)
    ensures var w := Strip(OwnKeys(v)); IsValue(w) && !w.Undefined? && ProtoFree(w) && !ContractHolds(v, w)
  {
    var w := Strip(OwnKeys(v));
    ViewsAreValues(v);
    StripIsValue(OwnKeys(v));
    StripProtoFree(OwnKeys(v));
    ContractAgainst(v, w);
    ReadsIff(v);
    ProtoFreeStrip(w);
    CanonEqualSame(SortOrder, w, w);
  }

  /**
   The documented contract (one text exactly for bodies with one JSON up to key order and dropped nulls) against
   every JSON body without a `__proto__` field holds for `v` if and only if `v` reads as documented.
   */
  lemma DocumentedContractIff(v: JsValue)
    requires IsJs(v) && v != Scalar(Undefined)
    ensures ReadsAsDocumented(v) <==>
            forall w :: IsValue(w) && !w.Undefined? && ProtoFree(w) ==> ContractHolds(v, w)
  {
    if ReadsAsDocumented(v) {
      forall w | IsValue(w) && !w.Undefined? && ProtoFree(w) ensures ContractHolds(v, w) {
        ReadingContract(v, w);
      }
    } else {
      StrippedTwin(v);
    }
  }

  /** Any two dates get one fingerprint, that of `{}`; the documentation tells their texts apart. */
  lemma DatesCollide(iso: Text, later: Text)
    ensures var date, other := Exotic([], Str(iso)), Exotic([], Str(later));
            && Canonicalize(OwnKeys(date)) == Canonicalize(OwnKeys(other)) == Canonicalize(Obj([]))
            && (SameJson(DropNull(JsonOf(date)), DropNull(JsonOf(other))) <==> iso == later)
  {
  }

  /** `{"__proto__": {}}` and `{}` get one fingerprint though their documented readings differ. */
  lemma ProtoCollides()
    ensures Canonicalize(Obj([Entry(PROTO, Obj([]))])) == Canonicalize(Obj([]))
    ensures !SameJson(DropNull(Obj([Entry(PROTO, Obj([]))])), DropNull(Obj([])))
  {
    var fields := [Entry(PROTO, Obj([]))];
    assert fields[1..] == [];
    assert KeptFields(fields) == [];
    DropNullFieldsMembers(fields, Entry(PROTO, DropNull(Obj([]))));
    assert fields[0] in fields;
    var d := DropNullFields(fields);
    assert d != [];
    assert !HasTwin(d[0], []);
  }
}
