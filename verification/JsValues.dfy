/**
 JavaScript values as a caller passes them. Code that walks `Object.keys` sees the own keys of every object;
 `JSON.stringify` sees what `toJSON` gives for an object that has one (a date, a decimal) and the primitive for a
 boxed one. The two views differ on such objects alone. Here they are exact: an array has no holes, and big
 integers, for which both throw, are not values.
 */
module JsValues {
  import opened Options
  import opened Texts
  import opened Json
  import opened CanonicalJson
  import opened JsonColumn

  datatype JsValue =
    | Scalar(value: Value) // functions and symbols, which JSON leaves out, are `undefined`
    | List(items: seq<JsValue>)
    | Dict(fields: seq<Entry<JsValue>>)
    | Exotic(fields: seq<Entry<JsValue>>, json: Value) // own keys, and the plain value JSON prints instead

  predicate IsScalar(v: Value) {
    !v.Arr? && !v.Obj?
  }

  predicate IsJs(v: JsValue) {
    match v
    case Scalar(x) => IsScalar(x) && IsValue(x)
    case List(items) => forall i :: 0 <= i < |items| ==> IsJs(items[i])
    case Dict(fields) => UniqueKeys(fields) && forall i :: 0 <= i < |fields| ==> IsJs(fields[i].value)
    case Exotic(fields, json) =>
      && UniqueKeys(fields) && (forall i :: 0 <= i < |fields| ==> IsJs(fields[i].value))
      && IsPlain(json) && IsValue(json)
  }

  function OwnFields(fields: seq<Entry<JsValue>>): (r: seq<Entry<Value>>)
    ensures |r| == |fields|
    ensures forall i :: 0 <= i < |fields| ==> r[i] == Entry(fields[i].key, OwnKeys(fields[i].value))
    decreases fields, 0
  {
    if fields == [] then [] else [Entry(fields[0].key, OwnKeys(fields[0].value))] + OwnFields(fields[1..])
  }

  function OwnItems(items: seq<JsValue>): (r: seq<Value>)
    ensures |r| == |items|
    ensures forall i :: 0 <= i < |items| ==> r[i] == OwnKeys(items[i])
    decreases items, 0
  {
    if items == [] then [] else [OwnKeys(items[0])] + OwnItems(items[1..])
  }

  /** What a walk over `Object.keys` sees. */
  function OwnKeys(v: JsValue): Value
    decreases v, 1
  {
    match v
    case Scalar(x) => x
    case List(items) => Arr(OwnItems(items))
    case Dict(fields) => Obj(OwnFields(fields))
    case Exotic(fields, _) => Obj(OwnFields(fields))
  }

  function JsonFields(fields: seq<Entry<JsValue>>): (r: seq<Entry<Value>>)
    ensures |r| == |fields|
    ensures forall i :: 0 <= i < |fields| ==> r[i] == Entry(fields[i].key, JsonOf(fields[i].value))
    decreases fields, 0
  {
    if fields == [] then [] else [Entry(fields[0].key, JsonOf(fields[0].value))] + JsonFields(fields[1..])
  }

  function JsonItems(items: seq<JsValue>): (r: seq<Value>)
    ensures |r| == |items|
    ensures forall i :: 0 <= i < |items| ==> r[i] == JsonOf(items[i])
    decreases items, 0
  {
    if items == [] then [] else [JsonOf(items[0])] + JsonItems(items[1..])
  }

  /** What `JSON.stringify` sees. */
  function JsonOf(v: JsValue): Value
    decreases v, 1
  {
    match v
    case Scalar(x) => x
    case List(items) => Arr(JsonItems(items))
    case Dict(fields) => Obj(JsonFields(fields))
    case Exotic(_, json) => json
  }

  lemma {:induction false} ViewsAreValues(v: JsValue)
    requires IsJs(v)
    ensures IsValue(OwnKeys(v)) && IsValue(JsonOf(v))
    decreases v
  {
    match v
    case Scalar(_) =>
    case List(items) =>
      forall i | 0 <= i < |items| ensures IsValue(OwnKeys(items[i])) && IsValue(JsonOf(items[i])) {
        ViewsAreValues(items[i]);
      }
    case Dict(fields) =>
      forall i | 0 <= i < |fields| ensures IsValue(OwnKeys(fields[i].value)) && IsValue(JsonOf(fields[i].value)) {
        ViewsAreValues(fields[i].value);
      }
    case Exotic(fields, _) =>
      forall i | 0 <= i < |fields| ensures IsValue(OwnKeys(fields[i].value)) {
        ViewsAreValues(fields[i].value);
      }
  }

  // ---------------------------------------------------------------- when the two texts carry one value

  /** No object field holds `undefined`, and `toJSON` gives a copy of the own fields wherever there is one. */
  ghost predicate Kept(v: JsValue) {
    match v
    case Scalar(_) => true
    case List(items) => forall i :: 0 <= i < |items| ==> Kept(items[i])
    case Dict(fields) => forall i :: 0 <= i < |fields| ==> fields[i].value != Scalar(Undefined) && Kept(fields[i].value)
    case Exotic(fields, json) => SameJson(Obj(OwnFields(fields)), json)
  }

  lemma {:induction false} CleanOfPlain(v: Value)
    requires IsPlain(v)
    ensures Clean(v) == v
    decreases v
  {
    match v
    case Arr(items) =>
      forall i | 0 <= i < |items| ensures CleanItems(items)[i] == items[i] {
        CleanOfPlain(items[i]);
      }
    case Obj(fields) =>
      forall i | 0 <= i < |fields| ensures Clean(fields[i].value) == fields[i].value && !fields[i].value.Undefined? {
        CleanOfPlain(fields[i].value);
      }
      CleanFieldsOfClean(fields);
    case _ =>
  }

  lemma {:induction false} CleanFieldsOfClean(fields: seq<Entry<Value>>)
    requires forall i :: 0 <= i < |fields| ==> Clean(fields[i].value) == fields[i].value && !fields[i].value.Undefined?
    ensures CleanFields(fields) == fields
  {
    if fields != [] {
      CleanFieldsOfClean(fields[1..]);
      assert fields == [fields[0]] + fields[1..];
    }
  }

  /**
   The value seen by key and the value JSON carries, clean of `undefined` fields, are the same up to key order
   exactly when the value is kept.
   */
  lemma {:induction false} KeptIff(v: JsValue)
    requires IsJs(v)
    ensures SameJson(OwnKeys(v), Clean(JsonOf(v))) <==> Kept(v)
    decreases v
  {
    match v
    case Scalar(_) =>
    case List(items) =>
      forall i | 0 <= i < |items| ensures SameJson(OwnKeys(items[i]), Clean(JsonOf(items[i]))) <==> Kept(items[i]) {
        KeptIff(items[i]);
      }
      ListKeptIff(items);
    case Dict(fields) =>
      forall i | 0 <= i < |fields|
        ensures SameJson(OwnKeys(fields[i].value), Clean(JsonOf(fields[i].value))) <==> Kept(fields[i].value)
      {
        KeptIff(fields[i].value);
      }
      DictKeptIff(fields);
    case Exotic(_, json) => CleanOfPlain(json);
  }

  lemma ListKeptIff(items: seq<JsValue>)
    requires forall i :: 0 <= i < |items| ==> (SameJson(OwnKeys(items[i]), Clean(JsonOf(items[i]))) <==> Kept(items[i]))
    ensures SameJson(OwnKeys(List(items)), Clean(JsonOf(List(items)))) <==> Kept(List(items))
  {
    var own, json := OwnItems(items), CleanItems(JsonItems(items));
    assert forall i :: 0 <= i < |items| ==> own[i] == OwnKeys(items[i]) && json[i] == Clean(JsonOf(items[i]));
  }

  lemma DictKeptIff(fields: seq<Entry<JsValue>>)
    requires UniqueKeys(fields) && forall i :: 0 <= i < |fields| ==> IsJs(fields[i].value)
    requires forall i :: 0 <= i < |fields| ==>
               (SameJson(OwnKeys(fields[i].value), Clean(JsonOf(fields[i].value))) <==> Kept(fields[i].value))
    ensures SameJson(OwnKeys(Dict(fields)), Clean(JsonOf(Dict(fields)))) <==> Kept(Dict(fields))
  {
    var own, json := OwnFields(fields), JsonFields(fields);
    forall i | 0 <= i < |fields| ensures json[i].value.Undefined? <==> fields[i].value == Scalar(Undefined) {
      assert IsJs(fields[i].value);
    }
    FieldsMeetIff(own, json);
  }

  /** `JSON.parse(JSON.stringify(v))` is the clean copy of what JSON sees. */
  lemma ParseSent(v: JsValue)
    requires IsJs(v) && v != Scalar(Undefined)
    ensures ParseValue(Stringify(JsonOf(v)).value) == Some(Parsed(Clean(JsonOf(v)), []))
  {
    ViewsAreValues(v);
    ParseStringify(JsonOf(v));
  }

  /** A date: no own keys, and its text for JSON. It is never kept. */
  lemma DateNotKept(iso: Text)
    ensures var date := Exotic([], Str(iso)); IsJs(date) && !Kept(date) && OwnKeys(date) == Obj([]) && JsonOf(date) == Str(iso)
  {
  }
}
