/**
 Key-sorted copies of values and the equality they decide.

 Two orders of object keys occur: the UTF-16 order `Array.prototype.sort` uses, and the order in which
 an object enumerates its own keys (array indices ascending, then the rest). Both compare ranks.
 */
module CanonicalJson {
  import opened Texts
  import opened Json

  datatype KeyOrder = SortOrder | EnumerationOrder

  // "4294967294": the largest array index.
  const LARGEST_INDEX: Text := [0x34, 0x32, 0x39, 0x34, 0x39, 0x36, 0x37, 0x32, 0x39, 0x34]

  predicate IsIndexKey(k: Text) {
    && 0 < |k| <= 10
    && (forall i :: 0 <= i < |k| ==> 0x30 <= k[i] <= 0x39)
    && (k[0] == 0x30 ==> |k| == 1)
    && (|k| == 10 ==> !Less(LARGEST_INDEX, k))
  }

  /**
   Index keys come first; between two of them the shorter, then the lexicographically smaller, is the smaller
   number.
   */
  function Rank(o: KeyOrder, k: Text): Text {
    if o.SortOrder? then k
    else if IsIndexKey(k) then [0, |k| as CodeUnit] + k
    else [1, 0] + k
  }

  predicate Before(o: KeyOrder, a: Text, b: Text) {
    Less(Rank(o, a), Rank(o, b))
  }

  lemma RankInjective(o: KeyOrder, a: Text, b: Text)
    requires Rank(o, a) == Rank(o, b)
    ensures a == b
  {
    if o.EnumerationOrder? {
      assert Rank(o, a)[2..] == a && Rank(o, b)[2..] == b;
    }
  }

  lemma BeforeTotal(o: KeyOrder, a: Text, b: Text)
    ensures Before(o, a, b) || a == b || Before(o, b, a)
  {
    LessTotal(Rank(o, a), Rank(o, b));
    if Rank(o, a) == Rank(o, b) {
      RankInjective(o, a, b);
    }
  }

  lemma BeforeTransitive(o: KeyOrder, a: Text, b: Text, c: Text)
    requires Before(o, a, b) && Before(o, b, c)
    ensures Before(o, a, c)
  {
    LessTransitive(Rank(o, a), Rank(o, b), Rank(o, c));
  }

  lemma BeforeAsymmetric(o: KeyOrder, a: Text, b: Text)
    requires Before(o, a, b)
    ensures a != b && !Before(o, b, a)
  {
    LessAsymmetric(Rank(o, a), Rank(o, b));
  }

  // ---------------------------------------------------------------- sorting by key

  function Insert<V>(o: KeyOrder, e: Entry<V>, s: seq<Entry<V>>): seq<Entry<V>> {
    if s != [] && Before(o, s[0].key, e.key) then [s[0]] + Insert(o, e, s[1..]) else [e] + s
  }

  function SortByKey<V>(o: KeyOrder, s: seq<Entry<V>>): seq<Entry<V>> {
    if s == [] then [] else Insert(o, s[0], SortByKey(o, s[1..]))
  }

  predicate SortedByKey<V>(o: KeyOrder, s: seq<Entry<V>>) {
    forall i, j :: 0 <= i < j < |s| ==> Before(o, s[i].key, s[j].key)
  }

  lemma {:induction false} InsertMembers<V>(o: KeyOrder, e: Entry<V>, s: seq<Entry<V>>, x: Entry<V>)
    ensures x in Insert(o, e, s) <==> x == e || x in s
  {
    if s != [] && Before(o, s[0].key, e.key) {
      InsertMembers(o, e, s[1..], x);
      assert s == [s[0]] + s[1..];
    }
  }

  /** Sorting keeps exactly the entries. */
  lemma {:induction false} SortMembers<V>(o: KeyOrder, s: seq<Entry<V>>, x: Entry<V>)
    ensures x in SortByKey(o, s) <==> x in s
  {
    if s != [] {
      InsertMembers(o, s[0], SortByKey(o, s[1..]), x);
      SortMembers(o, s[1..], x);
      assert s == [s[0]] + s[1..];
    }
  }

  lemma SortedCons<V>(o: KeyOrder, e: Entry<V>, s: seq<Entry<V>>)
    requires SortedByKey(o, s) && (s != [] ==> Before(o, e.key, s[0].key))
    ensures SortedByKey(o, [e] + s)
  {
    forall j | 0 <= j < |s| ensures Before(o, e.key, s[j].key) {
      if j > 0 {
        BeforeTransitive(o, e.key, s[0].key, s[j].key);
      }
    }
  }

  lemma {:induction false} InsertSorted<V>(o: KeyOrder, e: Entry<V>, s: seq<Entry<V>>)
    requires SortedByKey(o, s) && forall x :: x in s ==> x.key != e.key
    ensures SortedByKey(o, Insert(o, e, s))
  {
    if s != [] && Before(o, s[0].key, e.key) {
      InsertSorted(o, e, s[1..]);
      var rest := Insert(o, e, s[1..]);
      InsertMembers(o, e, s[1..], rest[0]);
      SortedCons(o, s[0], rest);
    } else {
      if s != [] {
        assert s[0] in s;
        BeforeTotal(o, e.key, s[0].key);
      }
      SortedCons(o, e, s);
    }
  }

  lemma {:induction false} SortSorts<V>(o: KeyOrder, s: seq<Entry<V>>)
    requires UniqueKeys(s)
    ensures SortedByKey(o, SortByKey(o, s))
  {
    if s != [] {
      SortSorts(o, s[1..]);
      forall x | x in SortByKey(o, s[1..]) ensures x.key != s[0].key {
        SortMembers(o, s[1..], x);
      }
      InsertSorted(o, s[0], SortByKey(o, s[1..]));
    }
  }

  lemma SortedIsUnique<V>(o: KeyOrder, s: seq<Entry<V>>)
    requires SortedByKey(o, s)
    ensures UniqueKeys(s)
  {
    forall i, j | 0 <= i < j < |s| ensures s[i].key != s[j].key {
      BeforeAsymmetric(o, s[i].key, s[j].key);
    }
  }

  /** A sorted sequence is determined by which entries it holds. */
  lemma {:induction false} SortedDetermined<V>(o: KeyOrder, a: seq<Entry<V>>, b: seq<Entry<V>>)
    requires SortedByKey(o, a) && SortedByKey(o, b)
    requires forall x :: x in a <==> x in b
    ensures a == b
    decreases |a|
  {
    if a == [] {
      if b != [] {
        ListedIn(b, 0);
      }
    } else {
      assert a[0] in b && b[0] in a;
      SameHead(o, a, b);
      SortedIsUnique(o, a);
      SortedIsUnique(o, b);
      forall x ensures x in a[1..] <==> x in b[1..] {
        TailMembers(a, x);
        TailMembers(b, x);
      }
      SortedDetermined(o, a[1..], b[1..]);
      assert a == [a[0]] + a[1..] && b == [b[0]] + b[1..];
    }
  }

  lemma ListedIn<V>(s: seq<Entry<V>>, i: int)
    requires 0 <= i < |s|
    ensures s[i] in s
  {
  }

  lemma SameHead<V>(o: KeyOrder, a: seq<Entry<V>>, b: seq<Entry<V>>)
    requires SortedByKey(o, a) && SortedByKey(o, b) && a != [] && b != []
    requires a[0] in b && b[0] in a
    ensures a[0] == b[0]
  {
    var i :| 0 <= i < |b| && b[i] == a[0];
    var j :| 0 <= j < |a| && a[j] == b[0];
    if i > 0 {
      BeforeAsymmetric(o, b[0].key, a[0].key);
    }
  }

  lemma TailMembers<V>(a: seq<Entry<V>>, x: Entry<V>)
    requires UniqueKeys(a) && a != []
    ensures x in a[1..] <==> x in a && x != a[0]
  {
    assert a == [a[0]] + a[1..];
  }

  /** Sorting what is sorted changes nothing. */
  lemma SortOfSorted<V>(o: KeyOrder, s: seq<Entry<V>>)
    requires SortedByKey(o, s)
    ensures SortByKey(o, s) == s
  {
    SortedIsUnique(o, s);
    SortSorts(o, s);
    forall x ensures x in SortByKey(o, s) <==> x in s {
      SortMembers(o, s, x);
    }
    SortedDetermined(o, SortByKey(o, s), s);
  }

  // ---------------------------------------------------------------- canonical values

  function CanonItems(o: KeyOrder, items: seq<Value>): (r: seq<Value>)
    ensures |r| == |items|
    ensures forall i :: 0 <= i < |items| ==> r[i] == Canon(o, items[i])
    decreases items, 0
  {
    if items == [] then [] else [Canon(o, items[0])] + CanonItems(o, items[1..])
  }

  function CanonFields(o: KeyOrder, fields: seq<Entry<Value>>): (r: seq<Entry<Value>>)
    ensures |r| == |fields|
    ensures forall i :: 0 <= i < |fields| ==> r[i] == Entry(fields[i].key, Canon(o, fields[i].value))
    decreases fields, 0
  {
    if fields == [] then []
    else [Entry(fields[0].key, Canon(o, fields[0].value))] + CanonFields(o, fields[1..])
  }

  /** The value as JSON carries it, with every object's keys sorted. */
  function Canon(o: KeyOrder, v: Value): Value
    decreases v, 1
  {
    match v
    case Undefined => Null
    case NonFinite => Null
    case Arr(items) => Arr(CanonItems(o, items))
    case Obj(fields) => Obj(SortByKey(o, CanonFields(o, fields)))
    case _ => v
  }

  predicate PrintsNull(v: Value) {
    v.Null? || v.Undefined? || v.NonFinite?
  }

  /**
   Equal up to the order of object keys, recursively; `undefined`, `null`, NaN and the infinities
   count as one value.
   */
  ghost predicate SameJson(v: Value, w: Value) {
    match v
    case Undefined => PrintsNull(w)
    case Null => PrintsNull(w)
    case NonFinite => PrintsNull(w)
    case Arr(items) =>
      w.Arr? && |items| == |w.items| && forall i :: 0 <= i < |items| ==> SameJson(items[i], w.items[i])
    case Obj(fields) =>
      && w.Obj?
      && (forall i :: 0 <= i < |fields| ==> HasTwin(fields[i], w.fields))
      && (forall j :: 0 <= j < |w.fields| ==> IsTwinOf(fields, w.fields[j]))
    case _ => v == w
  }

  ghost predicate HasTwin(f: Entry<Value>, gs: seq<Entry<Value>>) {
    exists j :: 0 <= j < |gs| && gs[j].key == f.key && SameJson(f.value, gs[j].value)
  }

  ghost predicate IsTwinOf(fs: seq<Entry<Value>>, g: Entry<Value>) {
    exists i :: 0 <= i < |fs| && fs[i].key == g.key && SameJson(fs[i].value, g.value)
  }

  lemma {:induction false} CanonIsPlain(o: KeyOrder, v: Value)
    requires IsValue(v)
    ensures IsPlain(Canon(o, v)) && IsValue(Canon(o, v))
    decreases v
  {
    match v
    case Arr(items) =>
      forall i | 0 <= i < |items| ensures IsPlain(Canon(o, items[i])) && IsValue(Canon(o, items[i])) {
        CanonIsPlain(o, items[i]);
      }
    case Obj(fields) =>
      var s := CanonFields(o, fields);
      forall i | 0 <= i < |fields| ensures IsPlain(s[i].value) && IsValue(s[i].value) {
        CanonIsPlain(o, fields[i].value);
      }
      forall k | 0 <= k < |SortByKey(o, s)| ensures IsPlain(SortByKey(o, s)[k].value) && IsValue(SortByKey(o, s)[k].value) {
        SortMembers(o, s, SortByKey(o, s)[k]);
      }
      SortSorts(o, s);
      SortedIsUnique(o, SortByKey(o, s));
    case _ =>
  }

  /** Equal canonical copies mean equal values up to key order. */
  lemma {:induction false} CanonEqualSame(o: KeyOrder, v: Value, w: Value)
    requires IsValue(v) && IsValue(w) && Canon(o, v) == Canon(o, w)
    ensures SameJson(v, w)
    decreases v, 1
  {
    match v
    case Arr(items) =>
      forall i | 0 <= i < |items| ensures SameJson(items[i], w.items[i]) {
        assert CanonItems(o, items)[i] == CanonItems(o, w.items)[i];
        CanonEqualSame(o, items[i], w.items[i]);
      }
    case Obj(fields) =>
      CanonFieldsEqualSame(o, fields, w.fields);
    case _ =>
  }

  lemma {:induction false} CanonFieldsEqualSame(o: KeyOrder, fields: seq<Entry<Value>>, others: seq<Entry<Value>>)
    requires forall i :: 0 <= i < |fields| ==> IsValue(fields[i].value)
    requires forall j :: 0 <= j < |others| ==> IsValue(others[j].value)
    requires SortByKey(o, CanonFields(o, fields)) == SortByKey(o, CanonFields(o, others))
    ensures forall i :: 0 <= i < |fields| ==> HasTwin(fields[i], others)
    ensures forall j :: 0 <= j < |others| ==> IsTwinOf(fields, others[j])
    decreases fields, 0
  {
    var fs, gs := CanonFields(o, fields), CanonFields(o, others);
    forall i | 0 <= i < |fields| ensures HasTwin(fields[i], others) {
      SortMembers(o, fs, fs[i]);
      SortMembers(o, gs, fs[i]);
      var j :| 0 <= j < |gs| && gs[j] == fs[i];
      CanonEqualSame(o, fields[i].value, others[j].value);
    }
    forall j | 0 <= j < |others| ensures IsTwinOf(fields, others[j]) {
      SortMembers(o, gs, gs[j]);
      SortMembers(o, fs, gs[j]);
      var i :| 0 <= i < |fs| && fs[i] == gs[j];
      CanonEqualSame(o, fields[i].value, others[j].value);
    }
  }

  /** Values equal up to key order have one canonical copy. */
  lemma {:induction false} SameCanonEqual(o: KeyOrder, v: Value, w: Value)
    requires IsValue(v) && IsValue(w) && SameJson(v, w)
    ensures Canon(o, v) == Canon(o, w)
    decreases v, 1
  {
    match v
    case Arr(items) =>
      forall i | 0 <= i < |items| ensures Canon(o, items[i]) == Canon(o, w.items[i]) {
        SameCanonEqual(o, items[i], w.items[i]);
      }
      assert CanonItems(o, items) == CanonItems(o, w.items);
    case Obj(fields) =>
      SameFieldsCanonEqual(o, fields, w.fields);
    case _ =>
  }

  lemma {:induction false} SameFieldsCanonEqual(o: KeyOrder, fields: seq<Entry<Value>>, others: seq<Entry<Value>>)
    requires UniqueKeys(fields) && forall i :: 0 <= i < |fields| ==> IsValue(fields[i].value)
    requires UniqueKeys(others) && forall j :: 0 <= j < |others| ==> IsValue(others[j].value)
    requires forall i :: 0 <= i < |fields| ==> HasTwin(fields[i], others)
    requires forall j :: 0 <= j < |others| ==> IsTwinOf(fields, others[j])
    ensures SortByKey(o, CanonFields(o, fields)) == SortByKey(o, CanonFields(o, others))
    decreases fields, 0
  {
    var fs, gs := CanonFields(o, fields), CanonFields(o, others);
    forall i | 0 <= i < |fs| ensures fs[i] in gs {
      assert HasTwin(fields[i], others);
      var j :| 0 <= j < |others| && others[j].key == fields[i].key && SameJson(fields[i].value, others[j].value);
      SameCanonEqual(o, fields[i].value, others[j].value);
      assert gs[j] == fs[i];
    }
    forall j | 0 <= j < |gs| ensures gs[j] in fs {
      assert IsTwinOf(fields, others[j]);
      var i :| 0 <= i < |fields| && fields[i].key == others[j].key && SameJson(fields[i].value, others[j].value);
      SameCanonEqual(o, fields[i].value, others[j].value);
      assert fs[i] == gs[j];
    }
    SortsEqual(o, fs, gs);
  }

  lemma SortsEqual(o: KeyOrder, fs: seq<Entry<Value>>, gs: seq<Entry<Value>>)
    requires UniqueKeys(fs) && UniqueKeys(gs)
    requires (forall i :: 0 <= i < |fs| ==> fs[i] in gs) && (forall j :: 0 <= j < |gs| ==> gs[j] in fs)
    ensures SortByKey(o, fs) == SortByKey(o, gs)
  {
    SortSorts(o, fs);
    SortSorts(o, gs);
    forall x ensures x in SortByKey(o, fs) <==> x in SortByKey(o, gs) {
      SortMembers(o, fs, x);
      SortMembers(o, gs, x);
    }
    SortedDetermined(o, SortByKey(o, fs), SortByKey(o, gs));
  }

  // ---------------------------------------------------------------- printing commutes with sorting

  lemma {:induction false} MemberTextsInsert(o: KeyOrder, e: Entry<Value>, s: seq<Entry<Value>>)
    requires !e.value.Undefined? && forall i :: 0 <= i < |s| ==> !s[i].value.Undefined?
    ensures MemberTexts(Insert(o, e, s)) == Insert(o, Entry(e.key, Write(e.value)), MemberTexts(s))
  {
    var printed := Entry(e.key, Write(e.value));
    if s == [] {
      assert Insert(o, e, s) == [e];
    } else {
      var first := Entry(s[0].key, Write(s[0].value));
      assert MemberTexts(s) == [first] + MemberTexts(s[1..]);
      assert ([first] + MemberTexts(s[1..]))[1..] == MemberTexts(s[1..]);
      if Before(o, s[0].key, e.key) {
        MemberTextsInsert(o, e, s[1..]);
        assert Insert(o, e, s)[1..] == Insert(o, e, s[1..]);
      } else {
        assert ([e] + s)[1..] == s;
      }
    }
  }

  /** Sorting the members and then printing them is printing them and then sorting. */
  lemma {:induction false} MemberTextsSort(o: KeyOrder, s: seq<Entry<Value>>)
    requires forall i :: 0 <= i < |s| ==> !s[i].value.Undefined?
    ensures MemberTexts(SortByKey(o, s)) == SortByKey(o, MemberTexts(s))
  {
    if s != [] {
      var first := Entry(s[0].key, Write(s[0].value));
      assert MemberTexts(s) == [first] + MemberTexts(s[1..]);
      assert ([first] + MemberTexts(s[1..]))[1..] == MemberTexts(s[1..]);
      MemberTextsSort(o, s[1..]);
      forall i | 0 <= i < |SortByKey(o, s[1..])| ensures !SortByKey(o, s[1..])[i].value.Undefined? {
        SortMembers(o, s[1..], SortByKey(o, s[1..])[i]);
      }
      MemberTextsInsert(o, s[0], SortByKey(o, s[1..]));
    }
  }
}
