/** What a JSON column gives back for a stored value, and when nothing of it is lost. */
module JsonColumn {
  import opened Options
  import opened Texts
  import opened Json
  import opened CanonicalJson

  function CleanItems(items: seq<Value>): (r: seq<Value>)
    ensures |r| == |items|
    ensures forall i :: 0 <= i < |items| ==> r[i] == Clean(items[i])
    decreases items, 0
  {
    if items == [] then [] else [Clean(items[0])] + CleanItems(items[1..])
  }

  function CleanFields(fields: seq<Entry<Value>>): seq<Entry<Value>>
    decreases fields, 0
  {
    if fields == [] then []
    else if fields[0].value.Undefined? then CleanFields(fields[1..])
    else [Entry(fields[0].key, Clean(fields[0].value))] + CleanFields(fields[1..])
  }

  /** The value that survives `JSON.stringify`: fields holding `undefined` are gone. */
  function Clean(v: Value): Value
    decreases v, 1
  {
    match v
    case Undefined => Null
    case NonFinite => Null
    case Arr(items) => Arr(CleanItems(items))
    case Obj(fields) => Obj(CleanFields(fields))
    case _ => v
  }

  lemma {:induction false} CleanFieldsMembers(fields: seq<Entry<Value>>, x: Entry<Value>)
    ensures x in CleanFields(fields) <==>
            exists f :: f in fields && !f.value.Undefined? && x == Entry(f.key, Clean(f.value))
  {
    if fields != [] {
      CleanFieldsMembers(fields[1..], x);
      assert fields == [fields[0]] + fields[1..];
      assert forall f :: f in fields <==> f == fields[0] || f in fields[1..];
    }
  }

  lemma {:induction false} CleanFieldsUnique(fields: seq<Entry<Value>>)
    requires UniqueKeys(fields)
    ensures UniqueKeys(CleanFields(fields))
  {
    if fields != [] {
      CleanFieldsUnique(fields[1..]);
      forall x | x in CleanFields(fields[1..]) ensures x.key != fields[0].key {
        CleanFieldsMembers(fields[1..], x);
      }
    }
  }

  lemma {:induction false} CleanIsPlain(v: Value)
    requires IsValue(v)
    ensures IsPlain(Clean(v)) && IsValue(Clean(v))
    decreases v
  {
    match v
    case Arr(items) =>
      forall i | 0 <= i < |items| ensures IsPlain(Clean(items[i])) && IsValue(Clean(items[i])) {
        CleanIsPlain(items[i]);
      }
    case Obj(fields) =>
      var s := CleanFields(fields);
      CleanFieldsUnique(fields);
      forall k | 0 <= k < |s| ensures IsPlain(s[k].value) && IsValue(s[k].value) {
        CleanFieldsMembers(fields, s[k]);
        var i :| 0 <= i < |fields| && !fields[i].value.Undefined? && s[k] == Entry(fields[i].key, Clean(fields[i].value));
        CleanIsPlain(fields[i].value);
      }
    case _ =>
  }

  lemma {:induction false} WriteClean(v: Value)
    requires IsValue(v)
    ensures Write(Clean(v)) == Write(v)
    decreases v, 1
  {
    match v
    case Arr(items) => WriteCleanItems(items);
    case Obj(fields) => WriteCleanFields(fields);
    case _ =>
  }

  lemma {:induction false} WriteCleanItems(items: seq<Value>)
    requires forall i :: 0 <= i < |items| ==> IsValue(items[i])
    ensures WriteItems(CleanItems(items)) == WriteItems(items)
    decreases items, 0
  {
    if items != [] {
      WriteClean(items[0]);
      WriteCleanItems(items[1..]);
      assert CleanItems(items)[1..] == CleanItems(items[1..]);
    }
  }

  lemma {:induction false} WriteCleanFields(fields: seq<Entry<Value>>)
    requires forall i :: 0 <= i < |fields| ==> IsValue(fields[i].value)
    ensures MemberTexts(CleanFields(fields)) == MemberTexts(fields)
    decreases fields, 0
  {
    if fields != [] {
      WriteCleanFields(fields[1..]);
      if !fields[0].value.Undefined? {
        WriteClean(fields[0].value);
        CleanIsPlain(fields[0].value);
        assert CleanFields(fields)[1..] == CleanFields(fields[1..]);
      }
    }
  }

  /** `JSON.parse(JSON.stringify(v))` is the clean copy of `v`. */
  lemma ParseStringify(v: Value)
    requires IsValue(v) && !v.Undefined?
    ensures ParseValue(Stringify(v).value) == Some(Parsed(Clean(v), []))
  {
    WriteClean(v);
    CleanIsPlain(v);
    ParseWrite(Clean(v), []);
    assert Write(v) + [] == Write(v);
  }

  // ---------------------------------------------------------------- an object and what is left of another

  /** The same keys in the same places. */
  predicate SameKeys(fs: seq<Entry<Value>>, gs: seq<Entry<Value>>) {
    |fs| == |gs| && forall i :: 0 <= i < |fs| ==> fs[i].key == gs[i].key
  }

  lemma TwinMeets(fs: seq<Entry<Value>>, gs: seq<Entry<Value>>, i: nat)
    requires SameKeys(fs, gs) && UniqueKeys(fs) && i < |fs| && HasTwin(fs[i], CleanFields(gs))
    ensures !gs[i].value.Undefined? && SameJson(fs[i].value, Clean(gs[i].value))
  {
    var s := CleanFields(gs);
    var j :| 0 <= j < |s| && s[j].key == fs[i].key && SameJson(fs[i].value, s[j].value);
    CleanFieldsMembers(gs, s[j]);
    var g :| g in gs && !g.value.Undefined? && s[j] == Entry(g.key, Clean(g.value));
    var k :| 0 <= k < |gs| && gs[k] == g;
    assert fs[k].key == fs[i].key;
  }

  lemma TwinThere(fs: seq<Entry<Value>>, gs: seq<Entry<Value>>, i: nat)
    requires SameKeys(fs, gs) && i < |fs| && !gs[i].value.Undefined? && SameJson(fs[i].value, Clean(gs[i].value))
    ensures HasTwin(fs[i], CleanFields(gs))
  {
    var x := Entry(gs[i].key, Clean(gs[i].value));
    assert gs[i] in gs;
    CleanFieldsMembers(gs, x);
    var k :| 0 <= k < |CleanFields(gs)| && CleanFields(gs)[k] == x;
  }

  lemma TwinBack(fs: seq<Entry<Value>>, gs: seq<Entry<Value>>, j: nat)
    requires SameKeys(fs, gs) && j < |CleanFields(gs)|
    requires forall i :: 0 <= i < |fs| ==> SameJson(fs[i].value, Clean(gs[i].value))
    ensures IsTwinOf(fs, CleanFields(gs)[j])
  {
    var y := CleanFields(gs)[j];
    CleanFieldsMembers(gs, y);
    var g :| g in gs && !g.value.Undefined? && y == Entry(g.key, Clean(g.value));
    var k :| 0 <= k < |gs| && gs[k] == g;
    assert fs[k].key == y.key && SameJson(fs[k].value, y.value);
  }

  /** Field by field: one object equals what is left of the other when no field of that is `undefined`. */
  lemma FieldsMeetIff(fs: seq<Entry<Value>>, gs: seq<Entry<Value>>)
    requires SameKeys(fs, gs) && UniqueKeys(fs)
    ensures SameJson(Obj(fs), Clean(Obj(gs))) <==>
            forall i :: 0 <= i < |fs| ==> !gs[i].value.Undefined? && SameJson(fs[i].value, Clean(gs[i].value))
  {
    if SameJson(Obj(fs), Clean(Obj(gs))) {
      forall i | 0 <= i < |fs| ensures !gs[i].value.Undefined? && SameJson(fs[i].value, Clean(gs[i].value)) {
        assert HasTwin(fs[i], CleanFields(gs));
        TwinMeets(fs, gs, i);
      }
    } else if forall i :: 0 <= i < |fs| ==> !gs[i].value.Undefined? && SameJson(fs[i].value, Clean(gs[i].value)) {
      forall i | 0 <= i < |fs| ensures HasTwin(fs[i], CleanFields(gs)) {
        TwinThere(fs, gs, i);
      }
      forall j | 0 <= j < |CleanFields(gs)| ensures IsTwinOf(fs, CleanFields(gs)[j]) {
        TwinBack(fs, gs, j);
      }
      assert false;
    }
  }
}
