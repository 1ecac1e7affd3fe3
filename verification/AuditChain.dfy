/**
 The tamper-evident audit log: `append` picks its predecessor by (created_at, id) descending and chains
 `entry_hash = H(prev_hash | stableStringify(payload))` from a fixed genesis seed.

 The hash and `Date.toISOString` are parameters. Of the hash only the shape of a hex digest is assumed;
 where two different texts would have to collide, the theorems say so and name them.
 */
module AuditChain {
  import opened Options
  import opened Texts
  import opened Json
  import opened CanonicalJson
  import opened StableJson
  import opened JsonColumn
  import opened JsValues
  import opened Uuid

  const GENESIS: Text := Ascii("ftd-audit-genesis-v1")
  const BAR: CodeUnit := 0x7C // a vertical bar

  const ID_KEY: Text := Ascii("id")
  const ACTOR_USER_ID_KEY: Text := Ascii("actorUserId")
  const ACTION_KEY: Text := Ascii("action")
  const RESOURCE_TYPE_KEY: Text := Ascii("resourceType")
  const RESOURCE_ID_KEY: Text := Ascii("resourceId")
  const OUTCOME_KEY: Text := Ascii("outcome")
  const CONTEXT_KEY: Text := Ascii("context")
  const IP_HASH_KEY: Text := Ascii("ipHash")
  const CORRELATION_ID_KEY: Text := Ascii("correlationId")
  const CREATED_AT_KEY: Text := Ascii("createdAt")

  /**
   What a caller of `record` passes, with a context of JavaScript values, and what a row stores, with one of JSON
   values. An absent field and an explicit null are both None.
   */
  datatype AuditEntry<Context> = AuditEntry(
    actorUserId: Option<Text>,
    action: Text,
    resourceType: Text,
    resourceId: Option<Text>,
    outcome: Text, // a text column: the code writes SUCCESS, DENIED or FAIL
    context: Option<Context>,
    ipHash: Option<Text>,
    correlationId: Option<Text>)

  /** A stored row; `entry.context` is what the JSON column holds. */
  datatype Row = Row(id: Text, entry: AuditEntry<Value>, createdAt: int, prevHash: Text, entryHash: Text)

  datatype Env = Env(hash: Text -> Text, iso: int -> Text)

  datatype Log = Log(rows: seq<Row>, clock: Clock)

  const EMPTY_LOG := Log([], INITIAL)

  ghost predicate HexDigest(env: Env) {
    forall t :: |env.hash(t)| == 64 && forall k :: 0 <= k < 64 ==> IsHex(env.hash(t)[k])
  }

  ghost predicate IsoInjective(env: Env) {
    forall a, b :: env.iso(a) == env.iso(b) ==> a == b
  }

  /** What a caller of `record` may pass: an object, with whatever JavaScript values inside. */
  predicate ValidContext(context: Option<JsValue>) {
    context.Some? ==> context.value.Dict? && IsJs(context.value)
  }

  /** The entry as the stable text sees it, by own keys. */
  function Seen(e: AuditEntry<JsValue>): AuditEntry<Value> {
    AuditEntry(e.actorUserId, e.action, e.resourceType, e.resourceId, e.outcome,
               if e.context.Some? then Some(OwnKeys(e.context.value)) else None, e.ipHash, e.correlationId)
  }

  /** What a JSON column may hold, whoever wrote it: any value, JSON null included. */
  predicate AnyContext(context: Option<Value>) {
    context.Some? ==> IsValue(context.value)
  }

  // ---------------------------------------------------------------- the hashed payload

  function Nullable(t: Option<Text>): Value {
    if t.Some? then Str(t.value) else Null
  }

  function ContextValue(context: Option<Value>): Value {
    if context.Some? then context.value else Null
  }

  function PayloadFields(env: Env, id: Text, e: AuditEntry<Value>, createdAt: int): seq<Entry<Value>> {
    [Entry(ID_KEY, Str(id)),
     Entry(ACTOR_USER_ID_KEY, Nullable(e.actorUserId)),
     Entry(ACTION_KEY, Str(e.action)),
     Entry(RESOURCE_TYPE_KEY, Str(e.resourceType)),
     Entry(RESOURCE_ID_KEY, Nullable(e.resourceId)),
     Entry(OUTCOME_KEY, Str(e.outcome)),
     Entry(CONTEXT_KEY, ContextValue(e.context)),
     Entry(IP_HASH_KEY, Nullable(e.ipHash)),
     Entry(CORRELATION_ID_KEY, Nullable(e.correlationId)),
     Entry(CREATED_AT_KEY, Str(env.iso(createdAt)))]
  }

  function Payload(env: Env, id: Text, e: AuditEntry<Value>, createdAt: int): Value {
    Obj(PayloadFields(env, id, e, createdAt))
  }

  function HashedText(prevHash: Text, payload: Value): Text {
    prevHash + [BAR] + StableStringify(payload)
  }

  function ComputeEntryHash(env: Env, prevHash: Text, payload: Value): Text {
    env.hash(HashedText(prevHash, payload))
  }

  // ---------------------------------------------------------------- predecessor and append

  /** Strictly before in `ORDER BY created_at DESC, id DESC`. */
  predicate After(a: Row, b: Row) {
    a.createdAt > b.createdAt || (a.createdAt == b.createdAt && Less(b.id, a.id))
  }

  /** The row the predecessor query returns. */
  function LatestIndex(rows: seq<Row>): (k: nat)
    requires rows != []
    ensures k < |rows|
  {
    if |rows| == 1 then 0
    else
      var k := LatestIndex(rows[..|rows| - 1]);
      if After(rows[|rows| - 1], rows[k]) then |rows| - 1 else k
  }

  function PrevHash(rows: seq<Row>): Text {
    if rows == [] then GENESIS else rows[LatestIndex(rows)].entryHash
  }

  /** The JSON column gives back the clean copy of what JSON sees of the context, in any key order. */
  ghost predicate StoredAs(context: Option<JsValue>, stored: Option<Value>) {
    && (context.None? <==> stored.None?)
    && (stored.Some? ==> IsValue(stored.value) && SameJson(stored.value, Clean(JsonOf(context.value))))
  }

  /** One `append`: two clock readings, the random bytes of the id, and what the column keeps of the context. */
  datatype Append = Append(entry: AuditEntry<JsValue>, idNow: nat, random: seq<byte>, createdAt: int, stored: Option<Value>)

  predicate ValidAppend(clock: Clock, a: Append) {
    && |a.random| == 16 && ValidContext(a.entry.context) && AnyContext(a.stored)
    && ValidClock(clock) && Tick(clock, a.idNow).lastMillis < TWO_48
  }

  function NewRow(env: Env, log: Log, a: Append): Row
    requires ValidAppend(log.clock, a)
  {
    var id := IdText(Tick(log.clock, a.idNow), a.random);
    var prevHash := PrevHash(log.rows);
    Row(id, Seen(a.entry).(context := a.stored), a.createdAt, prevHash,
        ComputeEntryHash(env, prevHash, Payload(env, id, Seen(a.entry), a.createdAt)))
  }

  function AppendRow(env: Env, log: Log, a: Append): Log
    requires ValidAppend(log.clock, a)
  {
    Log(log.rows + [NewRow(env, log, a)], Tick(log.clock, a.idNow))
  }

  /** The row holds what the caller passed, field by field, and the reading of the clock. */
  predicate Records(row: Row, a: Append) {
    && row.entry.actorUserId == a.entry.actorUserId
    && row.entry.action == a.entry.action
    && row.entry.resourceType == a.entry.resourceType
    && row.entry.resourceId == a.entry.resourceId
    && row.entry.outcome == a.entry.outcome
    && row.entry.context == a.stored
    && row.entry.ipHash == a.entry.ipHash
    && row.entry.correlationId == a.entry.correlationId
    && row.createdAt == a.createdAt
  }

  class AuditService {
    const env: Env
    var rows: seq<Row>
    const ids: UuidGenerator

    ghost predicate Valid() reads this, ids { ids.Valid() }

    ghost function State(): Log reads this, ids { Log(rows, ids.State()) }

    constructor (env: Env)
      ensures Valid() && State() == EMPTY_LOG && this.env == env && fresh(ids)
    {
      this.env := env;
      rows := [];
      ids := new UuidGenerator();
    }

    /** `append`, run under the advisory lock. */
    method AppendEntry(a: Append)
      requires Valid() && ValidAppend(State().clock, a)
      modifies this, ids
      ensures Valid() && State() == AppendRow(env, old(State()), a)
      ensures |rows| == |old(rows)| + 1 && rows[..|old(rows)|] == old(rows) && Records(rows[|old(rows)|], a)
    {
      var prevHash := GENESIS;
      if rows != [] {
        prevHash := rows[LatestIndex(rows)].entryHash;
      }
      var id := ids.Next(a.idNow, a.random);
      var entryHash := ComputeEntryHash(env, prevHash, Payload(env, id, Seen(a.entry), a.createdAt));
      rows := rows + [Row(id, Seen(a.entry).(context := a.stored), a.createdAt, prevHash, entryHash)];
    }
  }

  lemma AfterTransitive(a: Row, b: Row, c: Row)
    requires After(a, b) && After(b, c)
    ensures After(a, c)
  {
    if a.createdAt == b.createdAt == c.createdAt {
      LessTransitive(c.id, b.id, a.id);
    }
  }

  /** The query returns the maximum of (created_at, id), as long as ids are distinct. */
  lemma {:induction false} LatestIsMaximum(rows: seq<Row>, i: nat)
    requires i < |rows| && forall j, k :: 0 <= j < k < |rows| ==> rows[j].id != rows[k].id
    ensures i == LatestIndex(rows) || After(rows[LatestIndex(rows)], rows[i])
    decreases |rows|
  {
    var n := |rows| - 1;
    if n > 0 {
      var front := rows[..n];
      var k := LatestIndex(front);
      LessTotal(rows[n].id, rows[k].id);
      if i < n {
        LatestIsMaximum(front, i);
        if After(rows[n], rows[k]) && i != k {
          AfterTransitive(rows[n], rows[k], rows[i]);
        }
      }
    }
  }

  // ---------------------------------------------------------------- verification of a stored log

  function PayloadOf(env: Env, row: Row): Value {
    Payload(env, row.id, row.entry, row.createdAt)
  }

  function TextOf(env: Env, row: Row): Text {
    HashedText(row.prevHash, PayloadOf(env, row))
  }

  /** The row's hash recomputes from what is stored. */
  predicate RowVerifies(env: Env, row: Row) {
    row.entryHash == ComputeEntryHash(env, row.prevHash, PayloadOf(env, row))
  }

  /** What row `i` of a linear chain links to. */
  function Link(rows: seq<Row>, i: nat): Text
    requires i < |rows|
  {
    if i == 0 then GENESIS else rows[i - 1].entryHash
  }

  predicate Linked(rows: seq<Row>) {
    forall i {:trigger Link(rows, i)} :: 0 <= i < |rows| ==> rows[i].prevHash == Link(rows, i)
  }

  predicate Verifies(env: Env, rows: seq<Row>) {
    Linked(rows) && forall i {:trigger RowVerifies(env, rows[i])} :: 0 <= i < |rows| ==> RowVerifies(env, rows[i])
  }

  /** Ascending in (created_at, id): the order in which a verifier walks the table. */
  predicate Ascending(rows: seq<Row>) {
    forall i, j :: 0 <= i < j < |rows| ==> After(rows[j], rows[i])
  }

  // ---------------------------------------------------------------- the payload holds every field

  /** The ten keys are told apart by their lengths and first letters. */
  function KeyMark(i: nat): (nat, CodeUnit)
    requires i < 10
  {
    if i == 0 then (2, 0x69) else if i == 1 then (11, 0x61) else if i == 2 then (6, 0x61) else if i == 3 then (12, 0x72)
    else if i == 4 then (10, 0x72) else if i == 5 then (7, 0x6F) else if i == 6 then (7, 0x63) else if i == 7 then (6, 0x69)
    else if i == 8 then (13, 0x63) else (9, 0x63)
  }

  predicate HasPayloadKeys(fs: seq<Entry<Value>>) {
    |fs| == 10 && forall i :: 0 <= i < 10 ==> |fs[i].key| == KeyMark(i).0 && fs[i].key[0] == KeyMark(i).1
  }

  lemma PayloadKeys(env: Env, id: Text, e: AuditEntry<Value>, createdAt: int)
    ensures HasPayloadKeys(PayloadFields(env, id, e, createdAt))
  {
    var fs := PayloadFields(env, id, e, createdAt);
    assert |fs[0].key| == 2 && |fs[1].key| == 11 && |fs[2].key| == 6 && |fs[3].key| == 12 && |fs[4].key| == 10;
    assert |fs[5].key| == 7 && |fs[6].key| == 7 && |fs[7].key| == 6 && |fs[8].key| == 13 && |fs[9].key| == 9;
  }

  lemma SlotOf(fs: seq<Entry<Value>>, gs: seq<Entry<Value>>, i: nat, j: nat)
    requires HasPayloadKeys(fs) && HasPayloadKeys(gs) && i < 10 && j < 10 && fs[i].key == gs[j].key
    ensures i == j
  {
    assert KeyMark(i) == KeyMark(j);
  }

  lemma PayloadIsValue(env: Env, id: Text, e: AuditEntry<Value>, createdAt: int)
    requires AnyContext(e.context)
    ensures IsValue(Payload(env, id, e, createdAt))
  {
    var fs := PayloadFields(env, id, e, createdAt);
    PayloadKeys(env, id, e, createdAt);
    forall i, j | 0 <= i < j < 10 ensures fs[i].key != fs[j].key {
      if fs[i].key == fs[j].key {
        SlotOf(fs, fs, i, j);
      }
    }
    forall i | 0 <= i < 10 ensures IsValue(fs[i].value) {
      if i == 6 {
        assert fs[i].value == ContextValue(e.context);
      } else {
        assert fs[i].value.Str? || fs[i].value.Null?;
      }
    }
  }

  /** Equal in every hashed field; contexts up to key order. */
  ghost predicate SameEntry(a: AuditEntry<Value>, b: AuditEntry<Value>) {
    && a.actorUserId == b.actorUserId && a.action == b.action && a.resourceType == b.resourceType
    && a.resourceId == b.resourceId && a.outcome == b.outcome && a.ipHash == b.ipHash
    && a.correlationId == b.correlationId && SameJson(ContextValue(a.context), ContextValue(b.context))
  }

  lemma SlotSame(fs: seq<Entry<Value>>, gs: seq<Entry<Value>>, i: nat)
    requires HasPayloadKeys(fs) && HasPayloadKeys(gs) && i < 10 && HasTwin(fs[i], gs)
    ensures SameJson(fs[i].value, gs[i].value)
  {
    var j :| 0 <= j < |gs| && gs[j].key == fs[i].key && SameJson(fs[i].value, gs[j].value);
    SlotOf(fs, gs, i, j);
  }

  lemma NullableInjective(a: Option<Text>, b: Option<Text>)
    requires SameJson(Nullable(a), Nullable(b))
    ensures a == b
  {
  }

  /** Which field each slot of the payload holds. */
  predicate Slots(fs: seq<Entry<Value>>, id: Text, e: AuditEntry<Value>, createdAt: Text) {
    && |fs| == 10
    && fs[0].value == Str(id) && fs[1].value == Nullable(e.actorUserId) && fs[2].value == Str(e.action)
    && fs[3].value == Str(e.resourceType) && fs[4].value == Nullable(e.resourceId)
    && fs[5].value == Str(e.outcome) && fs[6].value == ContextValue(e.context)
    && fs[7].value == Nullable(e.ipHash) && fs[8].value == Nullable(e.correlationId)
    && fs[9].value == Str(createdAt)
  }

  lemma PayloadSlots(env: Env, id: Text, e: AuditEntry<Value>, createdAt: int)
    ensures Slots(PayloadFields(env, id, e, createdAt), id, e, env.iso(createdAt))
  {
  }

  lemma SlotsAgree(fs: seq<Entry<Value>>, gs: seq<Entry<Value>>, id: Text, e: AuditEntry<Value>, t: Text,
                   id': Text, e': AuditEntry<Value>, t': Text)
    requires Slots(fs, id, e, t) && Slots(gs, id', e', t')
    requires forall i :: 0 <= i < 10 ==> SameJson(fs[i].value, gs[i].value)
    ensures id == id' && SameEntry(e, e') && t == t'
  {
    assert SameJson(fs[0].value, gs[0].value) && SameJson(fs[2].value, gs[2].value) && SameJson(fs[3].value, gs[3].value);
    assert SameJson(fs[5].value, gs[5].value) && SameJson(fs[6].value, gs[6].value) && SameJson(fs[9].value, gs[9].value);
    assert SameJson(fs[1].value, gs[1].value) && SameJson(fs[4].value, gs[4].value);
    assert SameJson(fs[7].value, gs[7].value) && SameJson(fs[8].value, gs[8].value);
    NullableInjective(e.actorUserId, e'.actorUserId);
    NullableInjective(e.resourceId, e'.resourceId);
    NullableInjective(e.ipHash, e'.ipHash);
    NullableInjective(e.correlationId, e'.correlationId);
  }

  lemma ObjectsAgree(fs: seq<Entry<Value>>, gs: seq<Entry<Value>>)
    requires HasPayloadKeys(fs) && HasPayloadKeys(gs) && SameJson(Obj(fs), Obj(gs))
    ensures forall i :: 0 <= i < 10 ==> SameJson(fs[i].value, gs[i].value)
  {
    forall i | 0 <= i < 10 ensures SameJson(fs[i].value, gs[i].value) {
      SlotSame(fs, gs, i);
    }
  }

  /** Payloads equal up to key order agree in every field that is hashed. */
  lemma SamePayloadFields(env: Env, id: Text, e: AuditEntry<Value>, createdAt: int,
                          id': Text, e': AuditEntry<Value>, createdAt': int)
    requires SameJson(Payload(env, id, e, createdAt), Payload(env, id', e', createdAt'))
    ensures id == id' && SameEntry(e, e') && env.iso(createdAt) == env.iso(createdAt')
  {
    var p, q := Payload(env, id, e, createdAt), Payload(env, id', e', createdAt');
    PayloadKeys(env, id, e, createdAt);
    PayloadKeys(env, id', e', createdAt');
    ObjectsAgree(p.fields, q.fields);
    PayloadSlots(env, id, e, createdAt);
    PayloadSlots(env, id', e', createdAt');
    SlotsAgree(p.fields, q.fields, id, e, env.iso(createdAt), id', e', env.iso(createdAt'));
  }

  lemma PointwiseSame(fs: seq<Entry<Value>>, gs: seq<Entry<Value>>)
    requires |fs| == |gs|
    requires forall i :: 0 <= i < |fs| ==> fs[i].key == gs[i].key && SameJson(fs[i].value, gs[i].value)
    ensures SameJson(Obj(fs), Obj(gs))
  {
    assert forall i :: 0 <= i < |fs| ==> HasTwin(fs[i], gs);
    assert forall j :: 0 <= j < |gs| ==> IsTwinOf(fs, gs[j]);
  }

  lemma NullableSame(a: Option<Text>)
    ensures SameJson(Nullable(a), Nullable(a))
  {
  }

  lemma SlotsSame(fs: seq<Entry<Value>>, gs: seq<Entry<Value>>, id: Text, e: AuditEntry<Value>, e': AuditEntry<Value>, t: Text)
    requires Slots(fs, id, e, t) && Slots(gs, id, e', t) && SameEntry(e, e')
    ensures forall i :: 0 <= i < 10 ==> SameJson(fs[i].value, gs[i].value)
  {
    NullableSame(e.actorUserId);
    NullableSame(e.resourceId);
    NullableSame(e.ipHash);
    NullableSame(e.correlationId);
  }

  lemma SameFieldsPayload(env: Env, id: Text, e: AuditEntry<Value>, e': AuditEntry<Value>, createdAt: int)
    requires SameEntry(e, e')
    ensures SameJson(Payload(env, id, e, createdAt), Payload(env, id, e', createdAt))
  {
    var p, q := Payload(env, id, e, createdAt), Payload(env, id, e', createdAt);
    PayloadSlots(env, id, e, createdAt);
    PayloadSlots(env, id, e', createdAt);
    SlotsSame(p.fields, q.fields, id, e, e', env.iso(createdAt));
    SameKeys(env, id, e, e', createdAt);
    PointwiseSame(p.fields, q.fields);
  }

  lemma SameKeys(env: Env, id: Text, e: AuditEntry<Value>, e': AuditEntry<Value>, createdAt: int)
    ensures var fs, gs := PayloadFields(env, id, e, createdAt), PayloadFields(env, id, e', createdAt);
            |fs| == |gs| == 10 && forall i :: 0 <= i < 10 ==> fs[i].key == gs[i].key
  {
  }
}
