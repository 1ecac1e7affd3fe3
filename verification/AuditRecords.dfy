/** What an append stores and hashes, in terms of what the caller passed and of the literal keys of the payload. */
module AuditRecords {
  import opened Options
  import opened Texts
  import opened Json
  import opened StableJson
  import opened JsValues
  import opened Uuid
  import opened AuditChain
  import opened AuditRuns

  /** The new row holds every field the caller passed, under its own name. */
  lemma StoresTheCall(env: Env, log: Log, a: Append)
    requires ValidAppend(log.clock, a)
    ensures var row := NewRow(env, log, a);
            && row.entry.actorUserId == a.entry.actorUserId && row.entry.action == a.entry.action
            && row.entry.resourceType == a.entry.resourceType && row.entry.resourceId == a.entry.resourceId
            && row.entry.outcome == a.entry.outcome && row.entry.context == a.stored
            && row.entry.ipHash == a.entry.ipHash && row.entry.correlationId == a.entry.correlationId
            && row.createdAt == a.createdAt && row.id == IdText(Tick(log.clock, a.idNow), a.random)
    ensures Records(NewRow(env, log, a), a)
  {
  }

  /** A value the payload carries under a key. */
  predicate Carries(payload: Value, key: Text, value: Value) {
    payload.Obj? && Entry(key, value) in payload.fields
  }

  function OrNull(t: Option<Text>): Value {
    match t
    case Some(text) => Str(text)
    case None => Null
  }

  function ContextSeen(context: Option<JsValue>): Value {
    match context
    case Some(value) => OwnKeys(value)
    case None => Null
  }

  /** An object of ten fields that carries under each literal key the caller's field of that name. */
  ghost predicate CarriesTheCall(payload: Value, env: Env, id: Text, e: AuditEntry<JsValue>, createdAt: int) {
    && payload.Obj? && |payload.fields| == 10
    && Carries(payload, Ascii("id"), Str(id))
    && Carries(payload, Ascii("actorUserId"), OrNull(e.actorUserId))
    && Carries(payload, Ascii("action"), Str(e.action))
    && Carries(payload, Ascii("resourceType"), Str(e.resourceType))
    && Carries(payload, Ascii("resourceId"), OrNull(e.resourceId))
    && Carries(payload, Ascii("outcome"), Str(e.outcome))
    && Carries(payload, Ascii("context"), ContextSeen(e.context))
    && Carries(payload, Ascii("ipHash"), OrNull(e.ipHash))
    && Carries(payload, Ascii("correlationId"), OrNull(e.correlationId))
    && Carries(payload, Ascii("createdAt"), Str(env.iso(createdAt)))
  }

  lemma FieldsAreIn(env: Env, id: Text, e: AuditEntry<Value>, createdAt: int)
    ensures var fs := PayloadFields(env, id, e, createdAt); |fs| == 10 && forall i :: 0 <= i < 10 ==> fs[i] in fs
  {
  }

  lemma FirstThree(env: Env, id: Text, e: AuditEntry<JsValue>, createdAt: int)
    ensures var payload := Payload(env, id, Seen(e), createdAt);
            && Carries(payload, Ascii("id"), Str(id))
            && Carries(payload, Ascii("actorUserId"), OrNull(e.actorUserId))
            && Carries(payload, Ascii("action"), Str(e.action))
  {
    FieldsAreIn(env, id, Seen(e), createdAt);
    var fs := PayloadFields(env, id, Seen(e), createdAt);
    assert fs[0].key == ID_KEY && fs[1].key == ACTOR_USER_ID_KEY && fs[2].key == ACTION_KEY;
  }

  lemma TheResource(env: Env, id: Text, e: AuditEntry<JsValue>, createdAt: int)
    ensures var payload := Payload(env, id, Seen(e), createdAt);
            && Carries(payload, Ascii("resourceType"), Str(e.resourceType))
            && Carries(payload, Ascii("resourceId"), OrNull(e.resourceId))
  {
    FieldsAreIn(env, id, Seen(e), createdAt);
    var fs := PayloadFields(env, id, Seen(e), createdAt);
    assert fs[3].key == RESOURCE_TYPE_KEY && fs[4].key == RESOURCE_ID_KEY;
  }

  lemma LastFive(env: Env, id: Text, e: AuditEntry<JsValue>, createdAt: int)
    ensures var payload := Payload(env, id, Seen(e), createdAt);
            && Carries(payload, Ascii("outcome"), Str(e.outcome))
            && Carries(payload, Ascii("context"), ContextSeen(e.context))
            && Carries(payload, Ascii("ipHash"), OrNull(e.ipHash))
            && Carries(payload, Ascii("correlationId"), OrNull(e.correlationId))
            && Carries(payload, Ascii("createdAt"), Str(env.iso(createdAt)))
  {
    FieldsAreIn(env, id, Seen(e), createdAt);
    var fs := PayloadFields(env, id, Seen(e), createdAt);
    assert fs[5].key == OUTCOME_KEY && fs[6].key == CONTEXT_KEY && fs[7].key == IP_HASH_KEY;
    assert fs[8].key == CORRELATION_ID_KEY && fs[9].key == CREATED_AT_KEY;
  }

  lemma PayloadCarries(env: Env, id: Text, e: AuditEntry<JsValue>, createdAt: int)
    ensures CarriesTheCall(Payload(env, id, Seen(e), createdAt), env, id, e, createdAt)
  {
    FieldsAreIn(env, id, Seen(e), createdAt);
    FirstThree(env, id, e, createdAt);
    TheResource(env, id, e, createdAt);
    LastFive(env, id, e, createdAt);
  }

  lemma BarIsBar()
    ensures [BAR] == Ascii("|")
  {
  }

  /** The row's hash is that of the previous hash, a bar and the stable text of a payload that carries the call. */
  lemma HashesTheCall(env: Env, log: Log, a: Append) returns (payload: Value)
    requires ValidAppend(log.clock, a)
    ensures var row := NewRow(env, log, a);
            && row.entryHash == env.hash(row.prevHash + Ascii("|") + StableStringify(payload))
            && IsValue(payload) && CarriesTheCall(payload, env, row.id, a.entry, a.createdAt)
  {
    var row := NewRow(env, log, a);
    payload := Payload(env, row.id, Seen(a.entry), a.createdAt);
    SeenIsValue(a.entry);
    PayloadIsValue(env, row.id, Seen(a.entry), a.createdAt);
    PayloadCarries(env, row.id, a.entry, a.createdAt);
    BarIsBar();
  }

  /** The first row links to the seed, a later one to the entry hash of the row that comes after all others. */
  lemma LinksToTheLatest(env: Env, log: Log, a: Append) returns (k: nat)
    requires ValidAppend(log.clock, a) && forall i, j :: 0 <= i < j < |log.rows| ==> log.rows[i].id != log.rows[j].id
    ensures log.rows == [] ==> NewRow(env, log, a).prevHash == Ascii("ftd-audit-genesis-v1")
    ensures log.rows != [] ==>
              && k < |log.rows| && NewRow(env, log, a).prevHash == log.rows[k].entryHash
              && forall i :: 0 <= i < |log.rows| && i != k ==>
                   log.rows[i].createdAt < log.rows[k].createdAt ||
                   (log.rows[i].createdAt == log.rows[k].createdAt && Less(log.rows[i].id, log.rows[k].id))
  {
    k := 0;
    if log.rows != [] {
      k := LatestIndex(log.rows);
      forall i | 0 <= i < |log.rows| && i != k ensures After(log.rows[k], log.rows[i]) {
        LatestIsMaximum(log.rows, i);
      }
    }
  }
}
