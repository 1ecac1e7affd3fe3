/** The audit chain over whole runs of one process: linearity and re-verification. */
module AuditRuns {
  import opened Options
  import opened Texts
  import opened Json
  import opened CanonicalJson
  import opened StableJson
  import opened JsonColumn
  import opened JsValues
  import opened Uuid
  import opened AuditChain

  /** A committed append, or an id minted for something else (also an append that rolled back). */
  datatype Step = Record(a: Append) | Mint(now: nat)

  /** The clock may repeat readings, but does not step back between appends. */
  ghost predicate ValidStep(log: Log, step: Step) {
    match step
    case Record(a) =>
      && ValidAppend(log.clock, a)
      && StoredAs(a.entry.context, a.stored)
      && (log.rows != [] ==> log.rows[|log.rows| - 1].createdAt <= a.createdAt)
    case Mint(now) => ValidClock(log.clock) && Tick(log.clock, now).lastMillis < TWO_48
  }

  ghost function Next(env: Env, log: Log, step: Step): Log
    requires ValidStep(log, step)
  {
    match step
    case Record(a) => AppendRow(env, log, a)
    case Mint(now) => log.(clock := Tick(log.clock, now))
  }

  ghost predicate IsRun(env: Env, logs: seq<Log>, steps: seq<Step>) {
    && |logs| == |steps| + 1
    && logs[0] == EMPTY_LOG
    && forall i :: 0 <= i < |steps| ==> ValidStep(logs[i], steps[i]) && logs[i + 1] == Next(env, logs[i], steps[i])
  }

  // ---------------------------------------------------------------- the invariant

  ghost predicate MintedBy(id: Text, clock: Clock) {
    exists c, r :: ValidClock(c) && c.lastMillis >= 0 && |r| == 16 && id == IdText(c, r) && Prefix(c) <= Prefix(clock)
  }

  ghost predicate Inv(log: Log) {
    && ValidClock(log.clock) && log.clock.lastMillis < TWO_48
    && (forall i :: 0 <= i < |log.rows| ==> MintedBy(log.rows[i].id, log.clock))
    && Ascending(log.rows)
    && Linked(log.rows)
  }

  lemma MintedEarlier(id: Text, clock: Clock, now: nat, random: seq<byte>)
    requires MintedBy(id, clock) && ValidClock(clock) && |random| == 16 && Tick(clock, now).lastMillis < TWO_48
    ensures MintedBy(id, Tick(clock, now))
    ensures Less(id, IdText(Tick(clock, now), random))
  {
    var c, r :| ValidClock(c) && c.lastMillis >= 0 && |r| == 16 && id == IdText(c, r) && Prefix(c) <= Prefix(clock);
    TickAdvances(clock, now);
    IdOrder(c, r, Tick(clock, now), random);
  }

  lemma {:induction false} AscendingLatest(rows: seq<Row>)
    requires rows != [] && Ascending(rows)
    ensures LatestIndex(rows) == |rows| - 1
    decreases |rows|
  {
    if |rows| > 1 {
      AscendingLatest(rows[..|rows| - 1]);
    }
  }

  lemma AscendingSnoc(rows: seq<Row>, r: Row)
    requires Ascending(rows) && (rows != [] ==> After(r, rows[|rows| - 1]))
    ensures Ascending(rows + [r])
  {
    forall i | 0 <= i < |rows| ensures After(r, rows[i]) {
      if i < |rows| - 1 {
        AfterTransitive(r, rows[|rows| - 1], rows[i]);
      }
    }
  }

  lemma LinkedSnoc(rows: seq<Row>, r: Row)
    requires Linked(rows) && r.prevHash == if rows == [] then GENESIS else rows[|rows| - 1].entryHash
    ensures Linked(rows + [r])
  {
    var all := rows + [r];
    forall i | 0 <= i < |all| ensures all[i].prevHash == Link(all, i) {
      assert i < |rows| ==> all[i] == rows[i] && Link(all, i) == Link(rows, i);
    }
  }

  lemma MintedSnoc(rows: seq<Row>, r: Row, clock: Clock, now: nat, random: seq<byte>)
    requires ValidClock(clock) && |random| == 16 && Tick(clock, now).lastMillis < TWO_48
    requires forall i :: 0 <= i < |rows| ==> MintedBy(rows[i].id, clock)
    requires r.id == IdText(Tick(clock, now), random)
    ensures forall i :: 0 <= i < |rows| ==> Less(rows[i].id, r.id)
    ensures var all := rows + [r]; forall i :: 0 <= i < |all| ==> MintedBy(all[i].id, Tick(clock, now))
  {
    TickAdvances(clock, now);
    forall i | 0 <= i < |rows| ensures MintedBy(rows[i].id, Tick(clock, now)) && Less(rows[i].id, r.id) {
      MintedEarlier(rows[i].id, clock, now, random);
    }
    assert MintedBy(r.id, Tick(clock, now));
  }

  lemma AppendedKeepsInv(log: Log, r: Row, now: nat, random: seq<byte>)
    requires Inv(log) && |random| == 16 && Tick(log.clock, now).lastMillis < TWO_48
    requires r.id == IdText(Tick(log.clock, now), random) && r.prevHash == PrevHash(log.rows)
    requires log.rows != [] ==> log.rows[|log.rows| - 1].createdAt <= r.createdAt
    ensures Inv(Log(log.rows + [r], Tick(log.clock, now)))
  {
    MintedSnoc(log.rows, r, log.clock, now, random);
    TickAdvances(log.clock, now);
    if log.rows != [] {
      AscendingLatest(log.rows);
    }
    AscendingSnoc(log.rows, r);
    LinkedSnoc(log.rows, r);
  }

  lemma RecordKeepsInv(env: Env, log: Log, a: Append)
    requires Inv(log) && ValidStep(log, Record(a))
    ensures Inv(AppendRow(env, log, a))
  {
    AppendedKeepsInv(log, NewRow(env, log, a), a.idNow, a.random);
  }

  lemma StepKeepsInv(env: Env, log: Log, step: Step)
    requires Inv(log) && ValidStep(log, step)
    ensures Inv(Next(env, log, step))
  {
    match step
    case Record(a) => RecordKeepsInv(env, log, a);
    case Mint(now) =>
      TickAdvances(log.clock, now);
      forall i | 0 <= i < |log.rows| ensures MintedBy(log.rows[i].id, Tick(log.clock, now)) {
        MintedEarlier(log.rows[i].id, log.clock, now, seq(16, _ => 0));
      }
  }

  lemma {:induction false} RunKeepsInv(env: Env, logs: seq<Log>, steps: seq<Step>, n: nat)
    requires IsRun(env, logs, steps) && n <= |steps|
    ensures Inv(logs[n])
  {
    if n > 0 {
      RunKeepsInv(env, logs, steps, n - 1);
      StepKeepsInv(env, logs[n - 1], steps[n - 1]);
    }
  }

  /**
   In every reachable log the predecessor query finds the row appended last, so the chain is linear: in
   (created_at, id) order each row links to the one before it, and the first to the genesis seed.
   */
  lemma ChainIsLinear(env: Env, logs: seq<Log>, steps: seq<Step>, n: nat)
    requires IsRun(env, logs, steps) && n <= |steps|
    ensures Ascending(logs[n].rows) && Linked(logs[n].rows)
    ensures logs[n].rows != [] ==> LatestIndex(logs[n].rows) == |logs[n].rows| - 1
  {
    RunKeepsInv(env, logs, steps, n);
    if logs[n].rows != [] {
      AscendingLatest(logs[n].rows);
    }
  }

  /** An appended row becomes the next predecessor exactly when its created_at did not step back. */
  lemma AppendBecomesLatestIff(rows: seq<Row>, r: Row)
    requires rows != [] && forall i :: 0 <= i < |rows| ==> Less(rows[i].id, r.id)
    ensures LatestIndex(rows + [r]) == |rows| <==> rows[LatestIndex(rows)].createdAt <= r.createdAt
  {
    var all := rows + [r];
    assert all[..|all| - 1] == rows;
  }

  /** When it did, the next append links to the same row again: the chain forks there. */
  lemma ClockStepBackForks(env: Env, log: Log, a: Append, b: Append)
    requires log.rows != [] && ValidAppend(log.clock, a) && ValidAppend(AppendRow(env, log, a).clock, b)
    requires a.createdAt < log.rows[LatestIndex(log.rows)].createdAt
    ensures var rows := AppendRow(env, AppendRow(env, log, a), b).rows;
            rows[|log.rows|].prevHash == rows[|log.rows| + 1].prevHash
  {
    var once := AppendRow(env, log, a);
    assert once.rows[..|once.rows| - 1] == log.rows;
  }

  // ---------------------------------------------------------------- re-verification

  lemma SameJsonReflexive(v: Value)
    requires IsValue(v)
    ensures SameJson(v, v)
  {
    CanonEqualSame(SortOrder, v, v);
  }

  lemma SameJsonTransitive(u: Value, v: Value, w: Value)
    requires IsValue(u) && IsValue(v) && IsValue(w) && SameJson(u, v) && SameJson(v, w)
    ensures SameJson(u, w)
  {
    SameCanonEqual(SortOrder, u, v);
    SameCanonEqual(SortOrder, v, w);
    CanonEqualSame(SortOrder, u, w);
  }

  lemma SameJsonSymmetric(v: Value, w: Value)
    requires IsValue(v) && IsValue(w) && SameJson(v, w)
    ensures SameJson(w, v)
  {
    SameCanonEqual(SortOrder, v, w);
    CanonEqualSame(SortOrder, w, v);
  }

  ghost predicate ContextKept(context: Option<JsValue>) {
    context.Some? ==> Kept(context.value)
  }

  lemma SeenIsValue(e: AuditEntry<JsValue>)
    requires ValidContext(e.context)
    ensures AnyContext(Seen(e).context)
  {
    if e.context.Some? {
      ViewsAreValues(e.context.value);
    }
  }

  lemma StoredSameIff(e: AuditEntry<JsValue>, stored: Option<Value>)
    requires ValidContext(e.context) && StoredAs(e.context, stored)
    ensures SameJson(ContextValue(Seen(e).context), ContextValue(stored)) <==> ContextKept(e.context)
  {
    if e.context.Some? {
      var c, s := e.context.value, stored.value;
      var seen, sent := OwnKeys(c), Clean(JsonOf(c));
      ViewsAreValues(c);
      CleanIsPlain(JsonOf(c));
      KeptIff(c);
      if SameJson(seen, s) {
        SameJsonTransitive(seen, s, sent);
      }
      if SameJson(seen, sent) {
        SameJsonSymmetric(s, sent);
        SameJsonTransitive(seen, sent, s);
      }
    }
  }

  /**
   The text recomputed from the stored row is the text that was hashed exactly when the context is kept: no object
   field is `undefined`, which is hashed as `null` but not stored, and no object with a `toJSON` is hashed by other
   fields than it is stored with.
   */
  lemma StoredTextIff(env: Env, log: Log, a: Append)
    requires ValidAppend(log.clock, a) && StoredAs(a.entry.context, a.stored)
    ensures var r := NewRow(env, log, a);
            TextOf(env, r) == HashedText(r.prevHash, Payload(env, r.id, Seen(a.entry), a.createdAt)) <==>
            ContextKept(a.entry.context)
  {
    var r := NewRow(env, log, a);
    var hashed, stored := Payload(env, r.id, Seen(a.entry), a.createdAt), PayloadOf(env, r);
    SeenIsValue(a.entry);
    PayloadIsValue(env, r.id, Seen(a.entry), a.createdAt);
    PayloadIsValue(env, r.id, r.entry, r.createdAt);
    StableEqualIffSame(hashed, stored);
    StoredSameIff(a.entry, a.stored);
    if SameJson(hashed, stored) {
      SamePayloadFields(env, r.id, Seen(a.entry), a.createdAt, r.id, r.entry, r.createdAt);
    }
    if ContextKept(a.entry.context) {
      SameFieldsPayload(env, r.id, Seen(a.entry), r.entry, a.createdAt);
    }
    HashedTextSplit(r.prevHash, hashed, stored);
  }

  lemma HashedTextSplit(prevHash: Text, p: Value, q: Value)
    ensures HashedText(prevHash, p) == HashedText(prevHash, q) <==> StableStringify(p) == StableStringify(q)
  {
    var head := prevHash + [BAR];
    assert HashedText(prevHash, p)[|head|..] == StableStringify(p);
    assert HashedText(prevHash, q)[|head|..] == StableStringify(q);
  }

  /** So a row appended with a kept context re-verifies; for any other, verifying would need a collision. */
  lemma AppendedRowVerifiesIff(env: Env, log: Log, a: Append)
    requires ValidAppend(log.clock, a) && StoredAs(a.entry.context, a.stored)
    ensures var r := NewRow(env, log, a);
            var hashed := HashedText(r.prevHash, Payload(env, r.id, Seen(a.entry), a.createdAt));
            RowVerifies(env, r) <==>
            ContextKept(a.entry.context) || (TextOf(env, r) != hashed && env.hash(TextOf(env, r)) == env.hash(hashed))
  {
    StoredTextIff(env, log, a);
  }

  /** A context `{a: undefined}` is such a case, whatever the rest of the entry. */
  lemma UndefinedFieldNotKept(key: Text)
    ensures var c := Dict([Entry(key, Scalar(Undefined))]);
            && ValidContext(Some(c)) && !ContextKept(Some(c)) && StoredAs(Some(c), Some(Obj([])))
            && OwnKeys(c) == Obj([Entry(key, Undefined)])
  {
    var c, fields := Dict([Entry(key, Scalar(Undefined))]), [Entry(key, Undefined)];
    assert JsonFields(c.fields) == fields && fields[1..] == [] && CleanFields(fields) == [];
    assert c.fields[0].value == Scalar(Undefined);
    SameJsonReflexive(Obj([]));
  }

  /** So is a context `{a: new Date()}`: hashed with `{}` for the date, stored with its text. */
  lemma DateFieldNotKept(key: Text, iso: Text)
    ensures var c := Dict([Entry(key, Exotic([], Str(iso)))]);
            && ValidContext(Some(c)) && !ContextKept(Some(c)) && StoredAs(Some(c), Some(Obj([Entry(key, Str(iso))])))
            && OwnKeys(c) == Obj([Entry(key, Obj([]))])
  {
    var c, fields := Dict([Entry(key, Exotic([], Str(iso)))]), [Entry(key, Str(iso))];
    assert JsonFields(c.fields) == fields && fields[1..] == [] && CleanFields(fields) == fields;
    assert c.fields[0].value == Exotic([], Str(iso));
    SameJsonReflexive(Obj(fields));
    DateNotKept(iso);
  }

  ghost predicate AllKept(steps: seq<Step>) {
    forall i :: 0 <= i < |steps| && steps[i].Record? ==> ContextKept(steps[i].a.entry.context)
  }

  lemma RecordKeepsVerifying(env: Env, log: Log, a: Append)
    requires ValidAppend(log.clock, a) && StoredAs(a.entry.context, a.stored) && ContextKept(a.entry.context)
    requires Verifies(env, log.rows) && Linked(AppendRow(env, log, a).rows)
    ensures Verifies(env, AppendRow(env, log, a).rows)
  {
    AppendedRowVerifiesIff(env, log, a);
  }

  lemma StepKeepsVerifying(env: Env, log: Log, step: Step)
    requires ValidStep(log, step) && (step.Record? ==> ContextKept(step.a.entry.context))
    requires Verifies(env, log.rows) && Linked(Next(env, log, step).rows)
    ensures Verifies(env, Next(env, log, step).rows)
  {
    if step.Record? {
      RecordKeepsVerifying(env, log, step.a);
    }
  }

  /** Every log a process writes with kept contexts verifies from the genesis seed to its last row. */
  lemma {:induction false} ReachableLogVerifies(env: Env, logs: seq<Log>, steps: seq<Step>, n: nat)
    requires IsRun(env, logs, steps) && n <= |steps| && AllKept(steps)
    ensures Verifies(env, logs[n].rows)
  {
    RunKeepsInv(env, logs, steps, n);
    if n > 0 {
      ReachableLogVerifies(env, logs, steps, n - 1);
      StepKeepsVerifying(env, logs[n - 1], steps[n - 1]);
    }
  }
}
