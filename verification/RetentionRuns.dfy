/**
 The prune among other traffic. Its statements run one by one, outside a transaction: between reading a
 recipient's overflow and deleting it, notifications are emitted, marked read and pruned by others.
 */
module RetentionRuns {
  import opened Options
  import opened Notifications
  import opened Retention

  /**
   What a prune call read: a recipient, the table at that moment, and the way the query broke ties. The code
   keeps only the overflow ids.
   */
  datatype Read = Read(recipient: Id, rows: seq<Row>, tie: Tie)

  /** `used` is history: every id there ever was. */
  datatype State = State(rows: seq<Row>, held: map<Id, Read>, used: set<Id>)

  datatype Action =
    | Emit(row: Row)
    | MarkRead(id: Id, at: int)
    | DeleteOld(now: int)
    | ReadOverflow(call: Id, recipient: Id, tie: Tie)
    | DeleteOverflow(call: Id)

  function Overflow(read: Read): seq<Row> {
    var newest := NewestOf(read.tie, read.rows, read.recipient);
    Slice(newest, MAX_PER_RECIPIENT, MAX_PER_RECIPIENT + |newest|)
  }

  function Marked(rows: seq<Row>, id: Id, at: int): seq<Row> {
    seq(|rows|, i requires 0 <= i < |rows| =>
      if rows[i].id == id && rows[i].readAt.None? then rows[i].(readAt := Some(at)) else rows[i])
  }

  predicate Enabled(s: State, a: Action) {
    match a
    case Emit(row) => row.id !in s.used
    case ReadOverflow(c, _, _) => c !in s.held
    case DeleteOverflow(c) => c in s.held
    case _ => true
  }

  function Next(s: State, a: Action): State
    requires Enabled(s, a)
  {
    match a
    case Emit(row) => s.(rows := s.rows + [row], used := s.used + {row.id})
    case MarkRead(id, at) => s.(rows := Marked(s.rows, id, at))
    case DeleteOld(now) => s.(rows := Recent(s.rows, now))
    case ReadOverflow(c, g, tie) => s.(held := s.held[c := Read(g, s.rows, tie)])
    case DeleteOverflow(c) =>
      var overflow := Overflow(s.held[c]);
      s.(rows := Filter(s.rows, (r: Row) => !HasId(overflow, r.id)), held := s.held - {c})
  }

  // ---------------------------------------------------------------- what every step keeps

  predicate SameButRead(a: Row, b: Row) {
    a.(readAt := None) == b.(readAt := None)
  }

  /** A row read earlier and a row now, under one id, are the same notification. */
  predicate SameNotifications(past: seq<Row>, rows: seq<Row>) {
    forall p, r :: p in past && r in rows && p.id == r.id ==> SameButRead(p, r)
  }

  predicate AllUsed(rows: seq<Row>, used: set<Id>) {
    forall r <- rows :: r.id in used
  }

  predicate Inv(s: State) {
    && UniqueIds(s.rows) && AllUsed(s.rows, s.used)
    && forall c :: c in s.held ==> ReadHolds(s, s.held[c])
  }

  predicate ReadHolds(s: State, read: Read) {
    UniqueIds(read.rows) && AllUsed(read.rows, s.used) && SameNotifications(read.rows, s.rows)
  }

  /** Rows only come from emits, lose their unread mark, or go. */
  predicate Descends(s: State, s': State) {
    && s.used <= s'.used
    && forall r <- s'.rows :: (exists p :: p in s.rows && p.id == r.id && SameButRead(p, r)) || r.id !in s.used
  }

  lemma MarkedRows(rows: seq<Row>, id: Id, at: int)
    requires UniqueIds(rows)
    ensures UniqueIds(Marked(rows, id, at))
    ensures forall r <- Marked(rows, id, at) :: exists p :: p in rows && p.id == r.id && SameButRead(p, r)
  {
    var m := Marked(rows, id, at);
    forall r | r in m ensures exists p :: p in rows && p.id == r.id && SameButRead(p, r) {
      var i :| 0 <= i < |m| && m[i] == r;
      assert rows[i] in rows && SameButRead(rows[i], r);
    }
  }

  lemma StepDescends(s: State, a: Action)
    requires Inv(s) && Enabled(s, a)
    ensures Descends(s, Next(s, a)) && UniqueIds(Next(s, a).rows) && AllUsed(Next(s, a).rows, Next(s, a).used)
  {
    match a
    case Emit(row) => UniqueGrows(s.rows, row);
    case MarkRead(id, at) => MarkedRows(s.rows, id, at);
    case DeleteOld(now) =>
      FilterIsUnique(s.rows, (r: Row) => r.createdAt >= Cutoff(now));
      FilterAll(s.rows, (r: Row) => r.createdAt >= Cutoff(now));
    case DeleteOverflow(c) =>
      var overflow := Overflow(s.held[c]);
      FilterIsUnique(s.rows, (r: Row) => !HasId(overflow, r.id));
      FilterAll(s.rows, (r: Row) => !HasId(overflow, r.id));
    case _ =>
  }

  lemma ReadStays(s: State, s': State, read: Read)
    requires ReadHolds(s, read) && Descends(s, s')
    ensures ReadHolds(s', read)
  {
    forall p, r | p in read.rows && r in s'.rows && p.id == r.id ensures SameButRead(p, r) {
      if q :| q in s.rows && q.id == r.id && SameButRead(q, r) {
        assert SameButRead(p, q);
      }
    }
  }

  lemma StepKeepsInv(s: State, a: Action)
    requires Inv(s) && Enabled(s, a)
    ensures Inv(Next(s, a))
  {
    var s' := Next(s, a);
    StepDescends(s, a);
    forall c | c in s'.held ensures ReadHolds(s', s'.held[c]) {
      if c in s.held {
        ReadStays(s, s', s.held[c]);
      } else {
        OwnRead(s);
      }
    }
  }

  lemma OwnRead(s: State)
    requires UniqueIds(s.rows)
    ensures SameNotifications(s.rows, s.rows)
  {
    forall p, r | p in s.rows && r in s.rows && p.id == r.id ensures SameButRead(p, r) {
      SameIdSameRow(s.rows, p, r);
    }
  }

  // ---------------------------------------------------------------- what a prune may remove

  predicate IsBeyond(read: Read, p: Row) {
    p.recipient == read.recipient && p !in Top(read.tie, read.rows, p.recipient)
  }

  /** The row was beyond the newest of its recipient when the overflow was read. */
  ghost predicate WasBeyondTop(read: Read, r: Row) {
    exists p :: p in read.rows && SameButRead(p, r) && IsBeyond(read, p)
  }

  /**
   Deleting an overflow removes a row exactly when it was beyond the newest of its recipient at the read,
   whatever happened since.
  */
  lemma OverflowRemovesIff(s: State, c: Id, r: Row)
    requires Inv(s) && c in s.held && r in s.rows
    ensures HasId(Overflow(s.held[c]), r.id) <==> WasBeyondTop(s.held[c], r)
  {
    var read := s.held[c];
    var own, newest := Of(read.rows, read.recipient), NewestOf(read.tie, read.rows, read.recipient);
    assert ReadHolds(s, read);
    FilterIsUnique(read.rows, (q: Row) => q.recipient == read.recipient);
    FilterAll(read.rows, (q: Row) => q.recipient == read.recipient);
    SortedIsUnique(read.tie, own);
    if HasId(Overflow(read), r.id) {
      var p :| p in Overflow(read) && p.id == r.id;
      InSlices(newest, p);
      MemberSorted(read.tie, own, p);
      OverflowIsRest(newest, p);
      assert SameButRead(p, r);
    }
    if WasBeyondTop(read, r) {
      var p :| p in read.rows && SameButRead(p, r) && IsBeyond(read, p);
      MemberSorted(read.tie, own, p);
      OverflowIsRest(newest, p);
    }
  }

  lemma InSlices(s: seq<Row>, p: Row)
    requires p in Slice(s, MAX_PER_RECIPIENT, MAX_PER_RECIPIENT + |s|)
    ensures p in s && HasId(Slice(s, MAX_PER_RECIPIENT, MAX_PER_RECIPIENT + |s|), p.id)
  {
  }

  /**
   A step removes a row exactly when it is an age prune past whose cutoff the row lies, or the delete of an
   overflow in which the row was beyond its recipient's newest two hundred. No other row is ever removed.
   */
  lemma RemovedIff(s: State, a: Action, r: Row)
    requires Inv(s) && Enabled(s, a) && r in s.rows
    ensures !HasId(Next(s, a).rows, r.id) <==>
            (a.DeleteOld? && a.now - r.createdAt > NINETY_DAYS) || (a.DeleteOverflow? && WasBeyondTop(s.held[a.call], r))
  {
    match a
    case Emit(row) => assert r in Next(s, a).rows;
    case MarkRead(id, at) =>
      var i :| 0 <= i < |s.rows| && s.rows[i] == r;
      assert Marked(s.rows, id, at)[i].id == r.id;
      assert Marked(s.rows, id, at)[i] in Next(s, a).rows;
    case DeleteOld(now) => KeptIff(s.rows, (q: Row) => q.createdAt >= Cutoff(now), r);
    case ReadOverflow(_, _, _) => assert r in Next(s, a).rows;
    case DeleteOverflow(c) =>
      var overflow := Overflow(s.held[c]);
      OverflowRemovesIff(s, c, r);
      KeptIff(s.rows, (q: Row) => !HasId(overflow, q.id), r);
  }

  lemma KeptIff(rows: seq<Row>, p: Row -> bool, r: Row)
    requires UniqueIds(rows) && r in rows
    ensures HasId(Filter(rows, p), r.id) <==> p(r)
  {
    FilterAll(rows, p);
    if HasId(Filter(rows, p), r.id) {
      var q :| q in Filter(rows, p) && q.id == r.id;
      SameIdSameRow(rows, q, r);
    }
  }

  /** A row is new in the table exactly when the step emits it. */
  lemma AddedIff(s: State, a: Action, r: Row)
    requires Inv(s) && Enabled(s, a)
    ensures r in Next(s, a).rows && !HasId(s.rows, r.id) <==> a == Emit(r)
  {
    StepDescends(s, a);
    if a.Emit? {
      assert forall q :: q in s.rows ==> q.id in s.used;
    } else if r in Next(s, a).rows {
      CameFrom(s, a, r);
    }
  }

  lemma CameFrom(s: State, a: Action, r: Row)
    requires Inv(s) && Enabled(s, a) && !a.Emit? && r in Next(s, a).rows
    ensures HasId(s.rows, r.id)
  {
    match a
    case MarkRead(id, at) => MarkedRows(s.rows, id, at);
    case DeleteOld(now) => FilterAll(s.rows, (q: Row) => q.createdAt >= Cutoff(now));
    case ReadOverflow(_, _, _) =>
    case DeleteOverflow(c) =>
      var overflow := Overflow(s.held[c]);
      FilterAll(s.rows, (q: Row) => !HasId(overflow, q.id));
  }

  /** A row that stays changes exactly when it is marked read for the first time, and then only by that mark. */
  lemma ChangedIff(s: State, a: Action, r: Row, r': Row)
    requires Inv(s) && Enabled(s, a) && r in s.rows && r' in Next(s, a).rows && r'.id == r.id
    ensures r' == if a.MarkRead? && a.id == r.id && r.readAt.None? then r.(readAt := Some(a.at)) else r
  {
    StepDescends(s, a);
    match a
    case Emit(row) => SameIdSameRow(Next(s, a).rows, r, r');
    case MarkRead(id, at) =>
      var i :| 0 <= i < |s.rows| && s.rows[i] == r;
      var m := Marked(s.rows, id, at);
      assert m[i] in m;
      SameIdSameRow(m, m[i], r');
    case DeleteOld(now) =>
      FilterAll(s.rows, (q: Row) => q.createdAt >= Cutoff(now));
      SameIdSameRow(s.rows, r, r');
    case ReadOverflow(_, _, _) => SameIdSameRow(s.rows, r, r');
    case DeleteOverflow(c) =>
      var overflow := Overflow(s.held[c]);
      FilterAll(s.rows, (q: Row) => !HasId(overflow, q.id));
      SameIdSameRow(s.rows, r, r');
  }

  /** After its delete, a recipient has nothing but rows that were among its newest at the read, and rows emitted since. */
  lemma LeftAfterDelete(s: State, c: Id, r: Row)
    requires Inv(s) && c in s.held && r in Next(s, DeleteOverflow(c)).rows && r.recipient == s.held[c].recipient
    ensures (exists p :: p in Top(s.held[c].tie, s.held[c].rows, r.recipient) && SameButRead(p, r))
         || forall p <- s.held[c].rows :: p.id != r.id
  {
    var read, overflow := s.held[c], Overflow(s.held[c]);
    FilterAll(s.rows, (q: Row) => !HasId(overflow, q.id));
    OverflowRemovesIff(s, c, r);
    if p :| p in read.rows && p.id == r.id {
      assert ReadHolds(s, read) && SameButRead(p, r);
    }
  }

  // ---------------------------------------------------------------- runs

  ghost predicate IsStep(states: seq<State>, actions: seq<Action>, i: nat)
    requires i < |actions| && i + 1 < |states|
  {
    Enabled(states[i], actions[i]) && states[i + 1] == Next(states[i], actions[i])
  }

  ghost predicate IsRun(states: seq<State>, actions: seq<Action>) {
    && |states| == |actions| + 1 && states[0] == State([], map[], {})
    && forall i :: 0 <= i < |actions| ==> IsStep(states, actions, i)
  }

  lemma {:induction false} RunKeepsInv(states: seq<State>, actions: seq<Action>, n: nat)
    requires IsRun(states, actions) && n <= |actions|
    ensures Inv(states[n])
  {
    if n > 0 {
      RunKeepsInv(states, actions, n - 1);
      assert IsStep(states, actions, n - 1);
      StepKeepsInv(states[n - 1], actions[n - 1]);
    }
  }

  /** What a call holds is the table at the step at which it read. */
  lemma {:induction false} ReadWasTheTable(states: seq<State>, actions: seq<Action>, n: nat, c: Id) returns (m: nat)
    requires IsRun(states, actions) && n <= |actions| && c in states[n].held
    ensures var read := states[n].held[c];
            m < n && actions[m] == ReadOverflow(c, read.recipient, read.tie) && states[m].rows == read.rows
  {
    assert IsStep(states, actions, n - 1);
    if c in states[n - 1].held {
      m := ReadWasTheTable(states, actions, n - 1, c);
    } else {
      m := n - 1;
    }
  }

  /**
   In every run, a notification that a prune removes was older than the cutoff of that prune, or, at an earlier
   moment of the run, when its recipient's overflow was read, not among the recipient's newest two hundred as
   that query broke ties.
   */
  lemma OnlyUnwantedGo(states: seq<State>, actions: seq<Action>, n: nat, r: Row) returns (m: nat)
    requires IsRun(states, actions) && n < |actions| && r in states[n].rows && !HasId(states[n + 1].rows, r.id)
    ensures (actions[n].DeleteOld? && actions[n].now - r.createdAt > NINETY_DAYS)
         || (actions[n].DeleteOverflow? && m < n && actions[m].ReadOverflow?
             && actions[m].call == actions[n].call && actions[m].recipient == r.recipient
             && exists p :: p in states[m].rows && SameButRead(p, r) && p !in Top(actions[m].tie, states[m].rows, r.recipient))
  {
    m := 0;
    RunKeepsInv(states, actions, n);
    assert IsStep(states, actions, n);
    RemovedIff(states[n], actions[n], r);
    if actions[n].DeleteOverflow? {
      m := ReadWasTheTable(states, actions, n, actions[n].call);
    }
  }
}
