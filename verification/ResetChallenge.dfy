/**
 The password-reset challenge: stamped once when the second factor passes, consumed once together with
 the password change, and closed when another reset of the same user completes.
 */
module ResetChallenge {
  import opened Options

  type Id = nat

  datatype Method = Totp | BackupCode | AdminApproval

  datatype Row = Row(
    userId: Id,
    expiresAt: int,
    maxAttempts: nat,
    attemptCount: nat,
    factorVerifiedAt: Option<int>,
    factorMethod: Option<Method>,
    consumedAt: Option<int>)

  datatype Call =
    | Loaded(id: Id, row: Row)
    | Stamped(id: Id)   // verify-code won the stamp
    | Completed(id: Id) // verify consumed the challenge and changed the password
    | Done              // any other answer

  datatype State = State(now: int, rows: map<Id, Row>, calls: map<Id, Call>)

  function Initial(now: int): State { State(now, map[], map[]) }

  datatype Action =
    | Create(id: Id, userId: Id, expiresAt: int, maxAttempts: nat)
    | Load(call: Id, id: Id, secretOk: bool)
    | Stamp(call: Id, factor: Method)
    | Answer(call: Id) // any answer that writes nothing
    | Fail(call: Id)
    | Complete(call: Id)
    | CloseAll(userId: Id) // an administrator's reset
    | Pass(ms: nat)

  predicate IsOpen(row: Row, now: int) {
    row.consumedAt.None? && row.expiresAt > now && row.attemptCount < row.maxAttempts
  }

  /** The `where` the three conditional updates share. */
  predicate MayWrite(row: Row, now: int, maxAttempts: nat) {
    row.consumedAt.None? && row.expiresAt > now && row.attemptCount < maxAttempts
  }

  predicate MayStamp(row: Row, now: int, maxAttempts: nat) {
    MayWrite(row, now, maxAttempts) && row.factorVerifiedAt.None?
  }

  predicate MayConsume(row: Row, now: int, maxAttempts: nat) {
    MayWrite(row, now, maxAttempts) && row.factorVerifiedAt.Some?
  }

  /** `revokeAllTrust`: consume every open challenge of the user. */
  function Close(rows: map<Id, Row>, userId: Id, now: int): (r: map<Id, Row>)
    ensures r.Keys == rows.Keys
  {
    map id | id in rows ::
      if rows[id].userId == userId && rows[id].consumedAt.None? then rows[id].(consumedAt := Some(now)) else rows[id]
  }

  predicate LoadedCall(s: State, c: Id) {
    c in s.calls && s.calls[c].Loaded? && s.calls[c].id in s.rows
  }

  predicate Enabled(s: State, a: Action) {
    match a
    case Create(id, _, _, _) => id !in s.rows
    case Load(c, _, _) => c !in s.calls
    // verify-code on a snapshot that is not stamped yet; the factor has passed
    case Stamp(c, _) => LoadedCall(s, c) && s.calls[c].row.factorVerifiedAt.None?
    case Answer(c) => LoadedCall(s, c)
    case Fail(c) => LoadedCall(s, c)
    // verify on a snapshot that is stamped
    case Complete(c) => LoadedCall(s, c) && s.calls[c].row.factorVerifiedAt.Some?
    case CloseAll(_) => true
    case Pass(_) => true
  }

  function Next(s: State, a: Action): State
    requires Enabled(s, a)
  {
    match a
    case Create(id, userId, expiresAt, maxAttempts) =>
      s.(rows := s.rows[id := Row(userId, expiresAt, maxAttempts, 0, None, None, None)])
    case Load(c, id, secretOk) =>
      s.(calls := s.calls[c := if id in s.rows && IsOpen(s.rows[id], s.now) && secretOk then Loaded(id, s.rows[id]) else Done])
    case Stamp(c, factor) =>
      var id := s.calls[c].id;
      if MayStamp(s.rows[id], s.now, s.calls[c].row.maxAttempts) then
        s.(rows := s.rows[id := s.rows[id].(factorVerifiedAt := Some(s.now), factorMethod := Some(factor))],
           calls := s.calls[c := Stamped(id)])
      else s.(calls := s.calls[c := Done])
    case Answer(c) => s.(calls := s.calls[c := Done])
    case Fail(c) =>
      var id := s.calls[c].id;
      State(s.now,
            if MayWrite(s.rows[id], s.now, s.calls[c].row.maxAttempts)
            then s.rows[id := s.rows[id].(attemptCount := s.rows[id].attemptCount + 1)] else s.rows,
            s.calls[c := Done])
    case Complete(c) =>
      var id := s.calls[c].id;
      if MayConsume(s.rows[id], s.now, s.calls[c].row.maxAttempts) then
        s.(rows := Close(s.rows[id := s.rows[id].(consumedAt := Some(s.now))], s.calls[c].row.userId, s.now),
           calls := s.calls[c := Completed(id)])
      else s.(calls := s.calls[c := Done])
    case CloseAll(userId) => s.(rows := Close(s.rows, userId, s.now))
    case Pass(ms) => s.(now := s.now + ms)
  }

  class PasswordResetChallengeService {
    var now: int
    var rows: map<Id, Row>
    var calls: map<Id, Call>

    ghost function Snapshot(): State reads this { State(now, rows, calls) }

    constructor (start: int)
      ensures Snapshot() == Initial(start)
    {
      now, rows, calls := start, map[], map[];
    }

    method CreateChallenge(id: Id, userId: Id, expiresAt: int, maxAttempts: nat)
      requires Enabled(Snapshot(), Create(id, userId, expiresAt, maxAttempts))
      modifies this
      ensures Snapshot() == Next(old(Snapshot()), Create(id, userId, expiresAt, maxAttempts))
    {
      rows := rows[id := Row(userId, expiresAt, maxAttempts, 0, None, None, None)];
    }

    method LoadOpen(call: Id, id: Id, secretOk: bool)
      requires Enabled(Snapshot(), Load(call, id, secretOk))
      modifies this
      ensures Snapshot() == Next(old(Snapshot()), Load(call, id, secretOk))
    {
      var result := Done;
      if id in rows {
        var row := rows[id];
        if !(row.consumedAt.Some? || row.expiresAt <= now || row.attemptCount >= row.maxAttempts) && secretOk {
          result := Loaded(id, row);
        }
      }
      calls := calls[call := result];
    }

    method MarkFactorVerified(call: Id, factor: Method) returns (won: bool)
      requires Enabled(Snapshot(), Stamp(call, factor))
      modifies this
      ensures Snapshot() == Next(old(Snapshot()), Stamp(call, factor))
      ensures won == MayStamp(old(rows[calls[call].id]), now, old(calls[call].row.maxAttempts))
    {
      var id, maxAttempts := calls[call].id, calls[call].row.maxAttempts;
      var row := rows[id];
      var count := 0;
      if row.consumedAt.None? && row.factorVerifiedAt.None? && row.expiresAt > now && row.attemptCount < maxAttempts {
        rows := rows[id := row.(factorVerifiedAt := Some(now), factorMethod := Some(factor))];
        count := 1;
      }
      won := count == 1;
      calls := calls[call := if won then Stamped(id) else Done];
    }

    /** The success transaction of `verify`: consume, then revoke all of the user's trust. */
    method CompleteReset(call: Id) returns (won: bool)
      requires Enabled(Snapshot(), Complete(call))
      modifies this
      ensures Snapshot() == Next(old(Snapshot()), Complete(call))
      ensures won == MayConsume(old(rows[calls[call].id]), now, old(calls[call].row.maxAttempts))
    {
      var id, snapshot := calls[call].id, calls[call].row;
      won := MayConsume(rows[id], now, snapshot.maxAttempts);
      if !won {
        calls := calls[call := Done];
        return;
      }
      rows := rows[id := rows[id].(consumedAt := Some(now))];
      RevokeChallenges(snapshot.userId);
      calls := calls[call := Completed(id)];
    }

    method RevokeChallenges(userId: Id)
      modifies this`rows
      ensures rows == Close(old(rows), userId, now)
    {
      rows := map id | id in rows ::
        if rows[id].userId == userId && rows[id].consumedAt.None? then rows[id].(consumedAt := Some(now)) else rows[id];
    }

    method RegisterFailedAttempt(call: Id)
      requires Enabled(Snapshot(), Fail(call))
      modifies this
      ensures Snapshot() == Next(old(Snapshot()), Fail(call))
    {
      var id, maxAttempts := calls[call].id, calls[call].row.maxAttempts;
      if MayWrite(rows[id], now, maxAttempts) {
        rows := rows[id := rows[id].(attemptCount := rows[id].attemptCount + 1)];
      }
      calls := calls[call := Done];
    }
  }

  // ---------------------------------------------------------------- what every step keeps

  predicate RowHolds(row: Row, now: int) {
    && row.attemptCount <= row.maxAttempts
    && (row.factorVerifiedAt.Some? <==> row.factorMethod.Some?)
    && (row.factorVerifiedAt.Some? ==> row.factorVerifiedAt.value <= now && row.factorVerifiedAt.value < row.expiresAt)
    && (row.consumedAt.Some? ==> row.consumedAt.value <= now)
    && (row.factorVerifiedAt.Some? && row.consumedAt.Some? ==> row.factorVerifiedAt.value <= row.consumedAt.value)
  }

  /** A row whose challenge changed a password: stamped first, consumed before expiry, attempts left. */
  predicate CompletedRow(row: Row) {
    && row.factorVerifiedAt.Some? && row.consumedAt.Some?
    && row.factorVerifiedAt.value <= row.consumedAt.value < row.expiresAt
    && row.attemptCount < row.maxAttempts
  }

  predicate CallHolds(s: State, call: Call) {
    match call
    case Loaded(id, row) =>
      id in s.rows && row.maxAttempts == s.rows[id].maxAttempts && row.userId == s.rows[id].userId &&
      (row.factorVerifiedAt.Some? ==> s.rows[id].factorVerifiedAt == row.factorVerifiedAt)
    case Stamped(id) => id in s.rows && s.rows[id].factorVerifiedAt.Some?
    case Completed(id) => id in s.rows && CompletedRow(s.rows[id])
    case Done => true
  }

  predicate OneStamp(s: State) {
    forall c, d :: c in s.calls && d in s.calls && c != d && s.calls[c].Stamped? && s.calls[d].Stamped? ==>
      s.calls[c].id != s.calls[d].id
  }

  predicate OneCompletion(s: State) {
    forall c, d :: c in s.calls && d in s.calls && c != d && s.calls[c].Completed? && s.calls[d].Completed? ==>
      s.calls[c].id != s.calls[d].id
  }

  predicate Inv(s: State) {
    && (forall id :: id in s.rows ==> RowHolds(s.rows[id], s.now))
    && (forall c :: c in s.calls ==> CallHolds(s, s.calls[c]))
    && OneStamp(s) && OneCompletion(s)
  }

  /** The life of a row runs one way; once consumed it is frozen. */
  predicate RowAdvances(a: Row, b: Row) {
    && b.userId == a.userId && b.expiresAt == a.expiresAt && b.maxAttempts == a.maxAttempts
    && a.attemptCount <= b.attemptCount
    && (a.factorVerifiedAt.Some? ==> b.factorVerifiedAt == a.factorVerifiedAt && b.factorMethod == a.factorMethod)
    && (a.consumedAt.Some? ==> b == a)
  }

  predicate RowsAdvance(s: State, s': State) {
    forall id :: id in s.rows ==> id in s'.rows && RowAdvances(s.rows[id], s'.rows[id])
  }

  lemma StepAdvances(s: State, a: Action)
    requires Enabled(s, a)
    ensures RowsAdvance(s, Next(s, a)) && s.now <= Next(s, a).now
  {
  }

  lemma StepKeepsRows(s: State, a: Action)
    requires Inv(s) && Enabled(s, a)
    ensures forall id :: id in Next(s, a).rows ==> RowHolds(Next(s, a).rows[id], Next(s, a).now)
  {
    forall c | c in s.calls ensures CallHolds(s, s.calls[c]) {
    }
    forall id | id in s.rows ensures RowHolds(s.rows[id], s.now) {
    }
  }

  lemma StepKeepsCalls(s: State, a: Action)
    requires Inv(s) && Enabled(s, a)
    ensures forall c :: c in Next(s, a).calls ==> CallHolds(Next(s, a), Next(s, a).calls[c])
  {
    var s' := Next(s, a);
    StepAdvances(s, a);
    forall c | c in s'.calls ensures CallHolds(s', s'.calls[c]) {
      if c in s.calls {
        assert CallHolds(s, s.calls[c]);
        assert s.calls[c].Loaded? ==> RowAdvances(s.rows[s.calls[c].id], s'.rows[s.calls[c].id]);
        assert s.calls[c].Stamped? ==> RowAdvances(s.rows[s.calls[c].id], s'.rows[s.calls[c].id]);
        assert s.calls[c].Completed? ==> RowAdvances(s.rows[s.calls[c].id], s'.rows[s.calls[c].id]);
        if a.Complete? && a.call == c {
          assert RowHolds(s.rows[s.calls[c].id], s.now);
        }
      }
    }
  }

  lemma StepKeepsWinners(s: State, a: Action)
    requires Inv(s) && Enabled(s, a)
    ensures OneStamp(Next(s, a)) && OneCompletion(Next(s, a))
  {
    forall c | c in s.calls ensures CallHolds(s, s.calls[c]) {
    }
  }

  lemma StepKeepsInv(s: State, a: Action)
    requires Inv(s) && Enabled(s, a)
    ensures Inv(Next(s, a))
  {
    StepKeepsRows(s, a);
    StepKeepsCalls(s, a);
    StepKeepsWinners(s, a);
  }

  // ---------------------------------------------------------------- runs

  predicate IsRun(states: seq<State>, actions: seq<Action>) {
    && |states| == |actions| + 1 && states[0] == Initial(states[0].now)
    && forall i :: 0 <= i < |actions| ==> Enabled(states[i], actions[i]) && states[i + 1] == Next(states[i], actions[i])
  }

  lemma {:induction false} RunKeepsInv(states: seq<State>, actions: seq<Action>, n: nat)
    requires IsRun(states, actions) && n <= |actions|
    ensures Inv(states[n])
  {
    if n > 0 {
      RunKeepsInv(states, actions, n - 1);
      StepKeepsInv(states[n - 1], actions[n - 1]);
    }
  }

  /** open -> factor verified -> consumed, one way, over any stretch of a run. */
  lemma {:induction false} LifecycleOneWay(states: seq<State>, actions: seq<Action>, i: nat, j: nat, id: Id)
    requires IsRun(states, actions) && i <= j <= |actions| && id in states[i].rows
    ensures id in states[j].rows && RowAdvances(states[i].rows[id], states[j].rows[id])
  {
    if i < j {
      LifecycleOneWay(states, actions, i, j - 1, id);
      StepAdvances(states[j - 1], actions[j - 1]);
      assert RowAdvances(states[j - 1].rows[id], states[j].rows[id]);
    }
  }

  /** The stamp and the completion of a challenge have one winner each. */
  lemma OneWinnerEach(states: seq<State>, actions: seq<Action>, n: nat, c: Id, d: Id)
    requires IsRun(states, actions) && n <= |actions| && c in states[n].calls && d in states[n].calls
    requires (states[n].calls[c].Stamped? && states[n].calls[d].Stamped?) ||
             (states[n].calls[c].Completed? && states[n].calls[d].Completed?)
    requires states[n].calls[c].id == states[n].calls[d].id
    ensures c == d
  {
    RunKeepsInv(states, actions, n);
  }

  /**
   A password changes only through a challenge stamped before, not expired and not exhausted; attempts never
   exceed the limit.
   */
  lemma CompletionIsAuthorized(states: seq<State>, actions: seq<Action>, n: nat, c: Id)
    requires IsRun(states, actions) && n <= |actions| && c in states[n].calls && states[n].calls[c].Completed?
    ensures states[n].calls[c].id in states[n].rows && CompletedRow(states[n].rows[states[n].calls[c].id])
  {
    RunKeepsInv(states, actions, n);
    assert CallHolds(states[n], states[n].calls[c]);
  }

  lemma AttemptsNeverExceed(states: seq<State>, actions: seq<Action>, n: nat, id: Id)
    requires IsRun(states, actions) && n <= |actions| && id in states[n].rows
    ensures states[n].rows[id].attemptCount <= states[n].rows[id].maxAttempts
  {
    RunKeepsInv(states, actions, n);
    assert RowHolds(states[n].rows[id], states[n].now);
  }

  /** Expired or exhausted challenges are never stamped or consumed by their holder again. */
  lemma ClosedToWrites(s: State, a: Action, id: Id)
    requires Inv(s) && Enabled(s, a) && id in s.rows && (a.Stamp? || a.Complete?) && s.calls[a.call].id == id
    requires s.rows[id].expiresAt <= s.now || s.rows[id].attemptCount >= s.rows[id].maxAttempts
    ensures Next(s, a).rows == s.rows && Next(s, a).calls[a.call] == Done
  {
    assert CallHolds(s, s.calls[a.call]);
  }

  /**
   A completed reset ends every other challenge its user had at that moment: none of them, stamped or not,
   can change the password later in the run.
   */
  lemma CompletionEndsSiblings(states: seq<State>, actions: seq<Action>, i: nat, j: nat, c: Id, d: Id, other: Id)
    requires IsRun(states, actions) && i < j < |actions|
    requires actions[i] == Complete(c) && states[i + 1].calls[c].Completed?
    requires other in states[i].rows && states[i].rows[other].userId == states[i].calls[c].row.userId
    requires actions[j] == Complete(d) && states[j].calls[d].id == other
    ensures states[j + 1].calls[d] == Done && states[j + 1].rows == states[j].rows
  {
    var s := states[i];
    assert states[i + 1] == Next(s, actions[i]);
    assert states[i + 1].rows[other].consumedAt.Some?;
    LifecycleOneWay(states, actions, i + 1, j, other);
    assert states[j + 1] == Next(states[j], actions[j]);
  }

  /** The step wins the completion of its own challenge. */
  predicate WinsCompletion(s: State, a: Action) {
    a.Complete? && LoadedCall(s, a.call) && MayConsume(s.rows[s.calls[a.call].id], s.now, s.calls[a.call].row.maxAttempts)
  }

  /**
   A challenge is consumed without ever being stamped exactly by another reset of its user: an
   administrator's, or the completion of a sibling. Its own holder cannot do it.
   */
  lemma UnstampedConsumeIff(s: State, a: Action, id: Id)
    requires Inv(s) && Enabled(s, a) && id in s.rows
    requires s.rows[id].consumedAt.None? && s.rows[id].factorVerifiedAt.None?
    ensures Next(s, a).rows[id].consumedAt.Some? <==>
            (a.CloseAll? && a.userId == s.rows[id].userId)
            || (WinsCompletion(s, a) && s.calls[a.call].id != id && s.calls[a.call].row.userId == s.rows[id].userId)
  {
    if a.Complete? {
      assert CallHolds(s, s.calls[a.call]);
    }
  }

  /** So a run can end with a challenge that is consumed and was never stamped. */
  lemma ConsumedUnstamped() returns (states: seq<State>, actions: seq<Action>)
    ensures IsRun(states, actions) && |actions| == 2 && 1 in states[2].rows
    ensures states[2].rows[1].consumedAt.Some? && states[2].rows[1].factorVerifiedAt.None?
  {
    actions := [Create(1, 7, 1000, 5), CloseAll(7)];
    var s1 := Next(Initial(0), actions[0]);
    states := [Initial(0), s1, Next(s1, actions[1])];
  }

  // ---------------------------------------------------------------- what each step does, and when

  /**
   A load opens the challenge exactly when there is one, unconsumed, before its expiry, with attempts left, and the
   secret is right.
   */
  lemma OpensIff(s: State, c: Id, id: Id, secretOk: bool)
    requires Enabled(s, Load(c, id, secretOk))
    ensures var s' := Next(s, Load(c, id, secretOk));
            && s'.rows == s.rows && (s'.calls[c] == Done || (id in s.rows && s'.calls[c] == Loaded(id, s.rows[id])))
            && (s'.calls[c].Loaded? <==> secretOk && id in s.rows && s.rows[id].consumedAt.None?
                                         && s.now < s.rows[id].expiresAt && s.rows[id].attemptCount < s.rows[id].maxAttempts)
  {
  }

  /** The challenge can still be written: unconsumed, before its expiry, with attempts left. */
  predicate StillOpen(s: State, id: Id) {
    && id in s.rows && s.rows[id].consumedAt.None? && s.now < s.rows[id].expiresAt
    && s.rows[id].attemptCount < s.rows[id].maxAttempts
  }

  /** A stamp wins exactly on a challenge still open and not stamped yet, and writes time and method there alone. */
  lemma StampsIff(s: State, c: Id, factor: Method)
    requires Inv(s) && Enabled(s, Stamp(c, factor))
    ensures var id, s' := s.calls[c].id, Next(s, Stamp(c, factor));
            if StillOpen(s, id) && s.rows[id].factorVerifiedAt.None?
            then s'.calls[c] == Stamped(id)
                 && s'.rows == s.rows[id := s.rows[id].(factorVerifiedAt := Some(s.now), factorMethod := Some(factor))]
            else s'.calls[c] == Done && s'.rows == s.rows
  {
    assert CallHolds(s, s.calls[c]);
  }

  /** The open challenges of a user are consumed at `now`; every other row stays as it is. */
  predicate ClosesExactly(t: map<Id, Row>, t': map<Id, Row>, userId: Id, now: int) {
    && t'.Keys == t.Keys
    && forall id :: id in t ==>
         if t[id].userId == userId && t[id].consumedAt.None? then t'[id] == t[id].(consumedAt := Some(now)) else t'[id] == t[id]
  }

  /** A completion wins exactly on a challenge still open and stamped, and closes all challenges of its user. */
  lemma CompletesIff(s: State, c: Id)
    requires Inv(s) && Enabled(s, Complete(c))
    ensures var id, s' := s.calls[c].id, Next(s, Complete(c));
            if StillOpen(s, id) && s.rows[id].factorVerifiedAt.Some?
            then s'.calls[c] == Completed(id) && ClosesExactly(s.rows, s'.rows, s.rows[id].userId, s.now)
            else s'.calls[c] == Done && s'.rows == s.rows
  {
    assert CallHolds(s, s.calls[c]);
  }

  lemma AdministratorCloses(s: State, userId: Id)
    ensures ClosesExactly(s.rows, Next(s, CloseAll(userId)).rows, userId, s.now)
  {
  }

  /** A failed attempt that meets the challenge still open. */
  predicate Counts(s: State, a: Action, id: Id) {
    a.Fail? && LoadedCall(s, a.call) && s.calls[a.call].id == id && StillOpen(s, id)
  }

  function FailuresOf(states: seq<State>, actions: seq<Action>, n: nat, id: Id): nat
    requires n <= |actions| < |states|
  {
    if n == 0 then 0
    else FailuresOf(states, actions, n - 1, id) + (if Counts(states[n - 1], actions[n - 1], id) then 1 else 0)
  }

  lemma StepCounts(s: State, a: Action, id: Id)
    requires Inv(s) && Enabled(s, a) && id in Next(s, a).rows
    ensures Next(s, a).rows[id].attemptCount ==
            (if id in s.rows then s.rows[id].attemptCount else 0) + (if Counts(s, a, id) then 1 else 0)
  {
    if a.Fail? {
      assert CallHolds(s, s.calls[a.call]);
    }
  }

  /** Over every run the stored count is the number of failed attempts that met the challenge still open. */
  lemma {:induction false} AttemptsAreExact(states: seq<State>, actions: seq<Action>, n: nat, id: Id)
    requires IsRun(states, actions) && n <= |actions|
    ensures FailuresOf(states, actions, n, id) == if id in states[n].rows then states[n].rows[id].attemptCount else 0
  {
    if n > 0 {
      AttemptsAreExact(states, actions, n - 1, id);
      RunKeepsInv(states, actions, n - 1);
      if id in states[n].rows {
        StepCounts(states[n - 1], actions[n - 1], id);
      } else {
        assert id !in states[n - 1].rows;
      }
    }
  }

  /** After `maxAttempts` of them nothing opens, stamps or completes the challenge for the rest of the run. */
  lemma ExhaustedIsClosed(states: seq<State>, actions: seq<Action>, i: nat, j: nat, id: Id)
    requires IsRun(states, actions) && i <= j < |actions| && id in states[i].rows
    requires FailuresOf(states, actions, i, id) >= states[i].rows[id].maxAttempts
    ensures actions[j].Load? && actions[j].id == id ==> states[j + 1].calls[actions[j].call] == Done
    ensures (actions[j].Stamp? || actions[j].Complete?) && states[j].calls[actions[j].call].id == id ==>
              states[j + 1].calls[actions[j].call] == Done && states[j + 1].rows == states[j].rows
  {
    AttemptsAreExact(states, actions, i, id);
    LifecycleOneWay(states, actions, i, j, id);
    RunKeepsInv(states, actions, j);
    var s, a := states[j], actions[j];
    assert states[j + 1] == Next(s, a) && !StillOpen(s, id);
    match a
    case Load(c, other, secretOk) => OpensIff(s, c, other, secretOk);
    case Stamp(c, factor) => StampsIff(s, c, factor);
    case Complete(c) => CompletesIff(s, c);
    case _ =>
  }

  /** Undisturbed, an open challenge is stamped by one call and completed by the next, which consumes it. */
  lemma StampThenComplete(s: State, c: Id, d: Id, id: Id, factor: Method) returns (s2: State, s4: State)
    requires StillOpen(s, id) && s.rows[id].factorVerifiedAt.None? && c !in s.calls && d !in s.calls && c != d
    ensures Enabled(s, Load(c, id, true)) && Enabled(Next(s, Load(c, id, true)), Stamp(c, factor))
    ensures s2 == Next(Next(s, Load(c, id, true)), Stamp(c, factor)) && s2.calls[c] == Stamped(id)
    ensures Enabled(s2, Load(d, id, true)) && Enabled(Next(s2, Load(d, id, true)), Complete(d))
    ensures s4 == Next(Next(s2, Load(d, id, true)), Complete(d)) && s4.calls[d] == Completed(id)
    ensures id in s4.rows && s4.rows[id] == s.rows[id].(factorVerifiedAt := Some(s.now), factorMethod := Some(factor),
                                                        consumedAt := Some(s.now))
  {
    s2 := Next(Next(s, Load(c, id, true)), Stamp(c, factor));
    s4 := Next(Next(s2, Load(d, id, true)), Complete(d));
  }
}
