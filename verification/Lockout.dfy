/**
 Account lockout. A login reads the user row, verifies the password against that snapshot, and then
 either resets the counters or increments the stored count and compare-and-sets the lock.
 */
module Lockout {
  import opened Options

  type Id = nat

  const MAX_FAILED_LOGINS: nat := 5
  const LOCK_MS: int := 900_000

  datatype Row = Row(failedLoginCount: nat, lockedUntil: Option<int>)

  datatype Call =
    | Verifying             // passed the lock check; its password is being verified
    | Incremented(state: Row) // wrote the increment and holds the row that write returned
    | Locking(state: Row)   // decided to write the lock
    | Refused               // answered 423 without looking at the password
    | Failed(locked: bool)  // answered 401; `locked` when this failure set the lock
    | Succeeded

  /** `lastFailure` is history: when the last failure was counted. The code does not store it. */
  datatype State = State(now: int, row: Row, calls: map<Id, Call>, lastFailure: int)

  function Initial(now: int): State {
    State(now, Row(0, None), map[], now)
  }

  predicate LockedAt(row: Row, now: int) {
    row.lockedUntil.Some? && row.lockedUntil.value > now
  }

  datatype Action =
    | Read(call: Id)
    | Increment(call: Id)
    | Decide(call: Id)
    | Lock(call: Id)
    | Succeed(call: Id)
    | ResetByPassword // a completed password reset clears both fields
    | Pass(ms: nat)

  predicate Enabled(s: State, a: Action) {
    match a
    case Read(c) => c !in s.calls
    case Increment(c) => c in s.calls && s.calls[c].Verifying?
    case Succeed(c) => c in s.calls && s.calls[c].Verifying?
    case Decide(c) => c in s.calls && s.calls[c].Incremented?
    case Lock(c) => c in s.calls && s.calls[c].Locking?
    case ResetByPassword => true
    case Pass(_) => true
  }

  function Next(s: State, a: Action): State
    requires Enabled(s, a)
  {
    match a
    case Read(c) => s.(calls := s.calls[c := if LockedAt(s.row, s.now) then Refused else Verifying])
    case Increment(c) =>
      var row := s.row.(failedLoginCount := s.row.failedLoginCount + 1);
      s.(row := row, calls := s.calls[c := Incremented(row)], lastFailure := s.now)
    case Decide(c) =>
      var seen := s.calls[c].state;
      s.(calls := s.calls[c := if seen.failedLoginCount >= MAX_FAILED_LOGINS && !LockedAt(seen, s.now)
                               then Locking(seen) else Failed(false)])
    case Lock(c) =>
      if s.row == s.calls[c].state
      then s.(row := s.row.(lockedUntil := Some(s.now + LOCK_MS)), calls := s.calls[c := Failed(true)])
      else s.(calls := s.calls[c := Failed(false)])
    case Succeed(c) => s.(row := Row(0, None), calls := s.calls[c := Succeeded])
    case ResetByPassword => s.(row := Row(0, None))
    case Pass(ms) => s.(now := s.now + ms)
  }

  class LoginService {
    var now: int
    var failedLoginCount: nat
    var lockedUntil: Option<int>
    var calls: map<Id, Call>
    ghost var lastFailure: int

    ghost function Snapshot(): State reads this {
      State(now, Row(failedLoginCount, lockedUntil), calls, lastFailure)
    }

    constructor (start: int)
      ensures Snapshot() == Initial(start)
    {
      now := start;
      failedLoginCount, lockedUntil, calls := 0, None, map[];
      lastFailure := start;
    }

    /** `login`: read the row; a future `lockedUntil` answers 423 before any password work. */
    method Begin(call: Id)
      requires Enabled(Snapshot(), Read(call))
      modifies this
      ensures Snapshot() == Next(old(Snapshot()), Read(call))
    {
      if lockedUntil.Some? && lockedUntil.value > now {
        calls := calls[call := Refused];
      } else {
        calls := calls[call := Verifying];
      }
    }

    /** A verified password resets both fields. */
    method RecordSuccess(call: Id)
      requires Enabled(Snapshot(), Succeed(call))
      modifies this
      ensures Snapshot() == Next(old(Snapshot()), Succeed(call))
    {
      failedLoginCount, lockedUntil := 0, None;
      calls := calls[call := Succeeded];
    }

    /** `registerFailure`, first statement: increment the stored value and return the row. */
    method IncrementFailures(call: Id) returns (state: Row)
      requires Enabled(Snapshot(), Increment(call))
      modifies this
      ensures Snapshot() == Next(old(Snapshot()), Increment(call))
      ensures state == Snapshot().row
    {
      failedLoginCount := failedLoginCount + 1;
      state := Row(failedLoginCount, lockedUntil);
      calls := calls[call := Incremented(state)];
      lastFailure := now;
    }

    method DecideLock(call: Id)
      requires Enabled(Snapshot(), Decide(call))
      modifies this
      ensures Snapshot() == Next(old(Snapshot()), Decide(call))
    {
      var state := calls[call].state;
      var alreadyLocked := state.lockedUntil.Some? && state.lockedUntil.value > now;
      if state.failedLoginCount >= MAX_FAILED_LOGINS && !alreadyLocked {
        calls := calls[call := Locking(state)];
      } else {
        calls := calls[call := Failed(false)];
      }
    }

    /** `registerFailure`, second statement: set the deadline if the row is still the one returned. */
    method CompareAndLock(call: Id) returns (locked: bool)
      requires Enabled(Snapshot(), Lock(call))
      modifies this
      ensures Snapshot() == Next(old(Snapshot()), Lock(call))
      ensures calls[call] == Failed(locked)
    {
      var state := calls[call].state;
      locked := failedLoginCount == state.failedLoginCount && lockedUntil == state.lockedUntil;
      if locked {
        lockedUntil := Some(now + LOCK_MS);
      }
      calls := calls[call := Failed(locked)];
    }
  }

  // ---------------------------------------------------------------- invariants

  predicate Pending(call: Call) {
    call.Verifying? || call.Incremented? || call.Locking?
  }

  /** A failure in flight that still holds the current row. */
  predicate HoldsRow(s: State, c: Id) {
    c in s.calls && (s.calls[c].Incremented? || s.calls[c].Locking?) && s.calls[c].state == s.row
  }

  /**
   At five or more failures the account is locked past the last one, or the failure that will see to it is in
   flight.
   */
  ghost predicate LockSecured(s: State) {
    s.row.failedLoginCount >= MAX_FAILED_LOGINS ==>
      || (s.row.lockedUntil.Some? && s.row.lockedUntil.value > s.lastFailure)
      || exists c :: HoldsRow(s, c)
  }

  ghost predicate Inv(s: State) {
    && s.lastFailure <= s.now
    && (s.row.lockedUntil.Some? ==> s.row.lockedUntil.value <= s.now + LOCK_MS)
    && (forall c :: c in s.calls && s.calls[c].Locking? ==> s.calls[c].state.failedLoginCount >= MAX_FAILED_LOGINS)
    && LockSecured(s)
  }

  lemma StepKeepsSecured(s: State, a: Action)
    requires Inv(s) && Enabled(s, a)
    ensures LockSecured(Next(s, a))
  {
    var s' := Next(s, a);
    if s'.row.failedLoginCount >= MAX_FAILED_LOGINS {
      if a.Increment? {
        assert HoldsRow(s', a.call);
      } else if s'.row == s.row && exists c :: HoldsRow(s, c) {
        var c :| HoldsRow(s, c);
        if !(a.Decide? && a.call == c) && !(a.Lock? && a.call == c) {
          assert HoldsRow(s', c);
        } else if a.Decide? {
          assert s'.calls[c].Locking? ==> HoldsRow(s', c);
        }
      }
    }
  }

  lemma StepKeepsInv(s: State, a: Action)
    requires Inv(s) && Enabled(s, a)
    ensures Inv(Next(s, a))
  {
    StepKeepsSecured(s, a);
  }

  ghost predicate IsRun(states: seq<State>, actions: seq<Action>) {
    && |states| == |actions| + 1 && states[0] == Initial(states[0].now)
    && forall i :: 0 <= i < |actions| ==> Enabled(states[i], actions[i]) && states[i + 1] == Next(states[i], actions[i])
  }

  lemma {:induction false} RunKeepsInv(states: seq<State>, actions: seq<Action>, n: nat)
    requires IsRun(states, actions) && n <= |actions|
    ensures Inv(states[n])
  {
    if n > 0 {
      RunKeepsInv(states, actions, n - 1);
      StepKeepsInv(states[n - 1], actions[n - 1]);
    }
  }

  /** The steps that reset the counters. */
  predicate Resets(a: Action) {
    a.Succeed? || a.ResetByPassword?
  }

  function FailuresSince(actions: seq<Action>, n: nat): nat
    requires n <= |actions|
  {
    if n == 0 || Resets(actions[n - 1]) then 0
    else FailuresSince(actions, n - 1) + (if actions[n - 1].Increment? then 1 else 0)
  }

  /** No concurrent failure is lost: the stored count is the number of failures since the last reset. */
  lemma {:induction false} CountIsExact(states: seq<State>, actions: seq<Action>, n: nat)
    requires IsRun(states, actions) && n <= |actions|
    ensures states[n].row.failedLoginCount == FailuresSince(actions, n)
  {
    if n > 0 {
      CountIsExact(states, actions, n - 1);
    }
  }

  /** A lock is only ever written over a stored count of at least five, and points 15 minutes ahead. */
  lemma LockNeedsFive(states: seq<State>, actions: seq<Action>, n: nat)
    requires IsRun(states, actions) && n < |actions|
    requires states[n + 1].row.lockedUntil != states[n].row.lockedUntil && states[n + 1].row.lockedUntil.Some?
    ensures actions[n].Lock? && states[n].row.failedLoginCount >= MAX_FAILED_LOGINS
    ensures states[n + 1].row == Row(states[n].row.failedLoginCount, Some(states[n].now + LOCK_MS))
  {
    RunKeepsInv(states, actions, n);
  }

  ghost predicate Quiet(s: State) {
    forall c :: c in s.calls ==> !Pending(s.calls[c])
  }

  /** With no call pending, five failures since the last reset mean a lock that outlasts the last of them. */
  lemma QuietMeansLocked(states: seq<State>, actions: seq<Action>, n: nat)
    requires IsRun(states, actions) && n <= |actions| && Quiet(states[n])
    requires FailuresSince(actions, n) >= MAX_FAILED_LOGINS
    ensures states[n].row.lockedUntil.Some? && states[n].row.lockedUntil.value > states[n].lastFailure
  {
    RunKeepsInv(states, actions, n);
    CountIsExact(states, actions, n);
  }

  ghost predicate NoneVerifying(s: State) {
    forall c :: c in s.calls ==> !s.calls[c].Verifying?
  }

  /**
   Once no password check is in flight and the lock is set, no failure is counted, no login resets the
   counters and every new login is refused before its password is looked at, until the deadline passes.
   Later locks can only move the deadline further.
   */
  lemma {:induction false} LockHolds(states: seq<State>, actions: seq<Action>, i: nat, j: nat)
    requires IsRun(states, actions) && i <= j <= |actions|
    requires NoneVerifying(states[i]) && states[i].row.lockedUntil.Some?
    requires states[j].now < states[i].row.lockedUntil.value
    requires forall k :: i <= k < j ==> !actions[k].ResetByPassword?
    ensures NoneVerifying(states[j]) && states[j].row.failedLoginCount == states[i].row.failedLoginCount
    ensures states[j].row.lockedUntil.Some? && states[j].row.lockedUntil.value >= states[i].row.lockedUntil.value
    ensures forall c :: Enabled(states[j], Read(c)) ==> Next(states[j], Read(c)).calls[c] == Refused
  {
    if i < j {
      var s, a := states[j - 1], actions[j - 1];
      assert states[j] == Next(s, a);
      assert s.now <= states[j].now;
      LockHolds(states, actions, i, j - 1);
      RunKeepsInv(states, actions, j - 1);
    }
  }

  // ---------------------------------------------------------------- who is let in

  /** A new login is refused unseen exactly when a deadline is stored that lies after now; reading changes no row. */
  lemma RefusedIff(s: State, c: Id)
    requires Enabled(s, Read(c))
    ensures var s' := Next(s, Read(c));
            && s'.row == s.row && s'.now == s.now && (s'.calls[c].Refused? || s'.calls[c].Verifying?)
            && (s'.calls[c].Refused? <==> s.row.lockedUntil.Some? && s.row.lockedUntil.value > s.now)
  {
  }

  /** A failure decides to lock exactly when it was the fifth or a later one and found no deadline after now. */
  lemma DecidesIff(s: State, c: Id)
    requires Enabled(s, Decide(c))
    ensures var seen, call := s.calls[c].state, Next(s, Decide(c)).calls[c];
            && Next(s, Decide(c)).row == s.row && (call == Locking(seen) || call == Failed(false))
            && (call.Locking? <==> seen.failedLoginCount >= 5 && (seen.lockedUntil.None? || seen.lockedUntil.value <= s.now))
  {
  }

  /** It writes the deadline, and says so, exactly when neither column has changed since its increment. */
  lemma WritesIff(s: State, c: Id)
    requires Enabled(s, Lock(c))
    ensures var seen, s' := s.calls[c].state, Next(s, Lock(c));
            if s.row.failedLoginCount == seen.failedLoginCount && s.row.lockedUntil == seen.lockedUntil
            then s'.calls[c] == Failed(true) && s'.row == Row(seen.failedLoginCount, Some(s.now + 15 * 60 * 1000))
            else s'.calls[c] == Failed(false) && s'.row == s.row
  {
  }

  /** The step writes a deadline. */
  predicate SetsLock(s: State, a: Action) {
    a.Lock? && a.call in s.calls && s.calls[a.call].Locking? && s.calls[a.call].state == s.row
  }

  /** The deadline written last, unless a reset came after it. */
  function LastDeadline(states: seq<State>, actions: seq<Action>, n: nat): Option<int>
    requires n <= |actions| < |states|
  {
    if n == 0 || Resets(actions[n - 1]) then None
    else if SetsLock(states[n - 1], actions[n - 1]) then Some(states[n - 1].now + LOCK_MS)
    else LastDeadline(states, actions, n - 1)
  }

  lemma {:induction false} DeadlineIsExact(states: seq<State>, actions: seq<Action>, n: nat)
    requires IsRun(states, actions) && n <= |actions|
    ensures states[n].row.lockedUntil == LastDeadline(states, actions, n)
  {
    if n > 0 {
      DeadlineIsExact(states, actions, n - 1);
    }
  }

  /** Over every run: a new login is refused exactly while the deadline written last, and not reset since, lies ahead. */
  lemma RefusedUntilIff(states: seq<State>, actions: seq<Action>, n: nat, c: Id)
    requires IsRun(states, actions) && n <= |actions| && Enabled(states[n], Read(c))
    ensures Next(states[n], Read(c)).calls[c] ==
            match LastDeadline(states, actions, n)
            case None => Verifying
            case Some(deadline) => if states[n].now < deadline then Refused else Verifying
  {
    DeadlineIsExact(states, actions, n);
  }

  /** So time alone lets an account in again: at the last deadline, if no later lock was set, the password is checked. */
  lemma LockExpires(states: seq<State>, actions: seq<Action>, i: nat, j: nat, c: Id)
    requires IsRun(states, actions) && i <= j <= |actions| && Enabled(states[j], Read(c))
    requires LastDeadline(states, actions, i).Some? && states[j].now >= LastDeadline(states, actions, i).value
    requires forall k :: i <= k < j ==> !SetsLock(states[k], actions[k])
    ensures Next(states[j], Read(c)).calls[c] == Verifying
  {
    NoLaterDeadline(states, actions, i, j);
    RefusedUntilIff(states, actions, j, c);
  }

  lemma {:induction false} NoLaterDeadline(states: seq<State>, actions: seq<Action>, i: nat, j: nat)
    requires i <= j <= |actions| < |states| && forall k :: i <= k < j ==> !SetsLock(states[k], actions[k])
    ensures LastDeadline(states, actions, j).None? || LastDeadline(states, actions, j) == LastDeadline(states, actions, i)
  {
    if i < j {
      NoLaterDeadline(states, actions, i, j - 1);
    }
  }

  // ---------------------------------------------------------------- whole logins, undisturbed

  predicate MayTry(s: State, c: Id) {
    c !in s.calls && (s.row.lockedUntil.None? || s.row.lockedUntil.value <= s.now)
  }

  /** A right password at an account that is not locked lets its owner in and clears both columns. */
  lemma RightPasswordLogsIn(s: State, c: Id)
    requires MayTry(s, c)
    ensures Enabled(s, Read(c)) && Enabled(Next(s, Read(c)), Succeed(c))
    ensures Next(Next(s, Read(c)), Succeed(c)) == s.(row := Row(0, None), calls := s.calls[c := Succeeded])
  {
    assert Next(Next(s, Read(c)), Succeed(c)).calls == s.calls[c := Succeeded];
  }

  /** A wrong one counts one more, and from the fifth on it locks the account for a quarter of an hour. */
  lemma WrongPasswordCounts(s: State, c: Id)
    requires MayTry(s, c)
    ensures Enabled(s, Read(c)) &&
            var s1 := Next(s, Read(c));
            Enabled(s1, Increment(c)) &&
            var s2, count := Next(s1, Increment(c)), s.row.failedLoginCount + 1;
            Enabled(s2, Decide(c)) &&
            var s3 := Next(s2, Decide(c));
            if count < 5 then s3.calls == s.calls[c := Failed(false)] && s3.row == Row(count, s.row.lockedUntil)
            else
              && Enabled(s3, Lock(c)) && Next(s3, Lock(c)).calls == s.calls[c := Failed(true)]
              && Next(s3, Lock(c)).row == Row(count, Some(s.now + 15 * 60 * 1000))
  {
    var s3 := Next(Next(Next(s, Read(c)), Increment(c)), Decide(c));
    assert s3.calls == s.calls[c := s3.calls[c]];
    if s.row.failedLoginCount + 1 >= 5 {
      WritesIff(s3, c);
    }
  }
}
