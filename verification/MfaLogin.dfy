/**
 Who spends second factors: the completion of a login, a password reset, and the re-authentication of MFA
 management with the confirmation of an enrolment, which share one user row and one set of backup codes. Every
 database statement or transaction is one atomic step; calls act on the challenge, the secret, the replay floor
 and the unused codes they read earlier.
 */
module MfaLogin {
  import opened Options

  type Id = nat

  /** Reset challenges have a table of their own; here the purpose tells them apart. */
  datatype Purpose = Login | Enroll | Reset

  /** `epoch` counts the changes of the secret (enrolment started, MFA disabled or reset), so it names the secret. */
  datatype User = User(hasSecret: bool, floor: Option<int>, epoch: nat)

  datatype Challenge = Challenge(
    userId: Id, purpose: Purpose, consumed: bool, stamped: bool, expiresAt: int, attemptCount: nat, maxAttempts: nat)

  datatype Code = Code(userId: Id, used: bool)

  /** A TOTP code is a step of a secret; `epoch` is the one of the row at the moment the step was written to it. */
  datatype Factor = Totp(userId: Id, secret: nat, epoch: nat, step: int) | Backup(userId: Id, codeId: Id)

  datatype Session = Session(userId: Id, live: bool)

  /** What `loadOpen` hands to the verification. */
  datatype OpenChallenge = OpenChallenge(id: Id, userId: Id, purpose: Purpose, stamped: bool, maxAttempts: nat)

  datatype Call =
    | Loaded(open: OpenChallenge)
    | FloorRead(open: OpenChallenge, secret: nat, floor: Option<int>)
    | CodesRead(open: OpenChallenge, unused: seq<Id>)
    | Rejecting(open: OpenChallenge)
    | FactorSpent(open: OpenChallenge, factor: Factor)
    | ChallengeWon(open: OpenChallenge, factor: Factor)
    | Issued(open: OpenChallenge, factor: Factor, sessionId: Id)
    | Stamped(open: OpenChallenge, factor: Factor) // a reset challenge has its factor
    | RowRead(userId: Id, secret: nat, floor: Option<int>) // management or confirmation, without a challenge
    | Accepted(factor: Factor) // re-authenticated or confirmed
    | Ended // any other answer

  /** `spent` is history: the factors in the order in which they were spent. */
  datatype State = State(
    users: map<Id, User>,
    challenges: map<Id, Challenge>,
    codes: map<Id, Code>,
    calls: map<Id, Call>,
    sessions: map<Id, Session>,
    spent: seq<Factor>)

  const INITIAL := State(map[], map[], map[], map[], map[], [])

  datatype Action =
    | AddUser(userId: Id)
    | CreateChallenge(id: Id, challenge: Challenge)
    | LoadOpen(call: Id, id: Id, now: int, secretOk: bool)
    | Mismatch(call: Id) // a reset presented from another device
    | ReadFloor(call: Id)
    | SpendTotp(call: Id, usedStep: Option<int>)
    | ReadCodes(call: Id, order: seq<Id>)
    | SpendCode(call: Id, matching: Option<Id>)
    | ReadRow(call: Id, userId: Id) // a re-authentication of MFA management, or a confirmation
    | AcceptStep(call: Id, usedStep: Option<int>)
    | RedeemForManagement(call: Id, userId: Id, codeId: Id)
    | Reject(call: Id, now: int)
    | Consume(call: Id, now: int)
    | IssueSession(call: Id, sessionId: Id)
    | Stamp(call: Id, now: int)
    | StartEnrolment(userId: Id)
    | Disable(userId: Id)
    | AdminReset(userId: Id)
    | ReplaceCodes(userId: Id, newIds: set<Id>)
    | RevokeTrust(userId: Id) // a completed password reset, or one by an administrator

  predicate IsOpen(row: Challenge, now: int) {
    !row.consumed && row.expiresAt > now && row.attemptCount < row.maxAttempts
  }

  /** The `where` of `consume` and `registerFailedAttempt`, with the limit the caller loaded. */
  predicate MayWrite(row: Challenge, now: int, maxAttempts: nat) {
    !row.consumed && row.expiresAt > now && row.attemptCount < maxAttempts
  }

  predicate UnusedOf(codes: map<Id, Code>, userId: Id, k: Id) {
    k in codes && codes[k].userId == userId && !codes[k].used
  }

  /** `order` lists the user's unused codes, in whatever order the query returns them. */
  ghost predicate ListsUnused(codes: map<Id, Code>, userId: Id, order: seq<Id>) {
    forall k :: k in order <==> UnusedOf(codes, userId, k)
  }

  function WithoutCodesOf(codes: map<Id, Code>, userId: Id): map<Id, Code> {
    map k | k in codes && codes[k].userId != userId :: codes[k]
  }

  /** Every open challenge of the user is consumed; those of password resets only if `resetsToo`. */
  function Closed(challenges: map<Id, Challenge>, userId: Id, resetsToo: bool): map<Id, Challenge> {
    map id | id in challenges ::
      if challenges[id].userId == userId && (resetsToo || challenges[id].purpose != Reset)
      then challenges[id].(consumed := true) else challenges[id]
  }

  function Revoked(sessions: map<Id, Session>, userId: Id): map<Id, Session> {
    map id | id in sessions ::
      if sessions[id].userId == userId then sessions[id].(live := false) else sessions[id]
  }

  /** The row after the secret is set or cleared: no step has been accepted under it. */
  function FreshRow(user: User, hasSecret: bool): User {
    User(hasSecret, None, user.epoch + 1)
  }

  ghost predicate Enabled(s: State, a: Action) {
    match a
    case AddUser(u) => u !in s.users
    case CreateChallenge(id, ch) =>
      id !in s.challenges && ch.userId in s.users && !ch.consumed && !ch.stamped && ch.attemptCount == 0
    case LoadOpen(c, _, _, _) => c !in s.calls
    case Mismatch(c) => c in s.calls && s.calls[c].Loaded? && s.calls[c].open.purpose == Reset
    case ReadFloor(c) => c in s.calls && s.calls[c].Loaded? && s.calls[c].open.userId in s.users
    // All that is assumed of the TOTP check: an accepted step is above the floor it was given.
    case SpendTotp(c, usedStep) =>
      && c in s.calls && s.calls[c].FloorRead? && s.calls[c].open.userId in s.users
      && (usedStep.Some? && s.calls[c].floor.Some? ==> usedStep.value > s.calls[c].floor.value)
    case ReadCodes(c, order) =>
      c in s.calls && s.calls[c].Loaded? && ListsUnused(s.codes, s.calls[c].open.userId, order)
    case SpendCode(c, matching) =>
      c in s.calls && s.calls[c].CodesRead? && (matching.Some? ==> matching.value in s.calls[c].unused)
    case ReadRow(c, u) => c !in s.calls && u in s.users
    case AcceptStep(c, usedStep) =>
      && c in s.calls && s.calls[c].RowRead? && s.calls[c].userId in s.users
      && (usedStep.Some? && s.calls[c].floor.Some? ==> usedStep.value > s.calls[c].floor.value)
    case RedeemForManagement(c, u, k) => c !in s.calls && (k in s.codes ==> s.codes[k].userId == u)
    case Reject(c, _) => c in s.calls && s.calls[c].Rejecting? && s.calls[c].open.id in s.challenges
    case Consume(c, _) =>
      c in s.calls && s.calls[c].FactorSpent? && s.calls[c].open.purpose == Login && s.calls[c].open.id in s.challenges
    case Stamp(c, _) =>
      c in s.calls && s.calls[c].FactorSpent? && s.calls[c].open.purpose == Reset && s.calls[c].open.id in s.challenges
    case IssueSession(c, sessionId) => c in s.calls && s.calls[c].ChallengeWon? && sessionId !in s.sessions
    case StartEnrolment(u) => u in s.users
    case Disable(u) => u in s.users
    case AdminReset(u) => u in s.users
    // Code ids are fresh: not in the table now, and never redeemed before.
    case ReplaceCodes(_, newIds) =>
      newIds !! s.codes.Keys && forall i :: 0 <= i < |s.spent| && s.spent[i].Backup? ==> s.spent[i].codeId !in newIds
    case RevokeTrust(_) => true
  }

  /** A login takes LOGIN challenges only; a reset whose factor is stamped already answers without spending one. */
  predicate Proceeds(open: OpenChallenge) {
    open.purpose == Login || (open.purpose == Reset && !open.stamped)
  }

  function AfterLoad(s: State, id: Id, now: int, secretOk: bool): Call {
    if id in s.challenges && IsOpen(s.challenges[id], now) && secretOk
    then var row := s.challenges[id]; Loaded(OpenChallenge(id, row.userId, row.purpose, row.stamped, row.maxAttempts))
    else Ended
  }

  ghost function AfterSpendTotp(s: State, c: Id, usedStep: Option<int>): State
    requires Enabled(s, SpendTotp(c, usedStep))
  {
    var open, user := s.calls[c].open, s.users[s.calls[c].open.userId];
    if usedStep.Some? && user.floor == s.calls[c].floor then
      var factor := Totp(open.userId, s.calls[c].secret, user.epoch, usedStep.value);
      s.(users := s.users[open.userId := user.(floor := usedStep)],
         calls := s.calls[c := FactorSpent(open, factor)], spent := s.spent + [factor])
    else s.(calls := s.calls[c := Rejecting(open)])
  }

  ghost function AfterSpendCode(s: State, c: Id, matching: Option<Id>): State
    requires Enabled(s, SpendCode(c, matching))
  {
    var open := s.calls[c].open;
    if matching.Some? && matching.value in s.codes && !s.codes[matching.value].used then
      var factor := Backup(open.userId, matching.value);
      s.(codes := s.codes[matching.value := s.codes[matching.value].(used := true)],
         calls := s.calls[c := FactorSpent(open, factor)], spent := s.spent + [factor])
    else s.(calls := s.calls[c := Rejecting(open)])
  }

  ghost function AfterAcceptStep(s: State, c: Id, usedStep: Option<int>): State
    requires Enabled(s, AcceptStep(c, usedStep))
  {
    if usedStep.Some? then
      var u := s.calls[c].userId;
      var factor := Totp(u, s.calls[c].secret, s.users[u].epoch, usedStep.value);
      s.(users := s.users[u := s.users[u].(floor := usedStep)],
         calls := s.calls[c := Accepted(factor)], spent := s.spent + [factor])
    else s.(calls := s.calls[c := Ended])
  }

  ghost function AfterRedeemForManagement(s: State, c: Id, u: Id, k: Id): State
    requires Enabled(s, RedeemForManagement(c, u, k))
  {
    if k in s.codes && !s.codes[k].used then
      s.(codes := s.codes[k := s.codes[k].(used := true)],
         calls := s.calls[c := Accepted(Backup(u, k))], spent := s.spent + [Backup(u, k)])
    else s.(calls := s.calls[c := Ended])
  }

  ghost function AfterReject(s: State, c: Id, now: int): State
    requires Enabled(s, Reject(c, now))
  {
    var open := s.calls[c].open;
    var row := s.challenges[open.id];
    s.(challenges := if MayWrite(row, now, open.maxAttempts)
                     then s.challenges[open.id := row.(attemptCount := row.attemptCount + 1)] else s.challenges,
       calls := s.calls[c := Ended])
  }

  ghost function AfterConsume(s: State, c: Id, now: int): State
    requires Enabled(s, Consume(c, now))
  {
    var open := s.calls[c].open;
    var row := s.challenges[open.id];
    if MayWrite(row, now, open.maxAttempts) then
      s.(challenges := s.challenges[open.id := row.(consumed := true)],
         calls := s.calls[c := ChallengeWon(open, s.calls[c].factor)])
    else s.(calls := s.calls[c := Ended])
  }

  ghost function AfterStamp(s: State, c: Id, now: int): State
    requires Enabled(s, Stamp(c, now))
  {
    var open := s.calls[c].open;
    var row := s.challenges[open.id];
    if MayWrite(row, now, open.maxAttempts) && !row.stamped then
      s.(challenges := s.challenges[open.id := row.(stamped := true)],
         calls := s.calls[c := Stamped(open, s.calls[c].factor)])
    else s.(calls := s.calls[c := Ended])
  }

  ghost function Next(s: State, a: Action): State
    requires Enabled(s, a)
  {
    match a
    case AddUser(u) => s.(users := s.users[u := User(false, None, 0)])
    case CreateChallenge(id, ch) => s.(challenges := s.challenges[id := ch])
    case LoadOpen(c, id, now, secretOk) => s.(calls := s.calls[c := AfterLoad(s, id, now, secretOk)])
    case Mismatch(c) => s.(calls := s.calls[c := Rejecting(s.calls[c].open)])
    case ReadFloor(c) =>
      var open := s.calls[c].open;
      s.(calls := s.calls[c := if !Proceeds(open) then Ended
                               else if !s.users[open.userId].hasSecret then Rejecting(open)
                               else FloorRead(open, s.users[open.userId].epoch, s.users[open.userId].floor)])
    case SpendTotp(c, usedStep) => AfterSpendTotp(s, c, usedStep)
    case ReadCodes(c, order) =>
      var open := s.calls[c].open;
      s.(calls := s.calls[c := if !Proceeds(open) then Ended else CodesRead(open, order)])
    case SpendCode(c, matching) => AfterSpendCode(s, c, matching)
    case ReadRow(c, u) =>
      var user := s.users[u];
      s.(calls := s.calls[c := if user.hasSecret then RowRead(u, user.epoch, user.floor) else Ended])
    case AcceptStep(c, usedStep) => AfterAcceptStep(s, c, usedStep)
    case RedeemForManagement(c, u, k) => AfterRedeemForManagement(s, c, u, k)
    case Reject(c, now) => AfterReject(s, c, now)
    case Consume(c, now) => AfterConsume(s, c, now)
    case IssueSession(c, sessionId) =>
      s.(calls := s.calls[c := Issued(s.calls[c].open, s.calls[c].factor, sessionId)],
         sessions := s.sessions[sessionId := Session(s.calls[c].open.userId, true)])
    case Stamp(c, now) => AfterStamp(s, c, now)
    case StartEnrolment(u) => s.(users := s.users[u := FreshRow(s.users[u], true)])
    case Disable(u) => s.(users := s.users[u := FreshRow(s.users[u], false)], codes := WithoutCodesOf(s.codes, u))
    case AdminReset(u) =>
      s.(users := s.users[u := FreshRow(s.users[u], false)], codes := WithoutCodesOf(s.codes, u),
         challenges := Closed(s.challenges, u, false), sessions := Revoked(s.sessions, u))
    case ReplaceCodes(u, newIds) =>
      s.(codes := WithoutCodesOf(s.codes, u) + (map k | k in newIds :: Code(u, false)))
    case RevokeTrust(u) => s.(challenges := Closed(s.challenges, u, true), sessions := Revoked(s.sessions, u))
  }

  class MfaLoginService {
    var users: map<Id, User>
    var challenges: map<Id, Challenge>
    var codes: map<Id, Code>
    var calls: map<Id, Call>
    var sessions: map<Id, Session>
    ghost var spent: seq<Factor>

    ghost function Snapshot(): State reads this { State(users, challenges, codes, calls, sessions, spent) }

    constructor ()
      ensures Snapshot() == INITIAL
    {
      users, challenges, codes, calls, sessions := map[], map[], map[], map[], map[];
      spent := [];
    }

    method Create(id: Id, challenge: Challenge)
      requires Enabled(Snapshot(), CreateChallenge(id, challenge))
      modifies this
      ensures Snapshot() == Next(old(Snapshot()), CreateChallenge(id, challenge))
    {
      challenges := challenges[id := challenge];
    }

    /** `loadOpen`: one null covers an unknown, consumed, expired or exhausted challenge and a wrong secret. */
    method Load(call: Id, id: Id, now: int, secretOk: bool)
      requires Enabled(Snapshot(), LoadOpen(call, id, now, secretOk))
      modifies this
      ensures Snapshot() == Next(old(Snapshot()), LoadOpen(call, id, now, secretOk))
    {
      var result := Ended;
      if id in challenges {
        var row := challenges[id];
        if !(row.consumed || row.expiresAt <= now || row.attemptCount >= row.maxAttempts) && secretOk {
          result := Loaded(OpenChallenge(id, row.userId, row.purpose, row.stamped, row.maxAttempts));
        }
      }
      calls := calls[call := result];
    }

    /** `verifyTotp` up to the user read. */
    method BeginTotp(call: Id)
      requires Enabled(Snapshot(), ReadFloor(call))
      modifies this
      ensures Snapshot() == Next(old(Snapshot()), ReadFloor(call))
    {
      var open := calls[call].open;
      if !Proceeds(open) {
        calls := calls[call := Ended];
        return;
      }
      var user := users[open.userId];
      calls := calls[call := if user.hasSecret then FloorRead(open, user.epoch, user.floor) else Rejecting(open)];
    }

    /** `verifyTotp` from the code check to the compare-and-set of the floor. */
    method AdvanceFloor(call: Id, usedStep: Option<int>)
      requires Enabled(Snapshot(), SpendTotp(call, usedStep))
      modifies this
      ensures Snapshot() == Next(old(Snapshot()), SpendTotp(call, usedStep))
    {
      var open, secret, seen := calls[call].open, calls[call].secret, calls[call].floor;
      if usedStep.None? {
        calls := calls[call := Rejecting(open)];
        return;
      }
      var count := 0;
      if users[open.userId].floor == seen {
        users := users[open.userId := users[open.userId].(floor := usedStep)];
        count := 1;
      }
      if count != 1 {
        calls := calls[call := Rejecting(open)];
        return;
      }
      var factor := Totp(open.userId, secret, users[open.userId].epoch, usedStep.value);
      spent := spent + [factor];
      calls := calls[call := FactorSpent(open, factor)];
    }

    method BeginBackup(call: Id, order: seq<Id>)
      requires Enabled(Snapshot(), ReadCodes(call, order))
      modifies this
      ensures Snapshot() == Next(old(Snapshot()), ReadCodes(call, order))
    {
      var open := calls[call].open;
      calls := calls[call := if !Proceeds(open) then Ended else CodesRead(open, order)];
    }

    /** The loop of `BackupCodeService.verify`: the first code read whose hash matches the input. */
    static method FirstMatch(unused: seq<Id>, matches: Id -> bool) returns (matching: Option<Id>)
      ensures matching.Some? ==> matching.value in unused && matches(matching.value)
      ensures matching.None? ==> forall k :: k in unused ==> !matches(k)
    {
      for i := 0 to |unused|
        invariant forall j :: 0 <= j < i ==> !matches(unused[j])
      {
        if matches(unused[i]) {
          return Some(unused[i]);
        }
      }
      return None;
    }

    /** Redeem: stamp the matching code if it is still unused. */
    method RedeemCode(call: Id, matches: Id -> bool) returns (ghost matching: Option<Id>)
      requires call in calls && calls[call].CodesRead?
      modifies this
      ensures Enabled(old(Snapshot()), SpendCode(call, matching))
      ensures matching.Some? ==> matches(matching.value)
      ensures Snapshot() == Next(old(Snapshot()), SpendCode(call, matching))
    {
      var open := calls[call].open;
      var found := FirstMatch(calls[call].unused, matches);
      matching := found;
      if found.Some? && found.value in codes && !codes[found.value].used {
        codes := codes[found.value := codes[found.value].(used := true)];
        spent := spent + [Backup(open.userId, found.value)];
        calls := calls[call := FactorSpent(open, Backup(open.userId, found.value))];
      } else {
        calls := calls[call := Rejecting(open)];
      }
    }

    /** The user read of MFA management, and of the confirmation of an enrolment. */
    method BeginManagement(call: Id, userId: Id)
      requires Enabled(Snapshot(), ReadRow(call, userId))
      modifies this
      ensures Snapshot() == Next(old(Snapshot()), ReadRow(call, userId))
    {
      var user := users[userId];
      calls := calls[call := if user.hasSecret then RowRead(userId, user.epoch, user.floor) else Ended];
    }

    /** `assertSecondFactor`, or `confirm`: the accepted step is written without comparing the floor. */
    method WriteFloor(call: Id, usedStep: Option<int>)
      requires Enabled(Snapshot(), AcceptStep(call, usedStep))
      modifies this
      ensures Snapshot() == Next(old(Snapshot()), AcceptStep(call, usedStep))
    {
      if usedStep.None? {
        calls := calls[call := Ended];
        return;
      }
      var userId, secret := calls[call].userId, calls[call].secret;
      var factor := Totp(userId, secret, users[userId].epoch, usedStep.value);
      users := users[userId := users[userId].(floor := usedStep)];
      spent := spent + [factor];
      calls := calls[call := Accepted(factor)];
    }

    /** The stamp of a backup code in a re-authentication of MFA management, which needs no challenge. */
    method RedeemWithoutChallenge(call: Id, userId: Id, codeId: Id)
      requires Enabled(Snapshot(), RedeemForManagement(call, userId, codeId))
      modifies this
      ensures Snapshot() == Next(old(Snapshot()), RedeemForManagement(call, userId, codeId))
    {
      if codeId in codes && !codes[codeId].used {
        codes := codes[codeId := codes[codeId].(used := true)];
        spent := spent + [Backup(userId, codeId)];
        calls := calls[call := Accepted(Backup(userId, codeId))];
      } else {
        calls := calls[call := Ended];
      }
    }

    /** `start` of an enrolment: a new secret, and no floor. */
    method Start(userId: Id)
      requires Enabled(Snapshot(), StartEnrolment(userId))
      modifies this
      ensures Snapshot() == Next(old(Snapshot()), StartEnrolment(userId))
    {
      users := users[userId := User(true, None, users[userId].epoch + 1)];
    }

    /** `disable`: secret, floor and backup codes go in one transaction. */
    method DisableMfa(userId: Id)
      requires Enabled(Snapshot(), Disable(userId))
      modifies this
      ensures Snapshot() == Next(old(Snapshot()), Disable(userId))
    {
      users := users[userId := User(false, None, users[userId].epoch + 1)];
      codes := map k | k in codes && codes[k].userId != userId :: codes[k];
    }

    /** `adminReset`: the same, with the sessions and the login and enrolment challenges. */
    method ResetMfa(userId: Id)
      requires Enabled(Snapshot(), AdminReset(userId))
      modifies this
      ensures Snapshot() == Next(old(Snapshot()), AdminReset(userId))
    {
      DisableMfa(userId);
      sessions := map id | id in sessions ::
        if sessions[id].userId == userId then sessions[id].(live := false) else sessions[id];
      challenges := map id | id in challenges ::
        if challenges[id].userId == userId && challenges[id].purpose != Reset
        then challenges[id].(consumed := true) else challenges[id];
    }

    /** `revokeAllTrust`: sessions and challenges of every kind. */
    method RevokeAllTrust(userId: Id)
      requires Enabled(Snapshot(), RevokeTrust(userId))
      modifies this
      ensures Snapshot() == Next(old(Snapshot()), RevokeTrust(userId))
    {
      sessions := map id | id in sessions ::
        if sessions[id].userId == userId then sessions[id].(live := false) else sessions[id];
      challenges := map id | id in challenges ::
        if challenges[id].userId == userId then challenges[id].(consumed := true) else challenges[id];
    }

    /** `reject`: count the failed attempt on a challenge that is still open. */
    method CountFailure(call: Id, now: int)
      requires Enabled(Snapshot(), Reject(call, now))
      modifies this
      ensures Snapshot() == Next(old(Snapshot()), Reject(call, now))
    {
      var open := calls[call].open;
      var row := challenges[open.id];
      if MayWrite(row, now, open.maxAttempts) {
        challenges := challenges[open.id := row.(attemptCount := row.attemptCount + 1)];
      }
      calls := calls[call := Ended];
    }

    /** `complete`: the single-winner consume. */
    method ConsumeChallenge(call: Id, now: int)
      requires Enabled(Snapshot(), Consume(call, now))
      modifies this
      ensures Snapshot() == Next(old(Snapshot()), Consume(call, now))
    {
      var open, factor := calls[call].open, calls[call].factor;
      var row := challenges[open.id];
      var count := 0;
      if MayWrite(row, now, open.maxAttempts) {
        challenges := challenges[open.id := row.(consumed := true)];
        count := 1;
      }
      calls := calls[call := if count == 1 then ChallengeWon(open, factor) else Ended];
    }

    /** `markFactorVerified`: the set-once stamp of a reset challenge. */
    method MarkFactorVerified(call: Id, now: int)
      requires Enabled(Snapshot(), Stamp(call, now))
      modifies this
      ensures Snapshot() == Next(old(Snapshot()), Stamp(call, now))
    {
      var open, factor := calls[call].open, calls[call].factor;
      var row := challenges[open.id];
      var count := 0;
      if !row.consumed && !row.stamped && row.expiresAt > now && row.attemptCount < open.maxAttempts {
        challenges := challenges[open.id := row.(stamped := true)];
        count := 1;
      }
      calls := calls[call := if count == 1 then Stamped(open, factor) else Ended];
    }

    /** `complete`: the session of the winner. */
    method Issue(call: Id, sessionId: Id)
      requires Enabled(Snapshot(), IssueSession(call, sessionId))
      modifies this
      ensures Snapshot() == Next(old(Snapshot()), IssueSession(call, sessionId))
    {
      var open, factor := calls[call].open, calls[call].factor;
      sessions := sessions[sessionId := Session(open.userId, true)];
      calls := calls[call := Issued(open, factor, sessionId)];
    }

    /** `generate`: the whole set is replaced in one transaction. */
    method ReplaceBackupCodes(userId: Id, newIds: set<Id>)
      requires Enabled(Snapshot(), ReplaceCodes(userId, newIds))
      modifies this
      ensures Snapshot() == Next(old(Snapshot()), ReplaceCodes(userId, newIds))
    {
      codes := (map k | k in codes && codes[k].userId != userId :: codes[k]) + (map k | k in newIds :: Code(userId, false));
    }
  }
}
