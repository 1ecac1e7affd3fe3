/**
 What each step of a second factor does, told by the rows it meets: who may present one, when it is accepted, where a
 refused one goes, and what enrolment, disabling, a reset and new codes leave behind. Then whole attempts.
 */
module MfaSteps {
  import opened Options
  import opened MfaLogin
  import opened MfaLoginProofs
  import opened MfaAttempts

  /** A login challenge, or a reset challenge that still lacks its factor, takes a second factor; an enrolment none. */
  predicate TakesFactor(open: OpenChallenge) {
    match open.purpose
    case Login => true
    case Reset => !open.stamped
    case Enroll => false
  }

  /** A TOTP code is checked for whoever has a secret, against that secret and its floor; without one it is a failure. */
  lemma TotpStartsIff(s: State, c: Id)
    requires Enabled(s, ReadFloor(c))
    ensures var open, call := s.calls[c].open, Next(s, ReadFloor(c)).calls[c];
            var user := s.users[open.userId];
            && Next(s, ReadFloor(c)) == s.(calls := s.calls[c := call])
            && (call == FloorRead(open, user.epoch, user.floor) <==> TakesFactor(open) && user.hasSecret)
            && (call == Rejecting(open) <==> TakesFactor(open) && !user.hasSecret)
            && (call == Ended <==> !TakesFactor(open))
  {
  }

  /** A backup code is looked for among all the user's unused codes and no others. */
  lemma BackupStartsIff(s: State, c: Id, order: seq<Id>)
    requires Enabled(s, ReadCodes(c, order))
    ensures var open, call := s.calls[c].open, Next(s, ReadCodes(c, order)).calls[c];
            && Next(s, ReadCodes(c, order)) == s.(calls := s.calls[c := call])
            && (call == CodesRead(open, order) <==> TakesFactor(open))
            && (call == Ended <==> !TakesFactor(open))
    ensures forall k :: k in order <==> k in s.codes && s.codes[k].userId == s.calls[c].open.userId && !s.codes[k].used
  {
  }

  /**
   A TOTP code is accepted exactly when it checks out and the row's floor is the one it was checked against; then its
   step is the new floor. Otherwise nothing is written and the call goes on to be counted as a failure.
   */
  lemma TotpIsSpentIff(s: State, c: Id, usedStep: Option<int>)
    requires Enabled(s, SpendTotp(c, usedStep))
    ensures var call, s' := s.calls[c], Next(s, SpendTotp(c, usedStep));
            var u := call.open.userId;
            if usedStep.Some? && s.users[u].floor == call.floor then
              && s'.users == s.users[u := s.users[u].(floor := usedStep)]
              && s'.calls == s.calls[c := FactorSpent(call.open, Totp(u, call.secret, s.users[u].epoch, usedStep.value))]
              && s'.codes == s.codes && s'.challenges == s.challenges && s'.sessions == s.sessions
            else s' == s.(calls := s.calls[c := Rejecting(call.open)])
  {
  }

  /** A backup code is accepted exactly when one matches and is still there and unused; then it is used. */
  lemma BackupIsSpentIff(s: State, c: Id, matching: Option<Id>)
    requires Enabled(s, SpendCode(c, matching))
    ensures var call, s' := s.calls[c], Next(s, SpendCode(c, matching));
            match matching
            case None => s' == s.(calls := s.calls[c := Rejecting(call.open)])
            case Some(k) =>
              if k in s.codes && !s.codes[k].used then
                && s'.codes == s.codes[k := s.codes[k].(used := true)]
                && s'.calls == s.calls[c := FactorSpent(call.open, Backup(call.open.userId, k))]
                && s'.users == s.users && s'.challenges == s.challenges && s'.sessions == s.sessions
              else s' == s.(calls := s.calls[c := Rejecting(call.open)])
  {
  }

  /** A reset presented from another device is counted as a failure. */
  lemma MismatchIsFailure(s: State, c: Id)
    requires Enabled(s, Mismatch(c))
    ensures Next(s, Mismatch(c)) == s.(calls := s.calls[c := Rejecting(s.calls[c].open)])
  {
  }

  /** Management and confirmation go on exactly for a user with a secret, and write an accepted step whatever the row says. */
  lemma ManagementIff(s: State, c: Id, u: Id, d: Id, usedStep: Option<int>)
    requires Enabled(s, ReadRow(c, u)) && Enabled(s, AcceptStep(d, usedStep))
    ensures Next(s, ReadRow(c, u)).calls[c] == RowRead(u, s.users[u].epoch, s.users[u].floor) <==> s.users[u].hasSecret
    ensures Next(s, ReadRow(c, u)).calls[c] == Ended <==> !s.users[u].hasSecret
    ensures var s', w := Next(s, AcceptStep(d, usedStep)), s.calls[d].userId;
            match usedStep
            case None => s' == s.(calls := s.calls[d := Ended])
            case Some(step) =>
              && s'.users == s.users[w := s.users[w].(floor := Some(step))] && s'.codes == s.codes
              && s'.calls == s.calls[d := Accepted(Totp(w, s.calls[d].secret, s.users[w].epoch, step))]
  {
  }

  // ---------------------------------------------------------------- what changes for one user

  predicate SameForOthers(s: State, s': State, u: Id) {
    && s'.users.Keys == s.users.Keys && s'.challenges.Keys == s.challenges.Keys && s'.sessions.Keys == s.sessions.Keys
    && s'.calls == s.calls && s'.spent == s.spent
    && (forall v :: v in s.users && v != u ==> s'.users[v] == s.users[v])
    && (forall id :: id in s.challenges && s.challenges[id].userId != u ==> s'.challenges[id] == s.challenges[id])
    && (forall id :: id in s.sessions && s.sessions[id].userId != u ==> s'.sessions[id] == s.sessions[id])
    && (forall k :: k in s'.codes && s'.codes[k].userId != u ==> k in s.codes && s'.codes[k] == s.codes[k])
    && (forall k :: k in s.codes && s.codes[k].userId != u ==> k in s'.codes)
  }

  predicate HasNoCodes(s: State, u: Id) {
    forall k :: k in s.codes ==> s.codes[k].userId != u
  }

  predicate HasNoSession(s: State, u: Id) {
    forall id :: id in s.sessions && s.sessions[id].userId == u ==> !s.sessions[id].live
  }

  /** Starting an enrolment gives a new secret no step was accepted under, and leaves everything else. */
  lemma EnrolmentGivesSecret(s: State, u: Id)
    requires Enabled(s, StartEnrolment(u))
    ensures var s' := Next(s, StartEnrolment(u));
            && SameForOthers(s, s', u) && s'.codes == s.codes && s'.challenges == s.challenges && s'.sessions == s.sessions
            && s'.users[u] == User(true, None, s.users[u].epoch + 1)
  {
  }

  /** Disabling takes the secret and all backup codes, and leaves challenges and sessions. */
  lemma DisablingClears(s: State, u: Id)
    requires Enabled(s, Disable(u))
    ensures var s' := Next(s, Disable(u));
            && SameForOthers(s, s', u) && !s'.users[u].hasSecret && s'.users[u].floor.None? && HasNoCodes(s', u)
            && s'.challenges == s.challenges && s'.sessions == s.sessions
  {
  }

  /**
   A reset by an administrator takes the secret, the codes and every session, and closes the login and enrolment
   challenges; reset challenges stay as they are.
   */
  lemma AdminResetClears(s: State, u: Id)
    requires Enabled(s, AdminReset(u))
    ensures var s' := Next(s, AdminReset(u));
            && SameForOthers(s, s', u) && !s'.users[u].hasSecret && s'.users[u].floor.None? && HasNoCodes(s', u)
            && HasNoSession(s', u)
            && forall id :: id in s.challenges && s.challenges[id].userId == u ==>
                 s'.challenges[id] == if s.challenges[id].purpose.Reset? then s.challenges[id]
                                      else s.challenges[id].(consumed := true)
  {
  }

  /** A completed password reset closes every challenge and session of its user and nothing else. */
  lemma TrustIsRevoked(s: State, u: Id)
    requires Enabled(s, RevokeTrust(u))
    ensures var s' := Next(s, RevokeTrust(u));
            && SameForOthers(s, s', u) && s'.users == s.users && s'.codes == s.codes && HasNoSession(s', u)
            && forall id :: id in s.challenges && s.challenges[id].userId == u ==>
                 s'.challenges[id] == s.challenges[id].(consumed := true)
  {
  }

  /** New backup codes are the only ones the user has from then on, all of them unused. */
  lemma CodesAreReplaced(s: State, u: Id, newIds: set<Id>)
    requires Enabled(s, ReplaceCodes(u, newIds))
    ensures var s' := Next(s, ReplaceCodes(u, newIds));
            && SameForOthers(s, s', u) && s'.users == s.users && s'.challenges == s.challenges && s'.sessions == s.sessions
            && (forall k :: k in s'.codes && s'.codes[k].userId == u <==> k in newIds)
            && (forall k :: k in newIds ==> !s'.codes[k].used)
  {
    assert forall k :: k in newIds ==> k !in s.codes;
  }

  // ---------------------------------------------------------------- whole attempts, undisturbed

  ghost predicate HasOpenLogin(s: State, c: Id, id: Id, now: int) {
    && c !in s.calls && StillOpen(s, id, now) && s.challenges[id].purpose.Login?
    && s.challenges[id].userId in s.users && s.users[s.challenges[id].userId].hasSecret
  }

  /** Loading the challenge and reading the floor. */
  lemma AttemptBegins(s: State, c: Id, id: Id, now: int) returns (s2: State)
    requires HasOpenLogin(s, c, id, now)
    ensures var row := s.challenges[id]; var user := s.users[row.userId];
            var open := OpenChallenge(id, row.userId, Login, row.stamped, row.maxAttempts);
            && Enabled(s, LoadOpen(c, id, now, true)) && Enabled(Next(s, LoadOpen(c, id, now, true)), ReadFloor(c))
            && s2 == Next(Next(s, LoadOpen(c, id, now, true)), ReadFloor(c))
            && s2 == s.(calls := s.calls[c := FloorRead(open, user.epoch, user.floor)])
  {
    var s1 := Next(s, LoadOpen(c, id, now, true));
    TotpStartsIff(s1, c);
    s2 := Next(s1, ReadFloor(c));
    assert s2.calls == s.calls[c := s2.calls[c]];
  }

  /** A wrong code at an open login challenge costs one attempt and changes nothing else. */
  lemma WrongCodeCosts(s: State, c: Id, id: Id, now: int) returns (s2: State)
    requires HasOpenLogin(s, c, id, now)
    ensures s2 == Next(Next(s, LoadOpen(c, id, now, true)), ReadFloor(c))
    ensures Enabled(s2, SpendTotp(c, None)) &&
            var s3 := Next(s2, SpendTotp(c, None));
            Enabled(s3, Reject(c, now)) &&
            var row := s.challenges[id];
            Next(s3, Reject(c, now)) == s.(challenges := s.challenges[id := row.(attemptCount := row.attemptCount + 1)],
                                           calls := s.calls[c := Ended])
  {
    s2 := AttemptBegins(s, c, id, now);
    TotpIsSpentIff(s2, c, None);
    var s3 := Next(s2, SpendTotp(c, None));
    assert s3.challenges == s.challenges;
    assert Next(s3, Reject(c, now)).calls == s.calls[c := Ended];
  }

  /** A right code above the floor consumes the challenge, becomes the floor, and gives its user one live session. */
  lemma RightCodeLogsIn(s: State, c: Id, id: Id, now: int, step: int, sessionId: Id) returns (s2: State)
    requires HasOpenLogin(s, c, id, now) && sessionId !in s.sessions
    requires s.users[s.challenges[id].userId].floor.Some? ==> step > s.users[s.challenges[id].userId].floor.value
    ensures s2 == Next(Next(s, LoadOpen(c, id, now, true)), ReadFloor(c))
    ensures Enabled(s2, SpendTotp(c, Some(step))) &&
            var s3 := Next(s2, SpendTotp(c, Some(step)));
            Enabled(s3, Consume(c, now)) &&
            var s4 := Next(s3, Consume(c, now));
            Enabled(s4, IssueSession(c, sessionId)) &&
            var s5, row, u := Next(s4, IssueSession(c, sessionId)), s.challenges[id], s.challenges[id].userId;
            && s5.challenges == s.challenges[id := row.(consumed := true)]
            && s5.sessions == s.sessions[sessionId := Session(u, true)]
            && s5.users == s.users[u := s.users[u].(floor := Some(step))] && s5.codes == s.codes
            && s5.calls[c].Issued? && s5.calls[c].sessionId == sessionId
  {
    s2 := AttemptBegins(s, c, id, now);
    TotpIsSpentIff(s2, c, Some(step));
    var s3 := Next(s2, SpendTotp(c, Some(step)));
    assert s3.calls[c].FactorSpent? && s3.calls[c].open == s2.calls[c].open;
    var s4 := Next(s3, Consume(c, now));
    assert s4.calls[c].ChallengeWon?;
  }

  ghost predicate HasOpenReset(s: State, c: Id, id: Id, now: int) {
    c !in s.calls && StillOpen(s, id, now) && s.challenges[id].purpose.Reset? && !s.challenges[id].stamped
  }

  /** An unused backup code stamps an open reset challenge of its user, once, and is used from then on. */
  lemma BackupCodeStamps(s: State, c: Id, id: Id, now: int, order: seq<Id>, k: Id) returns (s2: State)
    requires HasOpenReset(s, c, id, now) && ListsUnused(s.codes, s.challenges[id].userId, order) && k in order
    ensures Enabled(s, LoadOpen(c, id, now, true)) && Enabled(Next(s, LoadOpen(c, id, now, true)), ReadCodes(c, order))
    ensures s2 == Next(Next(s, LoadOpen(c, id, now, true)), ReadCodes(c, order))
    ensures Enabled(s2, SpendCode(c, Some(k))) &&
            var s3 := Next(s2, SpendCode(c, Some(k)));
            Enabled(s3, Stamp(c, now)) &&
            var s4 := Next(s3, Stamp(c, now));
            && s4.challenges == s.challenges[id := s.challenges[id].(stamped := true)]
            && s4.codes == s.codes[k := Code(s.challenges[id].userId, true)]
            && s4.users == s.users && s4.sessions == s.sessions && s4.calls[c].Stamped?
  {
    var s1 := Next(s, LoadOpen(c, id, now, true));
    BackupStartsIff(s1, c, order);
    s2 := Next(s1, ReadCodes(c, order));
    assert UnusedOf(s.codes, s.challenges[id].userId, k);
    BackupIsSpentIff(s2, c, Some(k));
    var s3 := Next(s2, SpendCode(c, Some(k)));
    assert s3.calls[c].FactorSpent? && s3.calls[c].open == s2.calls[c].open;
  }
}
