/** One session or reset per challenge and per factor, in every interleaving of logins, password resets and MFA management. */
module MfaLoginProofs {
  import opened Options
  import opened MfaLogin

  predicate HasFactor(call: Call) {
    call.FactorSpent? || call.ChallengeWon? || call.Issued? || call.Stamped? || call.Accepted?
  }

  predicate HasChallenge(call: Call) {
    call.ChallengeWon? || call.Issued? || call.Stamped?
  }

  /** What a factor was used for. */
  predicate Used(call: Call) {
    call.Issued? || call.Stamped? || call.Accepted?
  }

  predicate HasOpen(call: Call) {
    !call.RowRead? && !call.Accepted? && !call.Ended?
  }

  /** One code: a step of one secret, or one backup code. */
  predicate SameCode(f: Factor, g: Factor) {
    match (f, g)
    case (Totp(u, secret, _, step), Totp(u', secret', _, step')) => u == u' && secret == secret' && step == step'
    case (Backup(_, k), Backup(_, k')) => k == k'
    case _ => false
  }

  predicate IsStepOf(f: Factor, u: Id, epoch: nat) {
    f.Totp? && f.userId == u && f.epoch == epoch
  }

  /** Every code of the user was accepted under its own secret, and the steps of a secret rise. */
  predicate InStep(spent: seq<Factor>, u: Id) {
    && (forall i :: 0 <= i < |spent| ==> OwnSecret(spent[i], u))
    && forall i, j :: 0 <= i < j < |spent| ==> StepRises(spent[i], spent[j], u)
  }

  predicate OwnSecret(f: Factor, u: Id) {
    f.Totp? && f.userId == u ==> f.secret == f.epoch
  }

  predicate StepRises(f: Factor, g: Factor, u: Id) {
    f.Totp? && g.Totp? && f.userId == g.userId == u && f.epoch == g.epoch ==> f.step < g.step
  }

  /** The step written last in an epoch. */
  function LastStep(spent: seq<Factor>, u: Id, epoch: nat): Option<int> {
    if spent == [] then None
    else if IsStepOf(spent[|spent| - 1], u, epoch) then Some(spent[|spent| - 1].step)
    else LastStep(spent[..|spent| - 1], u, epoch)
  }

  predicate CodesOnce(spent: seq<Factor>) {
    forall i, j :: 0 <= i < j < |spent| && spent[i].Backup? && spent[j].Backup? ==> spent[i].codeId != spent[j].codeId
  }

  /** A spent step was written in no later epoch than the current one; a spent code is stamped or deleted. */
  predicate Barred(s: State, f: Factor) {
    match f
    case Totp(u, secret, epoch, _) => u in s.users && secret <= epoch <= s.users[u].epoch
    case Backup(_, k) => k in s.codes ==> s.codes[k].used
  }

  /** The stored floor is the step written last since the secret was set or cleared. */
  predicate FloorIsLast(s: State) {
    forall u :: u in s.users ==> s.users[u].floor == LastStep(s.spent, u, s.users[u].epoch)
  }

  predicate OpenHolds(s: State, open: OpenChallenge) {
    && open.id in s.challenges && open.userId == s.challenges[open.id].userId
    && open.purpose == s.challenges[open.id].purpose && open.maxAttempts == s.challenges[open.id].maxAttempts
  }

  predicate CallHolds(s: State, call: Call) {
    && (HasOpen(call) ==> OpenHolds(s, call.open))
    && (call.ChallengeWon? || call.Issued? ==> call.open.purpose == Login)
    && (call.Stamped? ==> call.open.purpose == Reset)
    && (call.FloorRead? ==> call.open.userId in s.users && call.secret <= s.users[call.open.userId].epoch)
    && (call.RowRead? ==> call.userId in s.users && call.secret <= s.users[call.userId].epoch)
    && (HasFactor(call) ==> call.factor in s.spent && (HasOpen(call) ==> call.factor.userId == call.open.userId))
    && (call.Issued? ==> call.sessionId in s.sessions && s.sessions[call.sessionId].userId == call.open.userId)
    && (call.ChallengeWon? || call.Issued? ==> s.challenges[call.open.id].consumed)
    && (call.Stamped? ==> s.challenges[call.open.id].stamped)
  }

  /** Consumed for a login, stamped for a reset. */
  predicate Taken(row: Challenge) {
    if row.purpose == Reset then row.stamped else row.consumed
  }

  /** Backup codes are told apart always, codes of a user as long as its accepted steps are in step. */
  predicate FactorsDistinct(s: State) {
    forall c, d :: c in s.calls && d in s.calls && c != d && HasFactor(s.calls[c]) && HasFactor(s.calls[d])
      ==> Apart(s, s.calls[c].factor, s.calls[d].factor)
  }

  predicate Apart(s: State, f: Factor, g: Factor) {
    f.Backup? || InStep(s.spent, f.userId) ==> f != g
  }

  predicate ChallengesDistinct(s: State) {
    forall c, d :: c in s.calls && d in s.calls && c != d && HasChallenge(s.calls[c]) && HasChallenge(s.calls[d])
      ==> s.calls[c].open.id != s.calls[d].open.id
  }

  predicate SessionsDistinct(s: State) {
    forall c, d :: c in s.calls && d in s.calls && c != d && s.calls[c].Issued? && s.calls[d].Issued?
      ==> s.calls[c].sessionId != s.calls[d].sessionId
  }

  predicate AttemptsBounded(s: State) {
    forall id :: id in s.challenges ==> s.challenges[id].attemptCount <= s.challenges[id].maxAttempts
  }

  predicate SpentOk(s: State) {
    CodesOnce(s.spent) && FloorIsLast(s) && forall i :: 0 <= i < |s.spent| ==> Barred(s, s.spent[i])
  }

  predicate Inv(s: State) {
    && SpentOk(s)
    && (forall c :: c in s.calls ==> CallHolds(s, s.calls[c]))
    && FactorsDistinct(s) && ChallengesDistinct(s) && SessionsDistinct(s) && AttemptsBounded(s)
  }

  // ---------------------------------------------------------------- steps

  lemma {:induction false} LastIsThere(spent: seq<Factor>, u: Id, epoch: nat)
    ensures LastStep(spent, u, epoch).None? <==> forall i :: 0 <= i < |spent| ==> !IsStepOf(spent[i], u, epoch)
    ensures LastStep(spent, u, epoch).Some? ==>
              exists i :: 0 <= i < |spent| && IsStepOf(spent[i], u, epoch) && spent[i].step == LastStep(spent, u, epoch).value
  {
    if spent != [] && !IsStepOf(spent[|spent| - 1], u, epoch) {
      LastIsThere(spent[..|spent| - 1], u, epoch);
    }
  }

  /** In step, the step written last is the highest. */
  lemma {:induction false} LastIsHighest(spent: seq<Factor>, u: Id, epoch: nat, i: nat)
    requires InStep(spent, u) && i < |spent| && IsStepOf(spent[i], u, epoch)
    ensures LastStep(spent, u, epoch).Some? && spent[i].step <= LastStep(spent, u, epoch).value
  {
    var n := |spent| - 1;
    if IsStepOf(spent[n], u, epoch) {
      assert i < n ==> StepRises(spent[i], spent[n], u);
    } else {
      PrefixInStep(spent, n, u);
      LastIsHighest(spent[..n], u, epoch, i);
    }
  }

  lemma PrefixInStep(spent: seq<Factor>, n: nat, u: Id)
    requires InStep(spent, u) && n <= |spent|
    ensures InStep(spent[..n], u)
  {
    forall i, j | 0 <= i < j < n ensures StepRises(spent[..n][i], spent[..n][j], u) {
      assert StepRises(spent[i], spent[j], u);
    }
    forall i | 0 <= i < n ensures OwnSecret(spent[..n][i], u) {
      assert OwnSecret(spent[i], u);
    }
  }

  /** The step writes a TOTP step to the floor of a user. */
  ghost predicate WritesFloor(s: State, a: Action)
    requires Enabled(s, a)
  {
    || (a.SpendTotp? && a.usedStep.Some? && s.users[s.calls[a.call].open.userId].floor == s.calls[a.call].floor)
    || (a.AcceptStep? && a.usedStep.Some?)
  }

  /** The user whose floor it is. */
  ghost function Writer(s: State, a: Action): Id
    requires Enabled(s, a) && WritesFloor(s, a)
  {
    if a.SpendTotp? then s.calls[a.call].open.userId else s.calls[a.call].userId
  }

  /** The factor such a step spends. */
  ghost function Written(s: State, a: Action): Factor
    requires Enabled(s, a) && WritesFloor(s, a)
  {
    Totp(Writer(s, a), s.calls[a.call].secret, s.users[Writer(s, a)].epoch, a.usedStep.value)
  }

  lemma WriteAppends(s: State, a: Action)
    requires Enabled(s, a) && WritesFloor(s, a)
    ensures Next(s, a).spent == s.spent + [Written(s, a)] && Next(s, a).spent[..|s.spent|] == s.spent
    ensures Next(s, a).users == s.users[Writer(s, a) := s.users[Writer(s, a)].(floor := a.usedStep)]
    ensures Next(s, a).codes == s.codes
  {
  }

  /** The steps that set or clear a secret, or add a user. */
  predicate StartsEpoch(a: Action) {
    a.AddUser? || a.StartEnrolment? || a.Disable? || a.AdminReset?
  }

  lemma UsersOtherwise(s: State, a: Action)
    requires Enabled(s, a) && !WritesFloor(s, a)
    ensures StartsEpoch(a) ==>
              && Next(s, a).spent == s.spent
              && Next(s, a).users == s.users[a.userId := if a.AddUser? then User(false, None, 0)
                                                         else FreshRow(s.users[a.userId], a.StartEnrolment?)]
    ensures !StartsEpoch(a) ==> Next(s, a).users == s.users
  {
  }

  lemma WriteKeepsSpent(s: State, a: Action)
    requires Inv(s) && Enabled(s, a) && WritesFloor(s, a)
    ensures SpentOk(Next(s, a))
  {
    var s' := Next(s, a);
    WriteAppends(s, a);
    assert CallHolds(s, s.calls[a.call]);
    forall i | 0 <= i < |s'.spent| ensures Barred(s', s'.spent[i]) {
      assert i < |s.spent| ==> Barred(s, s.spent[i]);
    }
    assert CodesOnce(s.spent);
  }

  lemma FloorStaysLast(s: State, s': State)
    requires SpentOk(s)
    requires s'.spent == s.spent
          || (|s'.spent| == |s.spent| + 1 && s'.spent[..|s.spent|] == s.spent && s'.spent[|s.spent|].Backup?)
    requires forall u :: u in s'.users && u in s.users ==>
               s'.users[u] == s.users[u] || (s'.users[u].floor.None? && s'.users[u].epoch > s.users[u].epoch)
    requires forall u :: u in s'.users && u !in s.users ==> s'.users[u].floor.None?
    ensures FloorIsLast(s')
  {
    forall u | u in s'.users ensures s'.users[u].floor == LastStep(s'.spent, u, s'.users[u].epoch) {
      assert LastStep(s'.spent, u, s'.users[u].epoch) == LastStep(s.spent, u, s'.users[u].epoch);
      if u !in s.users || s'.users[u] != s.users[u] {
        NoStepYet(s, u, s'.users[u].epoch);
      }
    }
  }

  lemma NoStepYet(s: State, u: Id, epoch: nat)
    requires SpentOk(s) && (u in s.users ==> epoch > s.users[u].epoch)
    ensures LastStep(s.spent, u, epoch).None?
  {
    LastIsThere(s.spent, u, epoch);
    forall i | 0 <= i < |s.spent| ensures !IsStepOf(s.spent[i], u, epoch) {
      assert Barred(s, s.spent[i]);
    }
  }

  /** The step stamps a backup code. */
  ghost predicate Redeems(s: State, a: Action)
    requires Enabled(s, a)
  {
    || (a.SpendCode? && a.matching.Some? && a.matching.value in s.codes && !s.codes[a.matching.value].used)
    || (a.RedeemForManagement? && a.codeId in s.codes && !s.codes[a.codeId].used)
  }

  ghost function Redeemed(s: State, a: Action): Factor
    requires Enabled(s, a) && Redeems(s, a)
  {
    if a.SpendCode? then Backup(s.calls[a.call].open.userId, a.matching.value) else Backup(a.userId, a.codeId)
  }

  lemma RedeemAppends(s: State, a: Action)
    requires Enabled(s, a) && Redeems(s, a)
    ensures Next(s, a).spent == s.spent + [Redeemed(s, a)] && Next(s, a).spent[..|s.spent|] == s.spent
    ensures var k := Redeemed(s, a).codeId; Next(s, a).codes == s.codes[k := s.codes[k].(used := true)]
    ensures Next(s, a).users == s.users
  {
  }

  lemma RedeemKeepsSpent(s: State, s': State, f: Factor)
    requires SpentOk(s) && f.Backup? && f.codeId in s.codes && !s.codes[f.codeId].used
    requires s'.spent == s.spent + [f] && s'.spent[..|s.spent|] == s.spent && s'.users == s.users
    requires s'.codes == s.codes[f.codeId := s.codes[f.codeId].(used := true)]
    ensures SpentOk(s') && f !in s.spent
  {
    FloorStaysLast(s, s');
    forall i | 0 <= i < |s.spent| ensures Barred(s', s.spent[i]) && (s.spent[i].Backup? ==> s.spent[i].codeId != f.codeId) {
      assert Barred(s, s.spent[i]);
    }
    assert CodesOnce(s.spent);
  }

  /** A backup code spent by this step was never spent before. */
  ghost predicate CodeNew(s: State, a: Action)
    requires Enabled(s, a)
  {
    var s' := Next(s, a);
    s'.spent == s.spent ||
    (|s'.spent| == |s.spent| + 1 && s'.spent[..|s.spent|] == s.spent
     && (s'.spent[|s.spent|].Backup? ==> s'.spent[|s.spent|] !in s.spent))
  }

  /** What becomes of codes and history otherwise: no code is unstamped, and a new one was never spent. */
  lemma CodesOtherwise(s: State, a: Action)
    requires Enabled(s, a) && !WritesFloor(s, a) && !Redeems(s, a)
    ensures Next(s, a).spent == s.spent
    ensures forall k :: k in Next(s, a).codes ==>
              (k in s.codes && Next(s, a).codes[k] == s.codes[k]) ||
              forall i :: 0 <= i < |s.spent| && s.spent[i].Backup? ==> s.spent[i].codeId != k
  {
  }

  lemma OtherKeepsSpent(s: State, a: Action)
    requires Inv(s) && Enabled(s, a) && !WritesFloor(s, a) && !Redeems(s, a)
    ensures SpentOk(Next(s, a))
  {
    UsersOtherwise(s, a);
    CodesOtherwise(s, a);
    OthersKeepSpent(s, Next(s, a));
  }

  lemma OthersKeepSpent(s: State, s': State)
    requires SpentOk(s) && s'.spent == s.spent && s.users.Keys <= s'.users.Keys
    requires forall u :: u in s'.users && u in s.users ==>
               s'.users[u] == s.users[u] || (s'.users[u].floor.None? && s'.users[u].epoch > s.users[u].epoch)
    requires forall u :: u in s'.users && u !in s.users ==> s'.users[u].floor.None?
    requires forall k :: k in s'.codes ==>
               (k in s.codes && s'.codes[k] == s.codes[k]) ||
               forall i :: 0 <= i < |s.spent| && s.spent[i].Backup? ==> s.spent[i].codeId != k
    ensures SpentOk(s')
  {
    FloorStaysLast(s, s');
    forall i | 0 <= i < |s.spent| ensures Barred(s', s.spent[i]) {
      assert Barred(s, s.spent[i]);
    }
  }

  lemma StepKeepsSpent(s: State, a: Action)
    requires Inv(s) && Enabled(s, a)
    ensures SpentOk(Next(s, a)) && CodeNew(s, a)
  {
    if WritesFloor(s, a) {
      WriteKeepsSpent(s, a);
      WriteAppends(s, a);
    } else if Redeems(s, a) {
      RedeemAppends(s, a);
      RedeemKeepsSpent(s, Next(s, a), Redeemed(s, a));
    } else {
      CodesOtherwise(s, a);
      OtherKeepsSpent(s, a);
    }
  }

  /** Challenge rows keep their owner, purpose and limit, and stay consumed; users, sessions and factors stay. */
  predicate Grows(s: State, s': State) {
    && (forall id :: id in s.challenges ==> id in s'.challenges && ChallengeGrows(s.challenges[id], s'.challenges[id]))
    && (forall u :: u in s.users ==> u in s'.users && s.users[u].epoch <= s'.users[u].epoch)
    && (forall id :: id in s.sessions ==> id in s'.sessions && s'.sessions[id].userId == s.sessions[id].userId)
    && (forall f :: f in s.spent ==> f in s'.spent)
  }

  predicate ChallengeGrows(row: Challenge, row': Challenge) {
    && row'.userId == row.userId && row'.purpose == row.purpose && row'.maxAttempts == row.maxAttempts
    && (row.consumed ==> row'.consumed) && (row.stamped ==> row'.stamped)
  }

  lemma StepGrows(s: State, a: Action)
    requires Enabled(s, a)
    ensures Grows(s, Next(s, a))
  {
    if WritesFloor(s, a) {
      WriteAppends(s, a);
    } else {
      UsersOtherwise(s, a);
    }
    ChallengesGrow(s, a);
    SessionsGrow(s, a);
    SpentGrows(s, a);
  }

  lemma ChallengesGrow(s: State, a: Action)
    requires Enabled(s, a)
    ensures forall id :: id in s.challenges ==>
              id in Next(s, a).challenges && ChallengeGrows(s.challenges[id], Next(s, a).challenges[id])
  {
    if a.AdminReset? || a.RevokeTrust? {
      ResetClosesChallenges(s, a);
    } else if LeavesChallenges(a) {
      ChallengesStay(s, a);
    } else {
      RowWriteGrows(s, a);
    }
  }

  lemma ResetClosesChallenges(s: State, a: Action)
    requires Enabled(s, a) && (a.AdminReset? || a.RevokeTrust?)
    ensures Next(s, a).challenges == Closed(s.challenges, a.userId, a.RevokeTrust?)
  {
  }

  lemma RowWriteGrows(s: State, a: Action)
    requires Enabled(s, a) && (a.CreateChallenge? || a.Reject? || a.Consume? || a.Stamp?)
    ensures forall id :: id in s.challenges ==>
              id in Next(s, a).challenges && ChallengeGrows(s.challenges[id], Next(s, a).challenges[id])
  {
  }

  lemma SessionsGrow(s: State, a: Action)
    requires Enabled(s, a)
    ensures forall id :: id in s.sessions ==>
              id in Next(s, a).sessions && Next(s, a).sessions[id].userId == s.sessions[id].userId
  {
  }

  lemma SpentGrows(s: State, a: Action)
    requires Enabled(s, a)
    ensures s.spent <= Next(s, a).spent
  {
  }

  lemma OldCallHolds(s: State, s': State, call: Call)
    requires CallHolds(s, call) && Grows(s, s')
    ensures CallHolds(s', call)
  {
  }

  /** The steps that belong to a call; the others leave all calls as they are. */
  predicate HasCall(a: Action) {
    !StartsEpoch(a) && !a.CreateChallenge? && !a.ReplaceCodes? && !a.RevokeTrust?
  }

  lemma OneCallMoves(s: State, a: Action)
    requires Enabled(s, a)
    ensures !HasCall(a) ==> Next(s, a).calls == s.calls
    ensures HasCall(a) ==> a.call in Next(s, a).calls && Next(s, a).calls == s.calls[a.call := Next(s, a).calls[a.call]]
  {
    if HasCall(a) {
      OwnCallMoves(s, a);
    } else {
      NoCallMoves(s, a);
    }
  }

  lemma OwnCallMoves(s: State, a: Action)
    requires Enabled(s, a) && HasCall(a)
    ensures a.call in Next(s, a).calls && Next(s, a).calls == s.calls[a.call := Next(s, a).calls[a.call]]
  {
  }

  lemma NoCallMoves(s: State, a: Action)
    requires Enabled(s, a) && !HasCall(a)
    ensures Next(s, a).calls == s.calls
  {
  }

  /** The steps after which their call has a factor or none. */
  predicate SpendsFactor(a: Action) {
    a.SpendTotp? || a.SpendCode? || a.AcceptStep? || a.RedeemForManagement?
  }

  predicate UsesFactor(a: Action) {
    a.Consume? || a.Stamp? || a.IssueSession?
  }

  lemma StepCallHolds(s: State, a: Action)
    requires Enabled(s, a) && (a.SpendTotp? || a.AcceptStep?) && CallHolds(s, s.calls[a.call])
    ensures CallHolds(Next(s, a), Next(s, a).calls[a.call])
  {
  }

  lemma CodeCallHolds(s: State, a: Action)
    requires Enabled(s, a) && (a.SpendCode? || a.RedeemForManagement?) && (a.call in s.calls ==> CallHolds(s, s.calls[a.call]))
    ensures CallHolds(Next(s, a), Next(s, a).calls[a.call])
  {
  }

  lemma ConsumingCallHolds(s: State, c: Id, now: int)
    requires Enabled(s, Consume(c, now)) && CallHolds(s, s.calls[c])
    ensures CallHolds(AfterConsume(s, c, now), AfterConsume(s, c, now).calls[c])
  {
  }

  lemma StampingCallHolds(s: State, c: Id, now: int)
    requires Enabled(s, Stamp(c, now)) && CallHolds(s, s.calls[c])
    ensures CallHolds(AfterStamp(s, c, now), AfterStamp(s, c, now).calls[c])
  {
  }

  lemma IssuingCallHolds(s: State, a: Action)
    requires Enabled(s, a) && a.IssueSession? && CallHolds(s, s.calls[a.call])
    ensures CallHolds(Next(s, a), Next(s, a).calls[a.call])
  {
  }

  lemma ReadingCallHolds(s: State, a: Action)
    requires Enabled(s, a) && HasCall(a) && !SpendsFactor(a) && !UsesFactor(a)
    requires a.call in s.calls ==> CallHolds(s, s.calls[a.call])
    ensures CallHolds(Next(s, a), Next(s, a).calls[a.call])
  {
  }

  lemma MovedCallHolds(s: State, a: Action)
    requires Enabled(s, a) && HasCall(a) && (a.call in s.calls ==> CallHolds(s, s.calls[a.call]))
    ensures a.call in Next(s, a).calls && CallHolds(Next(s, a), Next(s, a).calls[a.call])
  {
    OneCallMoves(s, a);
    if a.SpendTotp? || a.AcceptStep? {
      StepCallHolds(s, a);
    } else if SpendsFactor(a) {
      CodeCallHolds(s, a);
    } else if a.IssueSession? {
      IssuingCallHolds(s, a);
    } else if a.Consume? {
      ConsumingCallHolds(s, a.call, a.now);
    } else if a.Stamp? {
      StampingCallHolds(s, a.call, a.now);
    } else {
      ReadingCallHolds(s, a);
    }
  }

  lemma StepKeepsCalls(s: State, a: Action)
    requires Inv(s) && Enabled(s, a)
    ensures forall c :: c in Next(s, a).calls ==> CallHolds(Next(s, a), Next(s, a).calls[c])
  {
    var s' := Next(s, a);
    StepGrows(s, a);
    OneCallMoves(s, a);
    forall c | c in s'.calls ensures CallHolds(s', s'.calls[c]) {
      if HasCall(a) && c == a.call {
        MovedCallHolds(s, a);
      } else {
        OldCallHolds(s, s', s.calls[c]);
      }
    }
  }

  lemma StepKeepsFactors(s: State, a: Action)
    requires Inv(s) && Enabled(s, a)
    ensures FactorsDistinct(Next(s, a))
  {
    var s' := Next(s, a);
    StepKeepsSpent(s, a);
    forall c | c in s.calls && HasFactor(s.calls[c]) ensures s.calls[c].factor in s.spent {
      assert CallHolds(s, s.calls[c]);
    }
    forall c, d | c in s'.calls && d in s'.calls && c != d && HasFactor(s'.calls[c]) && HasFactor(s'.calls[d])
      ensures Apart(s', s'.calls[c].factor, s'.calls[d].factor)
    {
      FactorKeptOrNew(s, a, c);
      FactorKeptOrNew(s, a, d);
      StillApart(s, s', s'.calls[c].factor, s'.calls[d].factor);
    }
  }

  lemma StillApart(s: State, s': State, f: Factor, g: Factor)
    requires s'.spent == s.spent || (|s'.spent| == |s.spent| + 1 && s'.spent[..|s.spent|] == s.spent)
    requires s'.spent != s.spent && s'.spent[|s.spent|].Backup? ==> s'.spent[|s.spent|] !in s.spent
    requires (f in s.spent && g in s.spent && Apart(s, f, g))
          || (s'.spent != s.spent && ((f == s'.spent[|s.spent|] && g in s.spent) || (g == s'.spent[|s.spent|] && f in s.spent)))
    ensures Apart(s', f, g)
  {
    if f.Totp? && InStep(s'.spent, f.userId) {
      PrefixInStep(s'.spent, |s.spent|, f.userId);
      if s'.spent != s.spent {
        forall i | 0 <= i < |s.spent| && s.spent[i].Totp? && s.spent[i].userId == f.userId
          ensures s.spent[i] != s'.spent[|s.spent|]
        {
          assert StepRises(s'.spent[i], s'.spent[|s.spent|], f.userId);
        }
      }
    }
  }

  ghost predicate Spends(s: State, a: Action, c: Id)
    requires Enabled(s, a)
  {
    SpendsFactor(a) && a.call == c && Next(s, a).spent != s.spent
  }

  lemma FactorKeptOrNew(s: State, a: Action, c: Id)
    requires Enabled(s, a) && CodeNew(s, a) && c in Next(s, a).calls && HasFactor(Next(s, a).calls[c])
    ensures (c in s.calls && HasFactor(s.calls[c]) && s.calls[c].factor == Next(s, a).calls[c].factor) ||
            (Spends(s, a, c) && Next(s, a).calls[c].factor == Next(s, a).spent[|s.spent|])
  {
    OneCallMoves(s, a);
    if HasCall(a) && c == a.call {
      MovedFactor(s, a);
    }
  }

  lemma MovedFactor(s: State, a: Action)
    requires Enabled(s, a) && HasCall(a) && a.call in Next(s, a).calls && HasFactor(Next(s, a).calls[a.call])
    ensures (UsesFactor(a) && HasFactor(s.calls[a.call]) && s.calls[a.call].factor == Next(s, a).calls[a.call].factor) ||
            (SpendsFactor(a) && Next(s, a).spent == s.spent + [Next(s, a).calls[a.call].factor])
  {
  }

  lemma MovedChallenge(s: State, a: Action)
    requires Enabled(s, a) && HasCall(a) && (a.call in s.calls ==> CallHolds(s, s.calls[a.call]))
    requires a.call in Next(s, a).calls && HasChallenge(Next(s, a).calls[a.call])
    ensures UsesFactor(a) && s.calls[a.call].open == Next(s, a).calls[a.call].open
    ensures a.IssueSession? ==> HasChallenge(s.calls[a.call])
    ensures !a.IssueSession? ==> s.calls[a.call].open.id in s.challenges && !Taken(s.challenges[s.calls[a.call].open.id])
  {
  }

  lemma ChallengesStayDistinct(s: State, s': State, c: Id)
    requires ChallengesDistinct(s) && forall d :: d in s.calls ==> CallHolds(s, s.calls[d])
    requires c in s'.calls && s'.calls == s.calls[c := s'.calls[c]]
    requires HasChallenge(s'.calls[c]) ==>
               && c in s.calls && HasOpen(s.calls[c]) && s.calls[c].open == s'.calls[c].open
               && var id := s'.calls[c].open.id;
               HasChallenge(s.calls[c]) || (id in s.challenges && !Taken(s.challenges[id]))
    ensures ChallengesDistinct(s')
  {
    forall d | d in s.calls && HasChallenge(s.calls[d])
      ensures s.calls[d].open.id in s.challenges && Taken(s.challenges[s.calls[d].open.id])
    {
      assert CallHolds(s, s.calls[d]);
    }
  }

  lemma StepKeepsChallenges(s: State, a: Action)
    requires Enabled(s, a) && ChallengesDistinct(s) && forall c :: c in s.calls ==> CallHolds(s, s.calls[c])
    ensures ChallengesDistinct(Next(s, a))
  {
    OneCallMoves(s, a);
    if HasCall(a) {
      if HasChallenge(Next(s, a).calls[a.call]) {
        MovedChallenge(s, a);
      }
      ChallengesStayDistinct(s, Next(s, a), a.call);
    }
  }

  lemma StepKeepsSessions(s: State, a: Action)
    requires Enabled(s, a) && SessionsDistinct(s) && forall c :: c in s.calls ==> CallHolds(s, s.calls[c])
    ensures SessionsDistinct(Next(s, a))
  {
    var s' := Next(s, a);
    OneCallMoves(s, a);
    forall c | c in s.calls && s.calls[c].Issued? ensures s.calls[c].sessionId in s.sessions {
      assert CallHolds(s, s.calls[c]);
    }
    if HasCall(a) && s'.calls[a.call].Issued? {
      MovedSession(s, a);
    }
  }

  lemma MovedSession(s: State, a: Action)
    requires Enabled(s, a) && HasCall(a) && a.call in Next(s, a).calls && Next(s, a).calls[a.call].Issued?
    ensures a.IssueSession? && Next(s, a).calls[a.call].sessionId == a.sessionId
  {
  }

  lemma StepKeepsAttempts(s: State, a: Action)
    requires Enabled(s, a) && AttemptsBounded(s) && forall c :: c in s.calls ==> CallHolds(s, s.calls[c])
    ensures AttemptsBounded(Next(s, a))
  {
    if a.Reject? {
      RejectKeepsAttempts(s, a);
    } else {
      OthersKeepAttempts(s, a);
    }
  }

  lemma RejectKeepsAttempts(s: State, a: Action)
    requires Enabled(s, a) && a.Reject? && AttemptsBounded(s) && CallHolds(s, s.calls[a.call])
    ensures AttemptsBounded(Next(s, a))
  {
  }

  /** The steps that write no challenge. */
  predicate LeavesChallenges(a: Action) {
    !a.CreateChallenge? && !a.Reject? && !a.Consume? && !a.Stamp? && !a.AdminReset? && !a.RevokeTrust?
  }

  lemma ChallengesStay(s: State, a: Action)
    requires Enabled(s, a) && LeavesChallenges(a)
    ensures Next(s, a).challenges == s.challenges
  {
  }

  lemma OthersKeepAttempts(s: State, a: Action)
    requires Enabled(s, a) && !a.Reject? && AttemptsBounded(s)
    ensures AttemptsBounded(Next(s, a))
  {
    if LeavesChallenges(a) {
      ChallengesStay(s, a);
    } else if a.AdminReset? || a.RevokeTrust? {
      ResetClosesChallenges(s, a);
    } else {
      RowWriteKeepsAttempts(s, a);
    }
  }

  lemma RowWriteKeepsAttempts(s: State, a: Action)
    requires Enabled(s, a) && (a.CreateChallenge? || a.Consume? || a.Stamp?) && AttemptsBounded(s)
    ensures AttemptsBounded(Next(s, a))
  {
  }

  lemma StepKeepsInv(s: State, a: Action)
    requires Inv(s) && Enabled(s, a)
    ensures Inv(Next(s, a))
  {
    StepKeepsSpent(s, a);
    StepKeepsCalls(s, a);
    StepKeepsFactors(s, a);
    StepKeepsChallenges(s, a);
    StepKeepsSessions(s, a);
    StepKeepsAttempts(s, a);
  }

  // ---------------------------------------------------------------- runs

  ghost predicate IsStep(states: seq<State>, actions: seq<Action>, i: nat)
    requires i < |actions| && i + 1 < |states|
  {
    Enabled(states[i], actions[i]) && states[i + 1] == Next(states[i], actions[i])
  }

  ghost predicate IsRun(states: seq<State>, actions: seq<Action>) {
    && |states| == |actions| + 1 && states[0] == INITIAL
    && forall i :: 0 <= i < |actions| ==> IsStep(states, actions, i)
  }

  lemma {:induction false} RunKeepsInv(states: seq<State>, actions: seq<Action>, n: nat)
    requires IsRun(states, actions) && n <= |actions|
    ensures Inv(states[n])
  {
    if n > 0 {
      RunKeepsInv(states, actions, n - 1);
      assert IsStep(states, actions, n - 1);
      StepKeepsInv(states[n - 1], actions[n - 1]);
    }
  }

  // ---------------------------------------------------------------- in step

  /**
   The write comes late: the row no longer holds the secret that was read, or its floor has reached the step. A
   compare-and-set is late only when the secret changed and the floor came back to what was read.
   */
  ghost predicate Late(s: State, a: Action, u: Id)
    requires Enabled(s, a)
  {
    && WritesFloor(s, a) && Writer(s, a) == u
    && (s.calls[a.call].secret != s.users[u].epoch || (s.users[u].floor.Some? && a.usedStep.value <= s.users[u].floor.value))
  }

  lemma OwnWriteIff(s: State, f: Factor, u: Id)
    requires SpentOk(s) && f.Totp? && f.userId == u && u in s.users && f.epoch == s.users[u].epoch
    ensures InStep(s.spent + [f], u) <==>
            InStep(s.spent, u) && f.secret == f.epoch && (s.users[u].floor.Some? ==> f.step > s.users[u].floor.value)
  {
    var n, longer := |s.spent|, s.spent + [f];
    LastIsThere(s.spent, u, f.epoch);
    if InStep(longer, u) {
      PrefixInStep(longer, n, u);
      assert longer[..n] == s.spent && OwnSecret(longer[n], u);
      if i :| 0 <= i < n && IsStepOf(s.spent[i], u, f.epoch) && Some(s.spent[i].step) == s.users[u].floor {
        assert StepRises(longer[i], longer[n], u);
      }
    }
    if InStep(s.spent, u) && f.secret == f.epoch && (s.users[u].floor.Some? ==> f.step > s.users[u].floor.value) {
      forall i, j | 0 <= i < j <= n ensures StepRises(longer[i], longer[j], u) {
        if j < n {
          assert StepRises(s.spent[i], s.spent[j], u);
        } else if IsStepOf(s.spent[i], u, f.epoch) {
          LastIsHighest(s.spent, u, f.epoch, i);
        }
      }
      assert forall i :: 0 <= i < n ==> OwnSecret(s.spent[i], u);
    }
  }

  lemma OtherWriteIff(spent: seq<Factor>, longer: seq<Factor>, u: Id)
    requires longer == spent || (|longer| == |spent| + 1 && longer[..|spent|] == spent
                                 && !(longer[|spent|].Totp? && longer[|spent|].userId == u))
    ensures InStep(longer, u) <==> InStep(spent, u)
  {
    if InStep(longer, u) {
      PrefixInStep(longer, |spent|, u);
    }
    if InStep(spent, u) {
      forall i, j | 0 <= i < j < |longer| ensures StepRises(longer[i], longer[j], u) {
        assert j < |spent| ==> StepRises(spent[i], spent[j], u);
      }
      assert forall i :: 0 <= i < |spent| ==> OwnSecret(spent[i], u);
    }
  }

  /** A step keeps a user's accepted codes in step exactly when it is no late write. */
  lemma InStepIff(s: State, a: Action, u: Id)
    requires Inv(s) && Enabled(s, a)
    ensures InStep(Next(s, a).spent, u) <==> InStep(s.spent, u) && !Late(s, a, u)
  {
    if WritesFloor(s, a) {
      WriteAppends(s, a);
      if Writer(s, a) == u {
        OwnWriteIff(s, Written(s, a), u);
      } else {
        OtherWriteIff(s.spent, Next(s, a).spent, u);
      }
    } else {
      OnlyCodesOtherwise(s, a);
      OtherWriteIff(s.spent, Next(s, a).spent, u);
    }
  }

  lemma OnlyCodesOtherwise(s: State, a: Action)
    requires Enabled(s, a) && !WritesFloor(s, a)
    ensures var spent' := Next(s, a).spent;
            spent' == s.spent || (|spent'| == |s.spent| + 1 && spent'[..|s.spent|] == s.spent && spent'[|s.spent|].Backup?)
  {
    if Redeems(s, a) {
      RedeemAppends(s, a);
    } else {
      CodesOtherwise(s, a);
    }
  }

  ghost predicate LateAt(states: seq<State>, actions: seq<Action>, k: nat, u: Id)
    requires IsRun(states, actions) && k < |actions|
  {
    assert IsStep(states, actions, k);
    Late(states[k], actions[k], u)
  }

  /** Over a run the accepted codes of a user are in step exactly when no write came late. */
  lemma {:induction false} RunInStepIff(states: seq<State>, actions: seq<Action>, n: nat, u: Id)
    requires IsRun(states, actions) && n <= |actions|
    ensures InStep(states[n].spent, u) <==> forall k :: 0 <= k < n ==> !LateAt(states, actions, k, u)
  {
    if n > 0 {
      RunInStepIff(states, actions, n - 1, u);
      RunKeepsInv(states, actions, n - 1);
      assert IsStep(states, actions, n - 1);
      InStepIff(states[n - 1], actions[n - 1], u);
      assert LateAt(states, actions, n - 1, u) <==> Late(states[n - 1], actions[n - 1], u);
    }
  }

  // ---------------------------------------------------------------- one use

  /** Two issued sessions rest on two challenges, however stale the snapshots were. */
  lemma SessionsOneToOne(states: seq<State>, actions: seq<Action>, n: nat, c: Id, d: Id)
    requires IsRun(states, actions) && n <= |actions| && c in states[n].calls && d in states[n].calls && c != d
    requires states[n].calls[c].Issued? && states[n].calls[d].Issued?
    ensures states[n].calls[c].open.id != states[n].calls[d].open.id
    ensures states[n].calls[c].sessionId != states[n].calls[d].sessionId
  {
    RunKeepsInv(states, actions, n);
  }

  /**
   One code, one use, across logins, password resets, re-authentications and confirmations: two uses of one
   code take a late write of the user. Backup codes never serve twice.
   */
  lemma FactorUsedOnce(states: seq<State>, actions: seq<Action>, n: nat, c: Id, d: Id)
    requires IsRun(states, actions) && n <= |actions| && c in states[n].calls && d in states[n].calls && c != d
    requires Used(states[n].calls[c]) && Used(states[n].calls[d])
    requires SameCode(states[n].calls[c].factor, states[n].calls[d].factor)
    ensures states[n].calls[c].factor.Totp?
    ensures exists k :: 0 <= k < n && LateAt(states, actions, k, states[n].calls[c].factor.userId)
  {
    var s, f, g := states[n], states[n].calls[c].factor, states[n].calls[d].factor;
    RunKeepsInv(states, actions, n);
    RunInStepIff(states, actions, n, f.userId);
    assert CallHolds(s, s.calls[c]) && CallHolds(s, s.calls[d]);
    assert Apart(s, f, g);
    if f.Totp? && InStep(s.spent, f.userId) {
      SameCodeSameFactor(s.spent, f, g);
    } else if f.Backup? {
      CodeSpentOnce(s.spent, f, g);
    }
  }

  lemma SameCodeSameFactor(spent: seq<Factor>, f: Factor, g: Factor)
    requires f.Totp? && InStep(spent, f.userId) && f in spent && g in spent && SameCode(f, g)
    ensures f == g
  {
    var i :| 0 <= i < |spent| && spent[i] == f;
    var j :| 0 <= j < |spent| && spent[j] == g;
    assert OwnSecret(spent[i], f.userId) && OwnSecret(spent[j], f.userId);
  }

  lemma CodeSpentOnce(spent: seq<Factor>, f: Factor, g: Factor)
    requires CodesOnce(spent) && f.Backup? && f in spent && g in spent && SameCode(f, g)
    ensures f == g
  {
    var i :| 0 <= i < |spent| && spent[i] == f;
    var j :| 0 <= j < |spent| && spent[j] == g;
  }

  /** A stamped reset rests on a reset challenge that carries the stamp and on a factor spent by its own user. */
  lemma StampIsEarned(states: seq<State>, actions: seq<Action>, n: nat, c: Id)
    requires IsRun(states, actions) && n <= |actions| && c in states[n].calls && states[n].calls[c].Stamped?
    ensures var s, call := states[n], states[n].calls[c];
            && call.open.id in s.challenges && s.challenges[call.open.id].stamped
            && s.challenges[call.open.id].purpose == Reset
            && call.factor in s.spent && call.factor.userId == s.challenges[call.open.id].userId
  {
    RunKeepsInv(states, actions, n);
    assert CallHolds(states[n], states[n].calls[c]);
  }

  /** An issued session rests on a consumed LOGIN challenge and on a factor spent by the challenge's own user. */
  lemma SessionIsEarned(states: seq<State>, actions: seq<Action>, n: nat, c: Id)
    requires IsRun(states, actions) && n <= |actions| && c in states[n].calls && states[n].calls[c].Issued?
    ensures var s, call := states[n], states[n].calls[c];
            && call.open.id in s.challenges && s.challenges[call.open.id].consumed
            && s.challenges[call.open.id].purpose == Login
            && call.factor in s.spent && call.factor.userId == s.challenges[call.open.id].userId
  {
    RunKeepsInv(states, actions, n);
    assert CallHolds(states[n], states[n].calls[c]);
  }

  /** The same of the whole history: a code is accepted a second time only if a write of its user came late. */
  lemma FactorsSpentOnce(states: seq<State>, actions: seq<Action>, n: nat, i: nat, j: nat)
    requires IsRun(states, actions) && n <= |actions| && i < j < |states[n].spent|
    requires SameCode(states[n].spent[i], states[n].spent[j])
    ensures states[n].spent[i].Totp?
    ensures exists k :: 0 <= k < n && LateAt(states, actions, k, states[n].spent[i].userId)
  {
    var s := states[n];
    var u := s.spent[i].userId;
    RunKeepsInv(states, actions, n);
    RunInStepIff(states, actions, n, u);
    if s.spent[i].Totp? && InStep(s.spent, u) {
      InStepApart(s.spent, i, j);
    }
  }

  lemma InStepApart(spent: seq<Factor>, i: nat, j: nat)
    requires i < j < |spent| && spent[i].Totp? && InStep(spent, spent[i].userId)
    ensures !SameCode(spent[i], spent[j])
  {
    var u := spent[i].userId;
    assert StepRises(spent[i], spent[j], u) && OwnSecret(spent[i], u) && OwnSecret(spent[j], u);
  }

  /** No challenge ever counts more failed attempts than it allows. */
  lemma AttemptsNeverExceed(states: seq<State>, actions: seq<Action>, n: nat, id: Id)
    requires IsRun(states, actions) && n <= |actions| && id in states[n].challenges
    ensures states[n].challenges[id].attemptCount <= states[n].challenges[id].maxAttempts
  {
    RunKeepsInv(states, actions, n);
  }
}
