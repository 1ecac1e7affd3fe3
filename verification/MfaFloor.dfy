/**
 The replay floor and its unconditional writes. A login and a password reset compare the floor with what they
 read; MFA management and the confirmation of an enrolment write the step they accepted without comparing. This
 says when accepted steps stay at or below the floor, what follows when they do not, and shows the runs.
 */
module MfaFloor {
  import opened Options
  import opened MfaLogin
  import opened MfaLoginProofs

  /** Every step written since the secret was set or cleared is at or below the stored floor. */
  predicate Covered(s: State, u: Id) {
    u in s.users ==> forall i :: 0 <= i < |s.spent| ==> CoveredBy(s.spent[i], u, s.users[u])
  }

  predicate CoveredBy(f: Factor, u: Id, user: User) {
    IsStepOf(f, u, user.epoch) ==> user.floor.Some? && f.step <= user.floor.value
  }

  /** The write is below the floor the row holds at that moment. */
  ghost predicate Lowers(s: State, a: Action, u: Id)
    requires Enabled(s, a)
  {
    WritesFloor(s, a) && Writer(s, a) == u && s.users[u].floor.Some? && a.usedStep.value < s.users[u].floor.value
  }

  lemma OtherStepCovers(s: State, a: Action, u: Id)
    requires Inv(s) && Enabled(s, a) && Covered(s, u) && !(WritesFloor(s, a) && Writer(s, a) == u)
    ensures Covered(Next(s, a), u)
  {
    var s' := Next(s, a);
    if WritesFloor(s, a) {
      WriteAppends(s, a);
    } else {
      UsersOtherwise(s, a);
      OnlyCodesOtherwise(s, a);
    }
    if u in s'.users {
      forall i | 0 <= i < |s'.spent| ensures CoveredBy(s'.spent[i], u, s'.users[u]) {
        if i < |s.spent| {
          assert Barred(s, s.spent[i]) && (u in s.users ==> CoveredBy(s.spent[i], u, s.users[u]));
        }
      }
    }
  }

  /** A step uncovers an accepted step exactly when it writes below the stored floor. */
  lemma CoveredIff(s: State, a: Action, u: Id)
    requires Inv(s) && Enabled(s, a) && Covered(s, u)
    ensures Covered(Next(s, a), u) <==> !Lowers(s, a, u)
  {
    if WritesFloor(s, a) && Writer(s, a) == u {
      var s' := Next(s, a);
      WriteAppends(s, a);
      if Lowers(s, a, u) {
        var i := FloorWasAccepted(s, u);
        assert !CoveredBy(s'.spent[i], u, s'.users[u]);
      } else {
        forall i | 0 <= i < |s'.spent| ensures CoveredBy(s'.spent[i], u, s'.users[u]) {
          assert i < |s.spent| ==> CoveredBy(s.spent[i], u, s.users[u]);
        }
      }
    } else {
      OtherStepCovers(s, a, u);
    }
  }

  /** The stored floor is a step that was accepted. */
  lemma FloorWasAccepted(s: State, u: Id) returns (i: nat)
    requires Inv(s) && u in s.users && s.users[u].floor.Some?
    ensures i < |s.spent| && IsStepOf(s.spent[i], u, s.users[u].epoch) && s.spent[i].step == s.users[u].floor.value
  {
    LastIsThere(s.spent, u, s.users[u].epoch);
    i :| 0 <= i < |s.spent| && IsStepOf(s.spent[i], u, s.users[u].epoch) && s.spent[i].step == s.users[u].floor.value;
  }

  ghost predicate LowersAt(states: seq<State>, actions: seq<Action>, k: nat, u: Id)
    requires IsRun(states, actions) && k < |actions|
  {
    assert IsStep(states, actions, k);
    Lowers(states[k], actions[k], u)
  }

  /** Over a run the accepted steps of a user stay covered at all times exactly when no write goes below the floor. */
  lemma {:induction false} AlwaysCoveredIff(states: seq<State>, actions: seq<Action>, n: nat, u: Id)
    requires IsRun(states, actions) && n <= |actions|
    ensures (forall i :: 0 <= i <= n ==> Covered(states[i], u))
       <==> (forall k :: 0 <= k < n ==> !LowersAt(states, actions, k, u))
  {
    if n == 0 {
      assert Covered(states[0], u);
    } else {
      AlwaysCoveredIff(states, actions, n - 1, u);
      RunKeepsInv(states, actions, n - 1);
      assert IsStep(states, actions, n - 1);
      if Covered(states[n - 1], u) {
        CoveredIff(states[n - 1], actions[n - 1], u);
        assert Covered(states[n], u) <==> !LowersAt(states, actions, n - 1, u);
      }
    }
  }

  // ---------------------------------------------------------------- an uncovered code serves again

  lemma Step(states: seq<State>, actions: seq<Action>, a: Action) returns (longer: seq<State>, more: seq<Action>)
    requires IsRun(states, actions) && Enabled(states[|actions|], a)
    ensures IsRun(longer, more) && more == actions + [a] && actions <= more && states <= longer
    ensures longer[|more|] == Next(states[|actions|], a)
  {
    longer, more := states + [Next(states[|actions|], a)], actions + [a];
    forall i | 0 <= i < |more| ensures IsStep(longer, more, i) {
      assert i < |actions| ==> IsStep(states, actions, i);
    }
  }

  predicate CanUse(s: State, u: Id, step: int) {
    u in s.users && s.users[u].hasSecret && (s.users[u].floor.Some? ==> step > s.users[u].floor.value)
  }

  predicate FreshIn(s: State, id: Id) {
    id !in s.challenges && id !in s.calls && id !in s.sessions
  }

  function Completed(s: State, u: Id, id: Id, step: int): State
    requires u in s.users
  {
    var factor := Totp(u, s.users[u].epoch, s.users[u].epoch, step);
    State(s.users[u := s.users[u].(floor := Some(step))],
          s.challenges[id := Challenge(u, Login, true, false, 100, 0, 5)], s.codes,
          s.calls[id := Issued(OpenChallenge(id, u, Login, false, 5), factor, id)],
          s.sessions[id := Session(u, true)], s.spent + [factor])
  }

  /** One login from its challenge to its session, with the code of a step above the floor. */
  lemma LoginWith(states: seq<State>, actions: seq<Action>, u: Id, id: Id, step: int)
    returns (longer: seq<State>, more: seq<Action>)
    requires IsRun(states, actions)
    requires CanUse(states[|actions|], u, step) && FreshIn(states[|actions|], id)
    ensures IsRun(longer, more) && actions <= more && states <= longer
    ensures longer[|more|] == Completed(states[|actions|], u, id, step)
  {
    longer, more := FactorOf(states, actions, u, id, step);
    longer, more := Step(longer, more, Consume(id, 0));
    longer, more := Step(longer, more, IssueSession(id, id));
    var s := states[|actions|];
    var challenge := Challenge(u, Login, true, false, 100, 0, 5);
    assert longer[|more|].challenges == s.challenges[id := challenge];
    var factor := Totp(u, s.users[u].epoch, s.users[u].epoch, step);
    assert longer[|more|].calls == s.calls[id := Issued(OpenChallenge(id, u, Login, false, 5), factor, id)];
  }

  function Verified(s: State, u: Id, id: Id, step: int): State
    requires u in s.users
  {
    var factor := Totp(u, s.users[u].epoch, s.users[u].epoch, step);
    s.(users := s.users[u := s.users[u].(floor := Some(step))],
       challenges := s.challenges[id := Challenge(u, Login, false, false, 100, 0, 5)],
       calls := s.calls[id := FactorSpent(OpenChallenge(id, u, Login, false, 5), factor)], spent := s.spent + [factor])
  }

  /** Its first half, up to the factor. */
  lemma FactorOf(states: seq<State>, actions: seq<Action>, u: Id, id: Id, step: int)
    returns (longer: seq<State>, more: seq<Action>)
    requires IsRun(states, actions)
    requires CanUse(states[|actions|], u, step) && FreshIn(states[|actions|], id)
    ensures IsRun(longer, more) && actions <= more && states <= longer
    ensures longer[|more|] == Verified(states[|actions|], u, id, step)
  {
    longer, more := Step(states, actions, CreateChallenge(id, Challenge(u, Login, false, false, 100, 0, 5)));
    longer, more := Step(longer, more, LoadOpen(id, id, 0, true));
    longer, more := Step(longer, more, ReadFloor(id));
    longer, more := Step(longer, more, SpendTotp(id, Some(step)));
    var s := states[|actions|];
    var factor := Totp(u, s.users[u].epoch, s.users[u].epoch, step);
    assert longer[|more|].calls == s.calls[id := FactorSpent(OpenChallenge(id, u, Login, false, 5), factor)];
  }

  lemma {:induction false} Bounded(keys: set<Id>) returns (bound: nat)
    ensures forall k :: k in keys ==> k < bound
    decreases |keys|
  {
    bound := 0;
    if keys != {} {
      var k :| k in keys;
      var rest := Bounded(keys - {k});
      bound := if k < rest then rest else k + 1;
      assert keys == (keys - {k}) + {k};
    }
  }

  /** Whenever an accepted code of the current secret is above the floor, a login with it gets a session. */
  lemma UncoveredServesAgain(states: seq<State>, actions: seq<Action>, u: Id, i: nat)
    returns (longer: seq<State>, more: seq<Action>, c: Id)
    requires IsRun(states, actions)
    requires var s := states[|actions|];
             && u in s.users && s.users[u].hasSecret && i < |s.spent| && !CoveredBy(s.spent[i], u, s.users[u])
             && s.spent[i].secret == s.spent[i].epoch
    ensures IsRun(longer, more) && actions <= more && states <= longer
    ensures var s, s' := states[|actions|], longer[|more|];
            c !in s.calls && c in s'.calls && s'.calls[c].Issued? && SameCode(s'.calls[c].factor, s.spent[i])
  {
    var s := states[|actions|];
    c := Bounded(s.challenges.Keys + s.calls.Keys + s.sessions.Keys);
    longer, more := LoginWith(states, actions, u, c, s.spent[i].step);
  }

  /**
   A write below the floor, of a user in step until then, is not only uncovering: the run can go on so that the
   code of the former floor, already used, gets a session.
   */
  lemma LoweringServesAgain(states: seq<State>, actions: seq<Action>, a: Action, u: Id)
    returns (longer: seq<State>, more: seq<Action>, c: Id, i: nat)
    requires IsRun(states, actions) && Enabled(states[|actions|], a)
    requires InStep(states[|actions|].spent, u) && Lowers(states[|actions|], a, u) && states[|actions|].users[u].hasSecret
    ensures IsRun(longer, more) && actions + [a] <= more && states <= longer && i < |states[|actions|].spent|
    ensures var s, s' := states[|actions|], longer[|more|];
            && s.spent[i].Totp? && Some(s.spent[i].step) == s.users[u].floor
            && c !in s.calls && c in s'.calls && s'.calls[c].Issued? && SameCode(s'.calls[c].factor, s.spent[i])
  {
    var s := states[|actions|];
    RunKeepsInv(states, actions, |actions|);
    i := FloorWasAccepted(s, u);
    assert OwnSecret(s.spent[i], u);
    WriteAppends(s, a);
    longer, more := Step(states, actions, a);
    assert longer[|more|].spent[i] == s.spent[i];
    OneCallMoves(s, a);
    longer, more, c := UncoveredServesAgain(longer, more, u, i);
  }

  // ---------------------------------------------------------------- runs

  /** User 7 enrols: its first secret is confirmed with the code of step 9. */
  lemma Enrolled() returns (states: seq<State>, actions: seq<Action>)
    ensures IsRun(states, actions)
    ensures var first := Totp(7, 1, 1, 9);
            states[|actions|] == State(map[7 := User(true, Some(9), 1)], map[], map[], map[10 := Accepted(first)], map[], [first])
  {
    states, actions := [INITIAL], [];
    states, actions := Step(states, actions, AddUser(7));
    states, actions := Step(states, actions, StartEnrolment(7));
    states, actions := Step(states, actions, ReadRow(10, 7));
    states, actions := Step(states, actions, AcceptStep(10, Some(9)));
  }

  /**
   A management call that read floor 9 accepts the code of step 10 and writes it after a login moved the floor to
   11: the code of step 11 then gets a second session.
   */
  lemma LoweredFloorReplays() returns (states: seq<State>, actions: seq<Action>)
    ensures IsRun(states, actions)
    ensures var s := states[|actions|];
            && 1 in s.calls && 2 in s.calls && s.calls[1].Issued? && s.calls[2].Issued?
            && s.calls[1].factor == s.calls[2].factor == Totp(7, 1, 1, 11)
  {
    states, actions := Enrolled();
    states, actions := Step(states, actions, ReadRow(11, 7));
    states, actions := LoginWith(states, actions, 7, 1, 11);
    states, actions := Step(states, actions, AcceptStep(11, Some(10)));
    states, actions := LoginWith(states, actions, 7, 2, 11);
  }

  /** Without lowering: a management call that read floor 9 accepts the very code a login has just used. */
  lemma StaleReadReplays() returns (states: seq<State>, actions: seq<Action>)
    ensures IsRun(states, actions)
    ensures var s := states[|actions|];
            && 1 in s.calls && 11 in s.calls && s.calls[1].Issued? && s.calls[11].Accepted?
            && s.calls[1].factor == s.calls[11].factor == Totp(7, 1, 1, 10)
  {
    states, actions := Enrolled();
    states, actions := Step(states, actions, ReadRow(11, 7));
    states, actions := LoginWith(states, actions, 7, 1, 10);
    states, actions := Step(states, actions, AcceptStep(11, Some(10)));
  }

  /**
   The compare-and-set can be late too. A login reads secret 1 and floor 9; the user disables MFA with the code of
   step 10, enrols anew and confirms the new secret with step 9. The login then finds the floor it read, and the
   used code of the disabled secret gets a session.
   */
  lemma ReplacedSecretReplays() returns (states: seq<State>, actions: seq<Action>)
    ensures IsRun(states, actions)
    ensures var s := states[|actions|];
            && 2 in s.calls && 11 in s.calls && s.calls[2].Issued? && s.calls[11].Accepted?
            && s.calls[11].factor == Totp(7, 1, 1, 10) && s.calls[2].factor == Totp(7, 1, 3, 10)
  {
    states, actions := Enrolled();
    states, actions := Step(states, actions, CreateChallenge(2, Challenge(7, Login, false, false, 100, 0, 5)));
    states, actions := Step(states, actions, LoadOpen(2, 2, 0, true));
    states, actions := Step(states, actions, ReadFloor(2));
    states, actions := Step(states, actions, ReadRow(11, 7));
    states, actions := Step(states, actions, AcceptStep(11, Some(10)));
    states, actions := Step(states, actions, Disable(7));
    states, actions := Step(states, actions, StartEnrolment(7));
    states, actions := Reconfirmed(states, actions);
    states, actions := LastSteps(states, actions);
  }

  lemma Reconfirmed(states: seq<State>, actions: seq<Action>) returns (longer: seq<State>, more: seq<Action>)
    requires IsRun(states, actions)
    requires var s := states[|actions|]; 7 in s.users && s.users[7] == User(true, None, 3) && 12 !in s.calls
    ensures IsRun(longer, more)
    ensures var s, s' := states[|actions|], longer[|more|]; var factor := Totp(7, 3, 3, 9);
            s' == s.(users := s.users[7 := User(true, Some(9), 3)], calls := s.calls[12 := Accepted(factor)],
                     spent := s.spent + [factor])
  {
    longer, more := Step(states, actions, ReadRow(12, 7));
    longer, more := Step(longer, more, AcceptStep(12, Some(9)));
    assert longer[|more|].calls == states[|actions|].calls[12 := Accepted(Totp(7, 3, 3, 9))];
  }

  lemma LastSteps(states: seq<State>, actions: seq<Action>) returns (longer: seq<State>, more: seq<Action>)
    requires IsRun(states, actions)
    requires var s := states[|actions|];
             && 7 in s.users && s.users[7] == User(true, Some(9), 3) && 2 !in s.sessions
             && 2 in s.challenges && s.challenges[2] == Challenge(7, Login, false, false, 100, 0, 5)
             && 2 in s.calls && s.calls[2] == FloorRead(OpenChallenge(2, 7, Login, false, 5), 1, Some(9))
    ensures IsRun(longer, more)
    ensures var s, s' := states[|actions|], longer[|more|];
            s'.calls == s.calls[2 := Issued(OpenChallenge(2, 7, Login, false, 5), Totp(7, 1, 3, 10), 2)]
  {
    longer, more := Step(states, actions, SpendTotp(2, Some(10)));
    longer, more := Step(longer, more, Consume(2, 0));
    longer, more := Step(longer, more, IssueSession(2, 2));
    var open := OpenChallenge(2, 7, Login, false, 5);
    assert longer[|more|].calls == states[|actions|].calls[2 := Issued(open, Totp(7, 1, 3, 10), 2)];
  }
}
