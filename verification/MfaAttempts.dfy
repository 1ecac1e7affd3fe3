/**
 The attempt counter of a challenge: exactly the failed attempts that met it open are counted, and a challenge with
 its attempts used up stays closed. Before that, when each conditional write wins.
 */
module MfaAttempts {
  import opened Options
  import opened MfaLogin
  import opened MfaLoginProofs

  /** The challenge is unconsumed, before its expiry, with attempts left. */
  predicate StillOpen(s: State, id: Id, now: int) {
    && id in s.challenges && !s.challenges[id].consumed && now < s.challenges[id].expiresAt
    && s.challenges[id].attemptCount < s.challenges[id].maxAttempts
  }

  /** A load opens the challenge exactly when it is open and the secret is right. */
  lemma OpensIff(s: State, c: Id, id: Id, now: int, secretOk: bool)
    requires Enabled(s, LoadOpen(c, id, now, secretOk))
    ensures var s' := Next(s, LoadOpen(c, id, now, secretOk));
            if secretOk && StillOpen(s, id, now) then
              var row := s.challenges[id];
              s' == s.(calls := s.calls[c := Loaded(OpenChallenge(id, row.userId, row.purpose, row.stamped, row.maxAttempts))])
            else s' == s.(calls := s.calls[c := Ended])
  {
  }

  /** A consume wins exactly on a challenge still open, and writes that challenge alone. */
  lemma ConsumesIff(s: State, c: Id, now: int)
    requires Inv(s) && Enabled(s, Consume(c, now))
    ensures var call, s' := s.calls[c], Next(s, Consume(c, now)); var id := call.open.id;
            if StillOpen(s, id, now) then
              s' == s.(challenges := s.challenges[id := s.challenges[id].(consumed := true)],
                       calls := s.calls[c := ChallengeWon(call.open, call.factor)])
            else s' == s.(calls := s.calls[c := Ended])
  {
    assert CallHolds(s, s.calls[c]);
  }

  /** A stamp wins exactly on a challenge still open and not stamped yet, and writes that challenge alone. */
  lemma StampsIff(s: State, c: Id, now: int)
    requires Inv(s) && Enabled(s, Stamp(c, now))
    ensures var call, s' := s.calls[c], Next(s, Stamp(c, now)); var id := call.open.id;
            if StillOpen(s, id, now) && !s.challenges[id].stamped then
              s' == s.(challenges := s.challenges[id := s.challenges[id].(stamped := true)],
                       calls := s.calls[c := Stamped(call.open, call.factor)])
            else s' == s.(calls := s.calls[c := Ended])
  {
    assert CallHolds(s, s.calls[c]);
  }

  /** A failed attempt that meets the challenge still open. */
  ghost predicate Counts(s: State, a: Action, id: Id)
    requires Enabled(s, a)
  {
    a.Reject? && s.calls[a.call].open.id == id && StillOpen(s, id, a.now)
  }

  ghost predicate CountsAt(states: seq<State>, actions: seq<Action>, k: nat, id: Id)
    requires IsRun(states, actions) && k < |actions|
  {
    assert IsStep(states, actions, k);
    Counts(states[k], actions[k], id)
  }

  ghost function FailuresOf(states: seq<State>, actions: seq<Action>, n: nat, id: Id): nat
    requires IsRun(states, actions) && n <= |actions|
  {
    if n == 0 then 0
    else FailuresOf(states, actions, n - 1, id) + (if CountsAt(states, actions, n - 1, id) then 1 else 0)
  }

  /** A failed attempt ends its call and counts one on the challenge when it meets it still open; nothing else changes. */
  lemma RejectCounts(s: State, c: Id, now: int)
    requires Inv(s) && Enabled(s, Reject(c, now))
    ensures var id, s' := s.calls[c].open.id, Next(s, Reject(c, now));
            s' == s.(challenges := if StillOpen(s, id, now)
                                   then s.challenges[id := s.challenges[id].(attemptCount := s.challenges[id].attemptCount + 1)]
                                   else s.challenges,
                     calls := s.calls[c := Ended])
  {
    assert CallHolds(s, s.calls[c]);
  }

  lemma OthersCountNothing(s: State, a: Action, id: Id)
    requires Inv(s) && Enabled(s, a) && !a.Reject? && id in Next(s, a).challenges
    ensures Next(s, a).challenges[id].attemptCount == if id in s.challenges then s.challenges[id].attemptCount else 0
  {
    if LeavesChallenges(a) {
      ChallengesStay(s, a);
    } else if a.AdminReset? || a.RevokeTrust? {
      ResetClosesChallenges(s, a);
    } else if a.Consume? {
      ConsumesIff(s, a.call, a.now);
    } else if a.Stamp? {
      StampsIff(s, a.call, a.now);
    }
  }

  /** Over every run the stored count is the number of failed attempts that met the challenge still open. */
  lemma {:induction false} AttemptsAreExact(states: seq<State>, actions: seq<Action>, n: nat, id: Id)
    requires IsRun(states, actions) && n <= |actions|
    ensures FailuresOf(states, actions, n, id) == if id in states[n].challenges then states[n].challenges[id].attemptCount else 0
  {
    if n > 0 {
      var s, a := states[n - 1], actions[n - 1];
      AttemptsAreExact(states, actions, n - 1, id);
      RunKeepsInv(states, actions, n - 1);
      assert IsStep(states, actions, n - 1);
      ChallengesGrow(s, a);
      if a.Reject? {
        RejectCounts(s, a.call, a.now);
      } else if id in states[n].challenges {
        OthersCountNothing(s, a, id);
      }
    }
  }

  lemma {:induction false} CountStays(states: seq<State>, actions: seq<Action>, i: nat, j: nat, id: Id)
    requires IsRun(states, actions) && i <= j <= |actions| && id in states[i].challenges
    ensures FailuresOf(states, actions, i, id) <= FailuresOf(states, actions, j, id)
    ensures id in states[j].challenges && states[j].challenges[id].maxAttempts == states[i].challenges[id].maxAttempts
  {
    if i < j {
      CountStays(states, actions, i, j - 1, id);
      assert IsStep(states, actions, j - 1);
      ChallengesGrow(states[j - 1], actions[j - 1]);
    }
  }

  /**
   After `maxAttempts` failed attempts on a challenge, for the rest of the run, nothing opens it and no consume or
   stamp on it wins, whatever the call had loaded before.
   */
  lemma ExhaustedIsClosed(states: seq<State>, actions: seq<Action>, i: nat, j: nat, id: Id)
    requires IsRun(states, actions) && i <= j < |actions| && id in states[i].challenges
    requires FailuresOf(states, actions, i, id) >= states[i].challenges[id].maxAttempts
    ensures actions[j].LoadOpen? && actions[j].id == id ==>
              states[j + 1] == states[j].(calls := states[j].calls[actions[j].call := Ended])
    ensures IsStep(states, actions, j)
    ensures (actions[j].Consume? || actions[j].Stamp?) && states[j].calls[actions[j].call].open.id == id ==>
              states[j + 1] == states[j].(calls := states[j].calls[actions[j].call := Ended])
  {
    CountStays(states, actions, i, j, id);
    AttemptsAreExact(states, actions, j, id);
    RunKeepsInv(states, actions, j);
    assert IsStep(states, actions, j);
    var s, a := states[j], actions[j];
    if a.LoadOpen? {
      OpensIff(s, a.call, a.id, a.now, a.secretOk);
    } else if a.Consume? {
      ConsumesIff(s, a.call, a.now);
    } else if a.Stamp? {
      StampsIff(s, a.call, a.now);
    }
  }
}
