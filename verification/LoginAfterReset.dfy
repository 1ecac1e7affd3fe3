/**
 Logins around a reset. A password reset, or an administrator's reset of MFA, revokes the sessions and consumes
 the login challenges of its user in one transaction; a login consumes its challenge in one statement and issues
 its session in a later one. This says exactly which logins still get a live session after the reset.
 */
module LoginAfterReset {
  import opened Options
  import opened MfaLogin
  import opened MfaLoginProofs
  import MfaFloor

  /** A login that had not won its challenge when all challenges of the user were closed never wins it. */
  lemma {:induction false} ClosedStaysClosed(states: seq<State>, actions: seq<Action>, m: nat, n: nat, c: Id)
    requires IsRun(states, actions) && m <= n <= |actions|
    requires c in states[n].calls && HasChallenge(states[n].calls[c]) && states[n].calls[c].open.purpose == Login
    requires var id := states[n].calls[c].open.id; id in states[m].challenges && states[m].challenges[id].consumed
    ensures c in states[m].calls && HasChallenge(states[m].calls[c]) && states[m].calls[c].open == states[n].calls[c].open
    decreases n
  {
    if m < n {
      var id := states[n].calls[c].open.id;
      var s, a := states[n - 1], actions[n - 1];
      RunKeepsInv(states, actions, n - 1);
      assert IsStep(states, actions, n - 1);
      ConsumedStays(states, actions, m, n - 1, id);
      OneCallMoves(s, a);
      if HasCall(a) && a.call == c {
        MovedChallenge(s, a);
        assert CallHolds(s, s.calls[c]);
      }
      ClosedStaysClosed(states, actions, m, n - 1, c);
    }
  }

  lemma {:induction false} ConsumedStays(states: seq<State>, actions: seq<Action>, m: nat, n: nat, id: Id)
    requires IsRun(states, actions) && m <= n <= |actions| && id in states[m].challenges && states[m].challenges[id].consumed
    ensures id in states[n].challenges && states[n].challenges[id].consumed
  {
    if m < n {
      ConsumedStays(states, actions, m, n - 1, id);
      assert IsStep(states, actions, n - 1);
      ChallengesGrow(states[n - 1], actions[n - 1]);
    }
  }

  predicate NoneLive(s: State, u: Id) {
    forall id :: id in s.sessions && s.sessions[id].userId == u ==> !s.sessions[id].live
  }

  predicate Resets(a: Action, u: Id) {
    a == RevokeTrust(u) || a == AdminReset(u)
  }

  predicate IsLoginOf(row: Challenge, u: Id) {
    row.userId == u && row.purpose == Login
  }

  /** After a reset no session of the user is live. */
  lemma ResetRevokes(states: seq<State>, actions: seq<Action>, m: nat, u: Id)
    requires IsRun(states, actions) && m < |actions| && Resets(actions[m], u)
    ensures states[m + 1].calls == states[m].calls && states[m + 1].challenges.Keys == states[m].challenges.Keys
    ensures NoneLive(states[m + 1], u)
    ensures forall id :: id in states[m].challenges && IsLoginOf(states[m].challenges[id], u)
              ==> states[m + 1].challenges[id].consumed
  {
    assert IsStep(states, actions, m);
  }

  predicate Gets(s: State, c: Id, session: Id) {
    c in s.calls && s.calls[c].Issued? && s.calls[c].sessionId == session
  }

  lemma SessionsOtherwise(s: State, a: Action, session: Id)
    requires Enabled(s, a) && session in Next(s, a).sessions && Next(s, a).sessions[session].live
    ensures (session in s.sessions && s.sessions[session] == Next(s, a).sessions[session])
         || (a.IssueSession? && a.sessionId == session && s.calls[a.call].open.userId == Next(s, a).sessions[session].userId)
  {
  }

  lemma IssuedStays(s: State, a: Action, c: Id)
    requires Enabled(s, a) && c in s.calls && s.calls[c].Issued?
    ensures c in Next(s, a).calls && Next(s, a).calls[c] == s.calls[c]
  {
    OneCallMoves(s, a);
  }

  /** A session that is live although none of the user's was, was issued since. */
  lemma {:induction false} LiveWasIssued(states: seq<State>, actions: seq<Action>, m: nat, n: nat, session: Id)
    returns (c: Id, k: nat)
    requires IsRun(states, actions) && m <= n <= |actions|
    requires session in states[n].sessions && states[n].sessions[session].live
    requires session in states[m].sessions ==> !states[m].sessions[session].live
    ensures m <= k < n && actions[k] == IssueSession(c, session) && Gets(states[n], c, session)
    ensures states[n].calls[c].open.userId == states[n].sessions[session].userId
    ensures c in states[k].calls && states[k].calls[c].ChallengeWon? && states[k].calls[c].open == states[n].calls[c].open
    decreases n
  {
    assert m < n;
    var s, a := states[n - 1], actions[n - 1];
    assert IsStep(states, actions, n - 1);
    SessionsOtherwise(s, a, session);
    if session in s.sessions && s.sessions[session] == states[n].sessions[session] {
      c, k := LiveWasIssued(states, actions, m, n - 1, session);
      IssuedStays(s, a, c);
    } else {
      c, k := a.call, n - 1;
    }
  }

  /**
   A session of the user that is live after a reset belongs to a login whose challenge was created after it, or
   to one that had already consumed its challenge, but not yet issued its session, when the reset came.
   */
  lemma LiveAfterReset(states: seq<State>, actions: seq<Action>, m: nat, n: nat, u: Id, session: Id) returns (c: Id)
    requires IsRun(states, actions) && m < n <= |actions| && Resets(actions[m], u)
    requires session in states[n].sessions && states[n].sessions[session] == Session(u, true)
    ensures Gets(states[n], c, session) && states[n].calls[c].open.userId == u
    ensures states[n].calls[c].open.id !in states[m].challenges || (c in states[m].calls && states[m].calls[c].ChallengeWon?)
  {
    var k;
    ResetRevokes(states, actions, m, u);
    if session in states[m + 1].sessions {
      SessionKeepsUser(states, actions, m + 1, n, session);
    }
    c, k := LiveWasIssued(states, actions, m + 1, n, session);
    var id := states[n].calls[c].open.id;
    if id in states[m].challenges {
      RunKeepsInv(states, actions, k);
      assert CallHolds(states[k], states[k].calls[c]);
      ChallengeKeepsOwner(states, actions, m, k, id);
      ClosedStaysClosed(states, actions, m + 1, k, c);
      NotIssuedBefore(states, actions, m, k, c);
      RunKeepsInv(states, actions, m);
      assert CallHolds(states[m], states[m].calls[c]);
    }
  }

  lemma {:induction false} SessionKeepsUser(states: seq<State>, actions: seq<Action>, m: nat, n: nat, session: Id)
    requires IsRun(states, actions) && m <= n <= |actions| && session in states[m].sessions
    ensures session in states[n].sessions && states[n].sessions[session].userId == states[m].sessions[session].userId
  {
    if m < n {
      SessionKeepsUser(states, actions, m, n - 1, session);
      assert IsStep(states, actions, n - 1);
      SessionsGrow(states[n - 1], actions[n - 1]);
    }
  }

  lemma {:induction false} ChallengeKeepsOwner(states: seq<State>, actions: seq<Action>, m: nat, n: nat, id: Id)
    requires IsRun(states, actions) && m <= n <= |actions| && id in states[m].challenges
    ensures id in states[n].challenges && states[n].challenges[id].userId == states[m].challenges[id].userId
    ensures states[n].challenges[id].purpose == states[m].challenges[id].purpose
  {
    if m < n {
      ChallengeKeepsOwner(states, actions, m, n - 1, id);
      assert IsStep(states, actions, n - 1);
      ChallengesGrow(states[n - 1], actions[n - 1]);
    }
  }

  /** An issued call stays issued, so one that is still waiting was not issued before. */
  lemma {:induction false} NotIssuedBefore(states: seq<State>, actions: seq<Action>, m: nat, n: nat, c: Id)
    requires IsRun(states, actions) && m <= n <= |actions| && c in states[n].calls && !states[n].calls[c].Issued?
    ensures c in states[m].calls ==> !states[m].calls[c].Issued?
    decreases n - m
  {
    if m < n && c in states[m].calls && states[m].calls[c].Issued? {
      assert IsStep(states, actions, m);
      IssuedStays(states[m], actions[m], c);
      NotIssuedBefore(states, actions, m + 1, n, c);
    }
  }

  // ---------------------------------------------------------------- exactly when

  /** The run goes on so that the call has a live session. */
  ghost predicate GetsLiveSession(states: seq<State>, actions: seq<Action>, longer: seq<State>, more: seq<Action>, c: Id) {
    && IsRun(longer, more) && actions <= more && states <= longer
    && var s := longer[|more|];
    c in s.calls && s.calls[c].Issued? && s.calls[c].sessionId in s.sessions && s.sessions[s.calls[c].sessionId].live
  }

  /**
   A login under way when a reset revokes the trust of its user can still get a live session exactly when it has
   won its challenge by then.
   */
  lemma SurvivesResetIff(states: seq<State>, actions: seq<Action>, u: Id, c: Id)
    requires IsRun(states, actions) && actions != [] && Resets(actions[|actions| - 1], u)
    requires var s := states[|actions|];
             c in s.calls && HasOpen(s.calls[c]) && s.calls[c].open.purpose == Login && s.calls[c].open.userId == u
    ensures (exists longer, more :: GetsLiveSession(states, actions, longer, more, c))
       <==> states[|actions|].calls[c].ChallengeWon?
  {
    var n := |actions|;
    var s := states[n];
    ResetRevokes(states, actions, n - 1, u);
    RunKeepsInv(states, actions, n);
    assert CallHolds(s, s.calls[c]);
    if s.calls[c].ChallengeWon? {
      var session := MfaFloor.Bounded(s.sessions.Keys);
      var longer, more := MfaFloor.Step(states, actions, IssueSession(c, session));
      assert GetsLiveSession(states, actions, longer, more, c);
    }
    if longer, more :| GetsLiveSession(states, actions, longer, more, c) {
      OnlyWonGets(states, actions, longer, more, u, c);
    }
  }

  lemma OnlyWonGets(states: seq<State>, actions: seq<Action>, longer: seq<State>, more: seq<Action>, u: Id, c: Id)
    requires IsRun(states, actions) && actions != [] && Resets(actions[|actions| - 1], u)
    requires GetsLiveSession(states, actions, longer, more, c)
    requires var s := states[|actions|];
             && c in s.calls && HasOpen(s.calls[c]) && s.calls[c].open.userId == u && CallHolds(s, s.calls[c])
    ensures states[|actions|].calls[c].ChallengeWon?
  {
    var m := |actions| - 1;
    var session := longer[|more|].calls[c].sessionId;
    assert longer[m] == states[m] && longer[m + 1] == states[m + 1] && more[m] == actions[m];
    ResetRevokes(states, actions, m, u);
    CallKeepsChallenge(longer, more, m + 1, |more|, c);
    RunKeepsInv(longer, more, |more|);
    assert CallHolds(longer[|more|], longer[|more|].calls[c]);
    var d := LiveAfterReset(longer, more, m, |more|, u, session);
    OneCallPerSession(longer[|more|], c, d);
  }

  lemma OneCallPerSession(s: State, c: Id, d: Id)
    requires Inv(s) && c in s.calls && s.calls[c].Issued? && Gets(s, d, s.calls[c].sessionId)
    ensures c == d
  {
  }

  lemma {:induction false} CallKeepsChallenge(states: seq<State>, actions: seq<Action>, m: nat, n: nat, c: Id)
    requires IsRun(states, actions) && m <= n <= |actions|
    requires c in states[m].calls && HasOpen(states[m].calls[c]) && c in states[n].calls && HasOpen(states[n].calls[c])
    ensures states[n].calls[c].open == states[m].calls[c].open
    decreases n - m
  {
    if m < n {
      assert IsStep(states, actions, m);
      CallMovesOn(states, actions, m, n, c);
      CallKeepsChallenge(states, actions, m + 1, n, c);
    }
  }

  lemma CallMovesOn(states: seq<State>, actions: seq<Action>, m: nat, n: nat, c: Id)
    requires IsRun(states, actions) && m < n <= |actions| && c in states[m].calls && HasOpen(states[m].calls[c])
    requires c in states[n].calls && HasOpen(states[n].calls[c])
    ensures c in states[m + 1].calls && HasOpen(states[m + 1].calls[c])
    ensures states[m + 1].calls[c].open == states[m].calls[c].open
  {
    assert IsStep(states, actions, m);
    StepKeepsChallenge(states[m], actions[m], c);
    if states[m + 1].calls[c].Ended? {
      EndedStays(states, actions, m + 1, n, c);
    }
  }

  lemma StepKeepsChallenge(s: State, a: Action, c: Id)
    requires Enabled(s, a) && c in s.calls && HasOpen(s.calls[c])
    ensures c in Next(s, a).calls
    ensures Next(s, a).calls[c].Ended? || (HasOpen(Next(s, a).calls[c]) && Next(s, a).calls[c].open == s.calls[c].open)
  {
    OneCallMoves(s, a);
  }

  lemma {:induction false} EndedStays(states: seq<State>, actions: seq<Action>, m: nat, n: nat, c: Id)
    requires IsRun(states, actions) && m <= n <= |actions| && c in states[m].calls && states[m].calls[c].Ended?
    ensures c in states[n].calls && states[n].calls[c].Ended?
    decreases n - m
  {
    if m < n {
      assert IsStep(states, actions, m);
      OneCallMoves(states[m], actions[m]);
      EndedStays(states, actions, m + 1, n, c);
    }
  }
}
