/** What rotation keeps over every interleaving of login, refresh, logout and resets. */
module RefreshProofs {
  import opened Options
  import opened RefreshSessions

  // ---------------------------------------------------------------- one path per session

  /** The tokens of a session in rotation order, each spent one replaced by the next. */
  ghost predicate IsPath(tokens: Tokens, sessionId: Id, path: seq<Id>) {
    && (forall i, j :: 0 <= i < j < |path| ==> path[i] != path[j])
    && (forall i :: 0 <= i < |path| ==> path[i] in tokens && tokens[path[i]].sessionId == sessionId)
    && (forall id :: id in tokens && tokens[id].sessionId == sessionId ==> id in path)
    && (forall i :: 0 <= i < |path| ==> LinkHolds(tokens, path, i))
  }

  ghost predicate LinkHolds(tokens: Tokens, path: seq<Id>, i: nat)
    requires i < |path| && path[i] in tokens
  {
    if i == |path| - 1 then tokens[path[i]].replacedBy == None
    else tokens[path[i]].replacedBy == Some(path[i + 1]) && tokens[path[i]].revokedAt.Some?
  }

  ghost predicate HasPath(tokens: Tokens, sessionId: Id) {
    exists path :: IsPath(tokens, sessionId, path)
  }

  predicate OneUserPerSession(tokens: Tokens) {
    forall a, b :: a in tokens && b in tokens && tokens[a].sessionId == tokens[b].sessionId
        ==> tokens[a].userId == tokens[b].userId
  }

  /** A snapshot agrees with the row on what never changes, and a revocation it saw is still there. */
  predicate SnapshotHolds(tokens: Tokens, id: Id, row: Token) {
    && id in tokens && tokens[id].userId == row.userId && tokens[id].sessionId == row.sessionId
    && (row.revokedAt.Some? ==> tokens[id].revokedAt.Some?)
  }

  predicate CallHolds(tokens: Tokens, call: Call) {
    match call
    case RefreshLoaded(id, row) => SnapshotHolds(tokens, id, row)
    case RefreshLost(id, row) => SnapshotHolds(tokens, id, row) && tokens[id].revokedAt.Some?
    case LogoutLoaded(id, row) => SnapshotHolds(tokens, id, row)
    case Minted(id, newId) =>
      && id in tokens && newId in tokens && tokens[id].replacedBy == Some(newId)
      && tokens[newId].sessionId == tokens[id].sessionId
    case Reused(id, userId) => id in tokens && tokens[id].userId == userId && tokens[id].revokedAt.Some?
    case Finished => true
  }

  ghost predicate Inv(s: State) {
    && (forall sessionId :: HasPath(s.tokens, sessionId))
    && OneUserPerSession(s.tokens)
    && (forall c :: c in s.calls ==> CallHolds(s.tokens, s.calls[c]))
    && DistinctMints(s)
  }

  /** No two calls returned one replacement token. */
  predicate DistinctMints(s: State) {
    forall c, d :: c in s.calls && d in s.calls && c != d && s.calls[c].Minted? && s.calls[d].Minted?
      ==> s.calls[c].newId != s.calls[d].newId
  }

  // ---------------------------------------------------------------- how the table may change

  /** Rows stay, their owner and family stay, and neither a revocation nor a link is ever undone. */
  predicate Grows(t: Tokens, t': Tokens) {
    forall id :: id in t ==> id in t' && RowGrows(t[id], t'[id])
  }

  predicate RowGrows(a: Token, b: Token) {
    && b.userId == a.userId && b.sessionId == a.sessionId
    && (a.revokedAt.Some? ==> b.revokedAt == a.revokedAt)
    && (a.replacedBy.Some? ==> b.replacedBy == a.replacedBy)
  }

  lemma RevokeKeepsPath(t: Tokens, scope: Scope, now: int, sessionId: Id)
    requires HasPath(t, sessionId)
    ensures HasPath(RevokeAll(t, scope, now), sessionId)
  {
    var path :| IsPath(t, sessionId, path);
    var t' := RevokeAll(t, scope, now);
    forall i | 0 <= i < |path| ensures LinkHolds(t', path, i) {
      assert LinkHolds(t, path, i);
    }
    assert IsPath(t', sessionId, path);
  }

  function Rotated(t: Tokens, id: Id, now: int, newId: Id, minted: Token): Tokens
    requires id in t
  {
    t[id := t[id].(revokedAt := Some(now), replacedBy := Some(newId))][newId := minted]
  }

  /** A live token ends its session's path, and rotating it makes the path one longer. */
  lemma RotateExtendsPath(t: Tokens, id: Id, now: int, newId: Id, minted: Token)
    requires id in t && t[id].revokedAt.None? && newId !in t && HasPath(t, t[id].sessionId)
    requires minted.sessionId == t[id].sessionId && minted.replacedBy.None?
    ensures HasPath(Rotated(t, id, now, newId, minted), t[id].sessionId)
  {
    var path :| IsPath(t, t[id].sessionId, path);
    var t' := Rotated(t, id, now, newId, minted);
    var k :| 0 <= k < |path| && path[k] == id;
    assert LinkHolds(t, path, k);
    var path' := path + [newId];
    forall i | 0 <= i < |path'|
      ensures path'[i] in t' && t'[path'[i]].sessionId == t[id].sessionId && LinkHolds(t', path', i)
    {
      if i < |path| {
        assert LinkHolds(t, path, i) && path'[i] == path[i];
      }
    }
    forall x | x in t' && t'[x].sessionId == t[id].sessionId ensures x in path' {
      assert x != newId ==> x in path;
    }
    assert IsPath(t', t[id].sessionId, path');
  }

  lemma OtherPathKept(t: Tokens, id: Id, now: int, newId: Id, minted: Token, sessionId: Id)
    requires id in t && newId !in t && sessionId != t[id].sessionId && minted.sessionId == t[id].sessionId
    requires HasPath(t, sessionId)
    ensures HasPath(Rotated(t, id, now, newId, minted), sessionId)
  {
    var path :| IsPath(t, sessionId, path);
    var t' := Rotated(t, id, now, newId, minted);
    forall i | 0 <= i < |path| ensures path[i] in t' && t'[path[i]] == t[path[i]] && LinkHolds(t', path, i) {
      assert LinkHolds(t, path, i);
    }
    assert IsPath(t', sessionId, path);
  }

  lemma IssueKeepsPaths(t: Tokens, newId: Id, minted: Token, sessionId: Id)
    requires newId !in t && FreshSession(t, minted.sessionId) && minted.replacedBy.None? && HasPath(t, sessionId)
    ensures HasPath(t[newId := minted], sessionId)
  {
    var t' := t[newId := minted];
    if sessionId == minted.sessionId {
      assert LinkHolds(t', [newId], 0);
      assert IsPath(t', sessionId, [newId]);
    } else {
      var path :| IsPath(t, sessionId, path);
      forall i | 0 <= i < |path| ensures path[i] in t' && t'[path[i]] == t[path[i]] && LinkHolds(t', path, i) {
        assert LinkHolds(t, path, i);
      }
      assert IsPath(t', sessionId, path);
    }
  }

  // ---------------------------------------------------------------- every step keeps the invariant

  lemma GrowsKeepsCalls(s: State, t': Tokens)
    requires Grows(s.tokens, t') && forall c :: c in s.calls ==> CallHolds(s.tokens, s.calls[c])
    ensures forall c :: c in s.calls ==> CallHolds(t', s.calls[c])
  {
    forall c | c in s.calls ensures CallHolds(t', s.calls[c]) {
      assert CallHolds(s.tokens, s.calls[c]);
    }
  }

  lemma StepGrows(s: State, a: Action)
    requires Inv(s) && Enabled(s, a)
    ensures Grows(s.tokens, Next(s, a).tokens)
  {
    if a.RefreshRotate? {
      var id := s.calls[a.call].tokenId;
      if s.tokens[id].revokedAt.None? {
        LiveIsLast(s.tokens, id);
      }
    }
  }

  lemma LiveIsLast(t: Tokens, id: Id)
    requires id in t && t[id].revokedAt.None? && HasPath(t, t[id].sessionId)
    ensures t[id].replacedBy.None?
  {
    var path :| IsPath(t, t[id].sessionId, path);
    var k :| 0 <= k < |path| && path[k] == id;
    assert LinkHolds(t, path, k);
  }

  lemma StepKeepsPaths(s: State, a: Action, sessionId: Id)
    requires Inv(s) && Enabled(s, a)
    ensures HasPath(Next(s, a).tokens, sessionId)
  {
    assert HasPath(s.tokens, sessionId);
    match a
    case Issue(userId, newSession, tokenId, expiresAt) =>
      IssueKeepsPaths(s.tokens, tokenId, Token(userId, newSession, expiresAt, None, None), sessionId);
    case RefreshReuse(c, now) => RevokeKeepsPath(s.tokens, OfUser(s.calls[c].row.userId), now, sessionId);
    case RefreshPunish(c, now) => RevokeKeepsPath(s.tokens, OfUser(s.calls[c].row.userId), now, sessionId);
    case LogoutRevoke(c, now, _) => RevokeKeepsPath(s.tokens, OfSession(s.calls[c].row.sessionId), now, sessionId);
    case ResetUser(userId, now) => RevokeKeepsPath(s.tokens, OfUser(userId), now, sessionId);
    case RefreshRotate(c, now, _, newId, expiresAt) =>
      var id, row := s.calls[c].tokenId, s.calls[c].row;
      assert CallHolds(s.tokens, s.calls[c]);
      if s.tokens[id].revokedAt.None? {
        var minted := Token(row.userId, row.sessionId, expiresAt, None, None);
        assert Next(s, a).tokens == Rotated(s.tokens, id, now, newId, minted);
        assert HasPath(s.tokens, s.tokens[id].sessionId);
        if sessionId == s.tokens[id].sessionId {
          RotateExtendsPath(s.tokens, id, now, newId, minted);
        } else {
          OtherPathKept(s.tokens, id, now, newId, minted, sessionId);
        }
      }
    case _ =>
  }

  lemma StepKeepsUsers(s: State, a: Action)
    requires Inv(s) && Enabled(s, a)
    ensures OneUserPerSession(Next(s, a).tokens)
  {
    if a.RefreshRotate? {
      assert CallHolds(s.tokens, s.calls[a.call]);
    }
  }

  lemma StepKeepsCalls(s: State, a: Action)
    requires Inv(s) && Enabled(s, a)
    ensures forall c :: c in Next(s, a).calls ==> CallHolds(Next(s, a).tokens, Next(s, a).calls[c])
  {
    var s' := Next(s, a);
    StepGrows(s, a);
    GrowsKeepsCalls(s, s'.tokens);
    forall c | c in s'.calls ensures CallHolds(s'.tokens, s'.calls[c]) {
      if c in s.calls && s'.calls[c] == s.calls[c] {
        assert CallHolds(s'.tokens, s.calls[c]);
      } else {
        ChangedCallHolds(s, a, c);
      }
    }
  }

  lemma ChangedCallHolds(s: State, a: Action, c: Id)
    requires Inv(s) && Enabled(s, a) && c in Next(s, a).calls
    requires c !in s.calls || Next(s, a).calls[c] != s.calls[c]
    ensures CallHolds(Next(s, a).tokens, Next(s, a).calls[c])
  {
    if c in s.calls {
      assert CallHolds(s.tokens, s.calls[c]);
    }
  }

  lemma StepKeepsMints(s: State, a: Action)
    requires Inv(s) && Enabled(s, a)
    ensures DistinctMints(Next(s, a))
  {
    if a.RefreshRotate? {
      forall c | c in s.calls && s.calls[c].Minted? ensures s.calls[c].newId != a.newId {
        assert CallHolds(s.tokens, s.calls[c]);
      }
    }
  }

  lemma StepKeepsInv(s: State, a: Action)
    requires Inv(s) && Enabled(s, a)
    ensures Inv(Next(s, a))
  {
    forall sessionId ensures HasPath(Next(s, a).tokens, sessionId) {
      StepKeepsPaths(s, a, sessionId);
    }
    StepKeepsUsers(s, a);
    StepKeepsCalls(s, a);
    StepKeepsMints(s, a);
  }

  // ---------------------------------------------------------------- runs

  ghost predicate IsRun(states: seq<State>, actions: seq<Action>) {
    && |states| == |actions| + 1 && states[0] == INITIAL
    && forall i :: 0 <= i < |actions| ==> Enabled(states[i], actions[i]) && states[i + 1] == Next(states[i], actions[i])
  }

  lemma {:induction false} RunKeepsInv(states: seq<State>, actions: seq<Action>, n: nat)
    requires IsRun(states, actions) && n <= |actions|
    ensures Inv(states[n])
  {
    if n == 0 {
      forall sessionId ensures HasPath(INITIAL.tokens, sessionId) {
        assert IsPath(INITIAL.tokens, sessionId, []);
      }
    } else {
      RunKeepsInv(states, actions, n - 1);
      StepKeepsInv(states[n - 1], actions[n - 1]);
    }
  }

  /** In every reachable state each session's tokens form one acyclic replacement path with at most its end live. */
  lemma SessionIsOnePath(states: seq<State>, actions: seq<Action>, n: nat, sessionId: Id) returns (path: seq<Id>)
    requires IsRun(states, actions) && n <= |actions|
    ensures IsPath(states[n].tokens, sessionId, path)
    ensures forall i :: 0 <= i < |path| && states[n].tokens[path[i]].revokedAt.None? ==> i == |path| - 1
  {
    RunKeepsInv(states, actions, n);
    assert HasPath(states[n].tokens, sessionId);
    path :| IsPath(states[n].tokens, sessionId, path);
    forall i | 0 <= i < |path| && states[n].tokens[path[i]].revokedAt.None? ensures i == |path| - 1 {
      assert LinkHolds(states[n].tokens, path, i);
    }
  }

  /** Known at this point, with every token of it revoked. */
  predicate DeadSession(tokens: Tokens, sessionId: Id) {
    && (exists id :: id in tokens && tokens[id].sessionId == sessionId)
    && (forall id :: id in tokens && tokens[id].sessionId == sessionId ==> tokens[id].revokedAt.Some?)
  }

  lemma StepKeepsDead(s: State, a: Action, sessionId: Id)
    requires Inv(s) && Enabled(s, a) && DeadSession(s.tokens, sessionId)
    ensures DeadSession(Next(s, a).tokens, sessionId)
  {
    var s' := Next(s, a);
    StepGrows(s, a);
    var known :| known in s.tokens && s.tokens[known].sessionId == sessionId;
    assert known in s'.tokens && s'.tokens[known].sessionId == sessionId;
    forall id | id in s'.tokens && s'.tokens[id].sessionId == sessionId ensures s'.tokens[id].revokedAt.Some? {
      if id in s.tokens {
        assert RowGrows(s.tokens[id], s'.tokens[id]);
      } else if a.RefreshRotate? {
        assert CallHolds(s.tokens, s.calls[a.call]);
      }
    }
  }

  /** A session with no live token never regains one. */
  lemma {:induction false} DeadStaysDead(states: seq<State>, actions: seq<Action>, i: nat, j: nat, sessionId: Id)
    requires IsRun(states, actions) && i <= j <= |actions| && DeadSession(states[i].tokens, sessionId)
    ensures DeadSession(states[j].tokens, sessionId)
  {
    if i < j {
      DeadStaysDead(states, actions, i, j - 1, sessionId);
      RunKeepsInv(states, actions, j - 1);
      StepKeepsDead(states[j - 1], actions[j - 1], sessionId);
    }
  }

  /** A winning rotation moves the session's one live token: afterwards exactly the replacement is live. */
  lemma RotationMovesLiveToken(s: State, a: Action)
    requires Inv(s) && Enabled(s, a) && a.RefreshRotate? && s.tokens[s.calls[a.call].tokenId].revokedAt.None?
    ensures var s' := Next(s, a); var id := s.calls[a.call].tokenId;
            s'.calls[a.call] == Minted(id, a.newId) &&
            forall x :: x in s'.tokens && s'.tokens[x].sessionId == s.tokens[id].sessionId ==>
              (s'.tokens[x].revokedAt.None? <==> x == a.newId)
  {
    var id := s.calls[a.call].tokenId;
    assert CallHolds(s.tokens, s.calls[a.call]);
    assert HasPath(s.tokens, s.tokens[id].sessionId);
    forall x | x in s.tokens && s.tokens[x].sessionId == s.tokens[id].sessionId && s.tokens[x].revokedAt.None?
      ensures x == id
    {
      OneLiveToken(s.tokens, x, id);
    }
  }

  lemma OneLiveToken(t: Tokens, x: Id, y: Id)
    requires x in t && y in t && t[x].sessionId == t[y].sessionId && HasPath(t, t[x].sessionId)
    requires t[x].revokedAt.None? && t[y].revokedAt.None?
    ensures x == y
  {
    var path :| IsPath(t, t[x].sessionId, path);
    var i :| 0 <= i < |path| && path[i] == x;
    var j :| 0 <= j < |path| && path[j] == y;
    assert LinkHolds(t, path, i) && LinkHolds(t, path, j);
  }

  /** Of all calls that present one token, at most one ever mints a replacement. */
  lemma OneWinner(states: seq<State>, actions: seq<Action>, n: nat, c: Id, d: Id)
    requires IsRun(states, actions) && n <= |actions| && c in states[n].calls && d in states[n].calls
    requires states[n].calls[c].Minted? && states[n].calls[d].Minted?
    requires states[n].calls[c].tokenId == states[n].calls[d].tokenId
    ensures c == d
  {
    RunKeepsInv(states, actions, n);
    assert CallHolds(states[n].tokens, states[n].calls[c]) && CallHolds(states[n].tokens, states[n].calls[d]);
  }

  /** The step at which `call` revokes the user's tokens and is about to answer TokenReused. */
  predicate AnswersReuse(a: Action, call: Id) {
    (a.RefreshReuse? || a.RefreshPunish?) && a.call == call
  }

  /**
   Once a call answers TokenReused, every session its user had at that step, the presented token's own and
   so any replacement the winner minted included, is dead for the rest of the run.
   */
  lemma ReuseKillsSessions(states: seq<State>, actions: seq<Action>, i: nat, j: nat, call: Id, sessionId: Id)
    requires IsRun(states, actions) && i < j <= |actions| && AnswersReuse(actions[i], call)
    requires exists id :: id in states[i].tokens && states[i].tokens[id].sessionId == sessionId &&
               states[i].tokens[id].userId == states[i].calls[call].row.userId
    ensures states[i + 1].calls[call] == Reused(states[i].calls[call].tokenId, states[i].calls[call].row.userId)
    ensures DeadSession(states[j].tokens, sessionId)
  {
    RunKeepsInv(states, actions, i);
    var s, s' := states[i], states[i + 1];
    var userId := s.calls[call].row.userId;
    var known :| known in s.tokens && s.tokens[known].sessionId == sessionId && s.tokens[known].userId == userId;
    assert s'.tokens == RevokeAll(s.tokens, OfUser(userId), actions[i].now);
    assert known in s'.tokens;
    forall id | id in s'.tokens && s'.tokens[id].sessionId == sessionId ensures s'.tokens[id].revokedAt.Some? {
      assert s.tokens[id].userId == userId;
    }
    DeadStaysDead(states, actions, i + 1, j, sessionId);
  }

  /** In particular the replacement another call got for the same presented token is dead. */
  lemma ReuseKillsWinner(states: seq<State>, actions: seq<Action>, i: nat, j: nat, call: Id, winner: Id)
    requires IsRun(states, actions) && i < j <= |actions| && AnswersReuse(actions[i], call)
    requires winner in states[i].calls && states[i].calls[winner].Minted?
    requires states[i].calls[winner].tokenId == states[i].calls[call].tokenId
    ensures var newId := states[i].calls[winner].newId;
            newId in states[j].tokens && states[j].tokens[newId].revokedAt.Some?
  {
    RunKeepsInv(states, actions, i);
    var s := states[i];
    var newId := s.calls[winner].newId;
    assert CallHolds(s.tokens, s.calls[winner]) && CallHolds(s.tokens, s.calls[call]);
    assert s.tokens[newId].userId == s.calls[call].row.userId;
    ReuseKillsSessions(states, actions, i, j, call, s.tokens[newId].sessionId);
    TokensStay(states, actions, i, j, newId);
  }

  lemma {:induction false} TokensStay(states: seq<State>, actions: seq<Action>, i: nat, j: nat, id: Id)
    requires IsRun(states, actions) && i <= j <= |actions| && id in states[i].tokens
    ensures id in states[j].tokens && RowGrows(states[i].tokens[id], states[j].tokens[id])
  {
    if i < j {
      TokensStay(states, actions, i, j - 1, id);
      RunKeepsInv(states, actions, j - 1);
      StepGrows(states[j - 1], actions[j - 1]);
    }
  }

  // ---------------------------------------------------------------- what each step does to whom

  /** Exactly the live tokens of the scope are revoked, at `now`; every other row stays as it is. */
  predicate RevokesExactly(t: Tokens, t': Tokens, inScope: Token -> bool, now: int) {
    && t'.Keys == t.Keys
    && forall id :: id in t ==>
         if inScope(t[id]) && t[id].revokedAt.None? then t'[id] == t[id].(revokedAt := Some(now)) else t'[id] == t[id]
  }

  /** A logout with the right secret revokes the family of the presented token and nothing else. */
  lemma LogoutRevokesFamily(s: State, c: Id, now: int)
    requires Inv(s) && Enabled(s, LogoutRevoke(c, now, true))
    ensures s.calls[c].tokenId in s.tokens
    ensures var family := s.tokens[s.calls[c].tokenId].sessionId;
            RevokesExactly(s.tokens, Next(s, LogoutRevoke(c, now, true)).tokens, (t: Token) => t.sessionId == family, now)
  {
    assert CallHolds(s.tokens, s.calls[c]);
  }

  /** With a wrong secret, whoever knows the id changes no token. */
  lemma LogoutNeedsSecret(s: State, c: Id, now: int)
    requires Enabled(s, LogoutRevoke(c, now, false))
    ensures Next(s, LogoutRevoke(c, now, false)).tokens == s.tokens
  {
  }

  /** After a logout with the right secret the session is dead for the rest of the run. */
  lemma LogoutEndsSession(states: seq<State>, actions: seq<Action>, i: nat, j: nat, c: Id, now: int)
    requires IsRun(states, actions) && i < j <= |actions| && actions[i] == LogoutRevoke(c, now, true)
    ensures states[i].calls[c].tokenId in states[i].tokens
    ensures DeadSession(states[j].tokens, states[i].tokens[states[i].calls[c].tokenId].sessionId)
  {
    RunKeepsInv(states, actions, i);
    LogoutRevokesFamily(states[i], c, now);
    var id := states[i].calls[c].tokenId;
    assert id in states[i + 1].tokens;
    DeadStaysDead(states, actions, i + 1, j, states[i].tokens[id].sessionId);
  }

  /** A reset revokes the tokens of its user and nothing else. */
  lemma ResetRevokesUser(s: State, userId: Id, now: int)
    ensures RevokesExactly(s.tokens, Next(s, ResetUser(userId, now)).tokens, (t: Token) => t.userId == userId, now)
  {
  }

  /** After it every session the user had is dead for the rest of the run. */
  lemma ResetEndsSessions(states: seq<State>, actions: seq<Action>, i: nat, j: nat, userId: Id, now: int, known: Id)
    requires IsRun(states, actions) && i < j <= |actions| && actions[i] == ResetUser(userId, now)
    requires known in states[i].tokens && states[i].tokens[known].userId == userId
    ensures DeadSession(states[j].tokens, states[i].tokens[known].sessionId)
  {
    RunKeepsInv(states, actions, i);
    var s, s' := states[i], states[i + 1];
    var sessionId := s.tokens[known].sessionId;
    ResetRevokesUser(s, userId, now);
    assert known in s'.tokens;
    forall id | id in s'.tokens && s'.tokens[id].sessionId == sessionId ensures s'.tokens[id].revokedAt.Some? {
      assert s.tokens[id].userId == userId;
    }
    DeadStaysDead(states, actions, i + 1, j, sessionId);
  }

  /** Reuse, seen at the read or lost at the write, revokes the tokens of the presented token's user and nothing else. */
  lemma ReuseRevokesUser(s: State, a: Action)
    requires Inv(s) && Enabled(s, a) && (a.RefreshReuse? || a.RefreshPunish?)
    ensures s.calls[a.call].tokenId in s.tokens
    ensures var victim := s.tokens[s.calls[a.call].tokenId].userId;
            RevokesExactly(s.tokens, Next(s, a).tokens, (t: Token) => t.userId == victim, a.now)
  {
    assert CallHolds(s.tokens, s.calls[a.call]);
  }

  /** A refresh or logout begins with the row of the presented id, or ends when there is none. */
  lemma ReadsTheRow(s: State, c: Id, id: Id)
    requires c !in s.calls
    ensures var loaded, leaving := Next(s, RefreshRead(c, id)), Next(s, LogoutRead(c, id));
            && loaded.tokens == leaving.tokens == s.tokens
            && loaded.calls[c] == (if id in s.tokens then RefreshLoaded(id, s.tokens[id]) else Finished)
            && leaving.calls[c] == (if id in s.tokens then LogoutLoaded(id, s.tokens[id]) else Finished)
  {
  }

  /**
   What a refresh comes to, from the row it read: reuse if that was revoked; nothing if it has expired or the secret
   is wrong; otherwise a rotation.
   */
  lemma RefreshGoesOn(s: State, c: Id, now: int, secretOk: bool, newId: Id, expiresAt: int)
    requires Inv(s) && c in s.calls && s.calls[c].RefreshLoaded? && newId !in s.tokens
    ensures var row := s.calls[c].row;
            && (Enabled(s, RefreshReuse(c, now)) <==> row.revokedAt.Some?)
            && (Enabled(s, RefreshReject(c, now, secretOk)) <==> row.revokedAt.None? && (row.expiresAt <= now || !secretOk))
            && (Enabled(s, RefreshRotate(c, now, secretOk, newId, expiresAt))
                <==> row.revokedAt.None? && row.expiresAt > now && secretOk)
    ensures Enabled(s, RefreshReject(c, now, secretOk)) ==>
              Next(s, RefreshReject(c, now, secretOk)).tokens == s.tokens
              && Next(s, RefreshReject(c, now, secretOk)).calls[c] == Finished
  {
    assert CallHolds(s.tokens, s.calls[c]);
  }

  /**
   A rotation replaces the presented token if it is live, with a live token of the same user and session and the
   new expiry, and changes nothing if it is not.
   */
  lemma RotationIff(s: State, c: Id, now: int, newId: Id, expiresAt: int)
    requires Inv(s) && Enabled(s, RefreshRotate(c, now, true, newId, expiresAt))
    ensures var s', id := Next(s, RefreshRotate(c, now, true, newId, expiresAt)), s.calls[c].tokenId; var row := s.tokens[id];
            if row.revokedAt.None? then
              && s'.calls[c] == Minted(id, newId)
              && s'.tokens == s.tokens[id := Token(row.userId, row.sessionId, row.expiresAt, Some(now), Some(newId))]
                                      [newId := Token(row.userId, row.sessionId, expiresAt, None, None)]
            else s'.calls[c] == RefreshLost(id, s.calls[c].row) && s'.tokens == s.tokens
  {
    assert CallHolds(s.tokens, s.calls[c]);
  }

  /** A login adds one live token in a session of its own. */
  lemma LoginAddsOne(s: State, userId: Id, sessionId: Id, tokenId: Id, expiresAt: int)
    requires Enabled(s, Issue(userId, sessionId, tokenId, expiresAt))
    ensures var t := Next(s, Issue(userId, sessionId, tokenId, expiresAt)).tokens;
            && t.Keys == s.tokens.Keys + {tokenId} && t[tokenId] == Token(userId, sessionId, expiresAt, None, None)
            && forall id :: id in s.tokens ==> t[id] == s.tokens[id] && t[id].sessionId != sessionId
  {
  }
}
