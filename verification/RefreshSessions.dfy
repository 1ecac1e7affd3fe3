/**
 Refresh-token rotation. Each database statement (or transaction) is one atomic step; a call keeps the
 row it read as its snapshot, so any number of `refresh`, `logout` and reset calls may interleave.
 */
module RefreshSessions {
  import opened Options

  type Id = nat

  datatype Token = Token(userId: Id, sessionId: Id, expiresAt: int, revokedAt: Option<int>, replacedBy: Option<Id>)

  type Tokens = map<Id, Token>

  /** Where a call stands; the last three are its outcomes. */
  datatype Call =
    | RefreshLoaded(tokenId: Id, row: Token)
    | RefreshLost(tokenId: Id, row: Token)
    | LogoutLoaded(tokenId: Id, row: Token)
    | Minted(tokenId: Id, newId: Id)
    | Reused(tokenId: Id, userId: Id)
    | Finished

  datatype State = State(tokens: Tokens, calls: map<Id, Call>)

  const INITIAL := State(map[], map[])

  datatype Scope = OfUser(userId: Id) | OfSession(sessionId: Id)

  predicate InScope(t: Token, scope: Scope) {
    match scope
    case OfUser(u) => t.userId == u
    case OfSession(s) => t.sessionId == s
  }

  /** `updateMany` where the scope matches and `revokedAt` is null. */
  function RevokeAll(tokens: Tokens, scope: Scope, now: int): (r: Tokens)
    ensures r.Keys == tokens.Keys
  {
    map id | id in tokens ::
      if InScope(tokens[id], scope) && tokens[id].revokedAt.None? then tokens[id].(revokedAt := Some(now)) else tokens[id]
  }

  datatype Action =
    | Issue(userId: Id, sessionId: Id, tokenId: Id, expiresAt: int)
    | RefreshRead(call: Id, tokenId: Id)
    | RefreshReject(call: Id, now: int, secretOk: bool)
    | RefreshReuse(call: Id, now: int)
    | RefreshRotate(call: Id, now: int, secretOk: bool, newId: Id, expiresAt: int)
    | RefreshPunish(call: Id, now: int)
    | LogoutRead(call: Id, tokenId: Id)
    | LogoutRevoke(call: Id, now: int, secretOk: bool)
    | ResetUser(userId: Id, now: int)

  predicate FreshSession(tokens: Tokens, sessionId: Id) {
    forall id :: id in tokens ==> tokens[id].sessionId != sessionId
  }

  predicate Enabled(s: State, a: Action) {
    match a
    case Issue(_, sessionId, tokenId, _) => tokenId !in s.tokens && FreshSession(s.tokens, sessionId)
    case RefreshRead(c, _) => c !in s.calls
    // A row seen revoked is reuse before its expiry or the secret is looked at.
    case RefreshReuse(c, _) => c in s.calls && s.calls[c].RefreshLoaded? && s.calls[c].row.revokedAt.Some?
    case RefreshReject(c, now, secretOk) =>
      && c in s.calls && s.calls[c].RefreshLoaded? && s.calls[c].row.revokedAt.None?
      && (s.calls[c].row.expiresAt <= now || !secretOk)
    case RefreshRotate(c, now, secretOk, newId, _) =>
      && c in s.calls && s.calls[c].RefreshLoaded? && s.calls[c].row.revokedAt.None?
      && s.calls[c].row.expiresAt > now && secretOk && newId !in s.tokens && s.calls[c].tokenId in s.tokens
    case RefreshPunish(c, _) => c in s.calls && s.calls[c].RefreshLost?
    case LogoutRead(c, _) => c !in s.calls
    case LogoutRevoke(c, _, _) => c in s.calls && s.calls[c].LogoutLoaded?
    case ResetUser(_, _) => true
  }

  function Next(s: State, a: Action): State
    requires Enabled(s, a)
  {
    match a
    case Issue(userId, sessionId, tokenId, expiresAt) =>
      s.(tokens := s.tokens[tokenId := Token(userId, sessionId, expiresAt, None, None)])
    case RefreshRead(c, tokenId) =>
      s.(calls := s.calls[c := if tokenId in s.tokens then RefreshLoaded(tokenId, s.tokens[tokenId]) else Finished])
    case RefreshReuse(c, now) =>
      var row := s.calls[c].row;
      State(RevokeAll(s.tokens, OfUser(row.userId), now), s.calls[c := Reused(s.calls[c].tokenId, row.userId)])
    case RefreshReject(c, _, _) => s.(calls := s.calls[c := Finished])
    case RefreshRotate(c, now, _, newId, expiresAt) =>
      var id, row := s.calls[c].tokenId, s.calls[c].row;
      if s.tokens[id].revokedAt.None? then
        State(s.tokens[id := s.tokens[id].(revokedAt := Some(now), replacedBy := Some(newId))]
                      [newId := Token(row.userId, row.sessionId, expiresAt, None, None)],
              s.calls[c := Minted(id, newId)])
      else s.(calls := s.calls[c := RefreshLost(id, row)])
    case RefreshPunish(c, now) =>
      var row := s.calls[c].row;
      State(RevokeAll(s.tokens, OfUser(row.userId), now), s.calls[c := Reused(s.calls[c].tokenId, row.userId)])
    case LogoutRead(c, tokenId) =>
      s.(calls := s.calls[c := if tokenId in s.tokens then LogoutLoaded(tokenId, s.tokens[tokenId]) else Finished])
    case LogoutRevoke(c, now, secretOk) =>
      State(if secretOk then RevokeAll(s.tokens, OfSession(s.calls[c].row.sessionId), now) else s.tokens,
            s.calls[c := Finished])
    case ResetUser(userId, now) => s.(tokens := RevokeAll(s.tokens, OfUser(userId), now))
  }

  class AuthService {
    var tokens: Tokens
    var calls: map<Id, Call>

    ghost function Snapshot(): State reads this { State(tokens, calls) }

    constructor ()
      ensures Snapshot() == INITIAL
    {
      tokens, calls := map[], map[];
    }

    /** `issueSession`: one new token in a new session. */
    method IssueSession(userId: Id, sessionId: Id, tokenId: Id, expiresAt: int)
      requires Enabled(Snapshot(), Issue(userId, sessionId, tokenId, expiresAt))
      modifies this
      ensures Snapshot() == Next(old(Snapshot()), Issue(userId, sessionId, tokenId, expiresAt))
    {
      tokens := tokens[tokenId := Token(userId, sessionId, expiresAt, None, None)];
    }

    /** `refresh`: the `findUnique` of the presented id. */
    method FindForRefresh(call: Id, tokenId: Id)
      requires Enabled(Snapshot(), RefreshRead(call, tokenId))
      modifies this
      ensures Snapshot() == Next(old(Snapshot()), RefreshRead(call, tokenId))
    {
      if tokenId in tokens {
        calls := calls[call := RefreshLoaded(tokenId, tokens[tokenId])];
      } else {
        calls := calls[call := Finished];
      }
    }

    /** `refresh` from its checks to its next database write, on the row read before. */
    method ContinueRefresh(call: Id, now: int, secretOk: bool, newId: Id, expiresAt: int)
      requires call in calls && calls[call].RefreshLoaded? && calls[call].tokenId in tokens && newId !in tokens
      modifies this
      ensures old(calls[call].row.revokedAt.Some?) ==>
                Snapshot() == Next(old(Snapshot()), RefreshReuse(call, now))
      ensures old(calls[call].row.revokedAt.None? && (calls[call].row.expiresAt <= now || !secretOk)) ==>
                Snapshot() == Next(old(Snapshot()), RefreshReject(call, now, secretOk))
      ensures old(calls[call].row.revokedAt.None? && calls[call].row.expiresAt > now && secretOk) ==>
                Snapshot() == Next(old(Snapshot()), RefreshRotate(call, now, secretOk, newId, expiresAt))
    {
      var tokenId, row := calls[call].tokenId, calls[call].row;
      if row.revokedAt.Some? {
        RevokeMany(OfUser(row.userId), now);
        calls := calls[call := Reused(tokenId, row.userId)];
        return;
      }
      if row.expiresAt <= now || !secretOk {
        calls := calls[call := Finished];
        return;
      }
      var rotated := Rotate(tokenId, row, now, newId, expiresAt);
      calls := calls[call := if rotated then Minted(tokenId, newId) else RefreshLost(tokenId, row)];
    }

    /** The rotation transaction: the conditional revoke gates the insert of the replacement. */
    method Rotate(tokenId: Id, row: Token, now: int, newId: Id, expiresAt: int) returns (rotated: bool)
      requires tokenId in tokens && newId !in tokens
      modifies this`tokens
      ensures rotated == old(tokens[tokenId].revokedAt.None?)
      ensures tokens == if rotated
                        then old(tokens)[tokenId := old(tokens[tokenId]).(revokedAt := Some(now), replacedBy := Some(newId))]
                                        [newId := Token(row.userId, row.sessionId, expiresAt, None, None)]
                        else old(tokens)
    {
      var count := 0;
      if tokens[tokenId].revokedAt.None? {
        tokens := tokens[tokenId := tokens[tokenId].(revokedAt := Some(now), replacedBy := Some(newId))];
        count := 1;
      }
      if count != 1 {
        return false;
      }
      tokens := tokens[newId := Token(row.userId, row.sessionId, expiresAt, None, None)];
      return true;
    }

    method RevokeMany(scope: Scope, now: int)
      modifies this`tokens
      ensures tokens == RevokeAll(old(tokens), scope, now)
    {
      tokens := map id | id in tokens ::
        if InScope(tokens[id], scope) && tokens[id].revokedAt.None? then tokens[id].(revokedAt := Some(now)) else tokens[id];
    }

    /** The losing refresh revokes every session of the user. */
    method PunishLoser(call: Id, now: int)
      requires Enabled(Snapshot(), RefreshPunish(call, now))
      modifies this
      ensures Snapshot() == Next(old(Snapshot()), RefreshPunish(call, now))
    {
      var tokenId, row := calls[call].tokenId, calls[call].row;
      RevokeMany(OfUser(row.userId), now);
      calls := calls[call := Reused(tokenId, row.userId)];
    }

    method FindForLogout(call: Id, tokenId: Id)
      requires Enabled(Snapshot(), LogoutRead(call, tokenId))
      modifies this
      ensures Snapshot() == Next(old(Snapshot()), LogoutRead(call, tokenId))
    {
      calls := calls[call := if tokenId in tokens then LogoutLoaded(tokenId, tokens[tokenId]) else Finished];
    }

    /** `logout`: only a verified secret revokes the session family. */
    method FinishLogout(call: Id, now: int, secretOk: bool)
      requires Enabled(Snapshot(), LogoutRevoke(call, now, secretOk))
      modifies this
      ensures Snapshot() == Next(old(Snapshot()), LogoutRevoke(call, now, secretOk))
    {
      var row := calls[call].row;
      if secretOk {
        RevokeMany(OfSession(row.sessionId), now);
      }
      calls := calls[call := Finished];
    }

    /** The token part of an administrator or password reset. */
    method Reset(userId: Id, now: int)
      modifies this
      ensures Snapshot() == Next(old(Snapshot()), ResetUser(userId, now))
    {
      RevokeMany(OfUser(userId), now);
    }
  }
}
