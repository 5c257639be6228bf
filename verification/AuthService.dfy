/** The auth service as it runs on its two tables. */
module AuthServices {
  import opened Outcomes
  import opened Auth
  import opened AuthRuns

  class AuthService {
    var sessions: seq<SessionRow>
    var tokens: seq<TokenRow>

    ghost function Contents(): Tables
      reads this
    {
      Tables(sessions, tokens)
    }

    ghost predicate Valid()
      reads this
    {
      AuthOk(Contents())
    }

    constructor ()
      ensures Valid() && Contents() == Tables([], [])
    {
      sessions, tokens := [], [];
      new;
      StartIsOk();
    }

    /** The two bulk updates every revocation ends with. */
    method Revoke(ids: set<RowId>)
      modifies this
      ensures Contents() == EndSessions(old(Contents()), ids)
    {
      sessions := seq(|sessions|, i requires 0 <= i < |sessions| reads this =>
        sessions[i].(active := sessions[i].active && i !in ids));
      tokens := seq(|tokens|, i requires 0 <= i < |tokens| reads this =>
        tokens[i].(revoked := tokens[i].revoked || tokens[i].session in ids));
    }

    /** The open sessions of one owner in ascending order of lastSeen, cut off after `take`. */
    method FindOldest(owner: Owner, take: nat) returns (ids: set<RowId>)
      requires take <= |ActiveOf(Contents(), owner)|
      ensures Oldest(Contents(), owner, ids) && |ids| == take
    {
      ids := {};
      var rest := ActiveOf(Tables(sessions, tokens), owner);
      while |ids| < take
        invariant ids !! rest && ids + rest == ActiveOf(Contents(), owner)
        invariant |ids| <= take <= |ids| + |rest|
        invariant forall gone, kept :: gone in ids && kept in rest ==>
          sessions[gone].lastSeen <= sessions[kept].lastSeen
      {
        var next := FirstSeen(rest);
        ids, rest := ids + {next}, rest - {next};
      }
    }

    method FirstSeen(ids: set<RowId>) returns (first: RowId)
      requires ids != {} && forall i :: i in ids ==> i < |sessions|
      ensures first in ids && forall i :: i in ids ==> sessions[first].lastSeen <= sessions[i].lastSeen
    {
      var rest := ids;
      first :| first in rest;
      rest := rest - {first};
      while rest != {}
        invariant rest <= ids && first in ids
        invariant forall i :: i in ids && i !in rest ==> sessions[first].lastSeen <= sessions[i].lastSeen
        decreases |rest|
      {
        var i :| i in rest;
        rest := rest - {i};
        if sessions[i].lastSeen < sessions[first].lastSeen {
          first := i;
        }
      }
    }

    method EnforceSessionCap(owner: Owner) returns (evicted: set<RowId>)
      modifies this
      ensures EvictionOk(old(Contents()), owner, evicted)
      ensures Contents() == EndSessions(old(Contents()), evicted)
    {
      var count := |ActiveOf(Tables(sessions, tokens), owner)|;
      evicted := {};
      if count >= MAX_CONCURRENT_SESSIONS {
        evicted := FindOldest(owner, count - MAX_CONCURRENT_SESSIONS + 1);
        Revoke(evicted);
      }
    }

    method IssueTokens(owner: Owner, now: int, ttl: int) returns (token: RowId, evicted: set<RowId>)
      modifies this
      ensures EvictionOk(old(Contents()), owner, evicted)
      ensures Contents() == Issue(old(Contents()), owner, now, ttl, evicted) && token == |old(tokens)|
    {
      evicted := EnforceSessionCap(owner);
      var session := |sessions|;
      sessions := sessions + [SessionRow(owner, true, now)];
      token := |tokens|;
      tokens := tokens + [TokenRow(owner, session, now + ttl, false)];
    }

    method RevokeAllSessionsForSubject(sub: Id) returns (count: nat)
      modifies this
      ensures Contents() == RevokeAll(old(Contents()), sub)
      ensures count == |ActiveOf(old(Contents()), Customer(sub))|
    {
      var ids := ActiveOf(Tables(sessions, tokens), Customer(sub));
      count := |ids|;
      if count == 0 {
        return;
      }
      Revoke(ids);
    }

    method RefreshToken(accounts: map<Owner, Standing>, sub: Id, audience: Audience, token: RowId, now: int, ttl: int)
        returns (r: Result<RowId, AuthError>, evicted: set<RowId>)
      modifies this
      ensures AuthOutcome(Contents(), r) ==
        Refresh(old(Contents()), accounts, sub, audience, token, now, ttl, evicted)
      ensures r.Ok? ==> EvictionOk(old(Contents()), Claimant(sub, audience), evicted)
    {
      evicted := {};
      if token >= |tokens| {
        return Err(TokenInvalid), {};
      }
      var row := tokens[token];
      if row.revoked {
        var _ := RevokeAllSessionsForSubject(sub);
        return Err(TokenRevoked), {};
      }
      if row.expiresAt < now {
        return Err(TokenInvalid), {};
      }
      if row.owner != Customer(sub) && row.owner != Admin(sub) {
        return Err(TokenInvalid), {};
      }
      var account := if audience.Console? then Admin(sub) else Customer(sub);
      if account !in accounts {
        return Err(TokenInvalid), {};
      }
      if accounts[account].Suspended? || (account.Admin? && accounts[account].Disabled?) {
        return Err(AccountSuspended), {};
      }
      RotateKeepsOrder(Contents(), token);
      tokens := tokens[token := row.(revoked := true)];
      var renewed;
      renewed, evicted := IssueTokens(account, now, ttl);
      r := Ok(renewed);
    }

    method Logout(current: Option<RowId>) returns (error: Option<AuthError>)
      modifies this
      ensures LogoutOutcome(Contents(), error) == Auth.Logout(old(Contents()), current)
    {
      error := None;
      if current.Some? {
        if current.value >= |sessions| {
          return Some(SessionNotFound);
        }
        Revoke({current.value});
      }
    }

    method RevokeSession(id: RowId, current: Option<RowId>) returns (r: Result<RowId, AuthError>)
      modifies this
      ensures AuthOutcome(Contents(), r) == RevokeOne(old(Contents()), id, current)
    {
      if current == Some(id) {
        return Err(CannotRevokeCurrent);
      }
      if id >= |sessions| {
        return Err(SessionNotFound);
      }
      Revoke({id});
      r := Ok(id);
    }
  }
}
