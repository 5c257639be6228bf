/** Sign-in sessions and refresh tokens: two tables, and one step per call of the auth service. */
module Auth {
  import opened Outcomes

  const MAX_CONCURRENT_SESSIONS: nat := 10

  type Id = nat

  type RowId = nat

  /** Exactly one of the two nullable owner columns is set on a row. */
  datatype Owner = Customer(id: Id) | Admin(id: Id)

  datatype Audience = Web | Console

  datatype Standing = Suspended | Disabled | Other

  datatype SessionRow = SessionRow(owner: Owner, active: bool, lastSeen: int)

  datatype TokenRow = TokenRow(owner: Owner, session: RowId, expiresAt: int, revoked: bool)

  datatype Tables = Tables(sessions: seq<SessionRow>, tokens: seq<TokenRow>)

  datatype AuthError = TokenInvalid | TokenRevoked | AccountSuspended | SessionNotFound | CannotRevokeCurrent

  /** The tables a call leaves behind and what it answers: the row of the new token, or the exception. */
  datatype AuthOutcome = AuthOutcome(tables: Tables, result: Result<RowId, AuthError>)

  datatype LogoutOutcome = LogoutOutcome(tables: Tables, error: Option<AuthError>)

  function ActiveOf(t: Tables, owner: Owner): set<RowId> {
    set i | 0 <= i < |t.sessions| && t.sessions[i].active && t.sessions[i].owner == owner
  }

  function UsableOf(t: Tables, owner: Owner, now: int): set<RowId> {
    set i | 0 <= i < |t.tokens| && !t.tokens[i].revoked && t.tokens[i].expiresAt >= now && t.tokens[i].owner == owner
  }

  // ---------- steps ----------

  /** Close the named sessions and revoke whatever tokens hang on them. */
  function EndSessions(t: Tables, ids: set<RowId>): Tables {
    Tables(
      seq(|t.sessions|, i requires 0 <= i < |t.sessions| =>
        t.sessions[i].(active := t.sessions[i].active && i !in ids)),
      seq(|t.tokens|, i requires 0 <= i < |t.tokens| =>
        t.tokens[i].(revoked := t.tokens[i].revoked || t.tokens[i].session in ids)))
  }

  /** How many sessions must go before one more may be opened. */
  function Excess(active: nat): nat {
    if active >= MAX_CONCURRENT_SESSIONS then active - MAX_CONCURRENT_SESSIONS + 1 else 0
  }

  /** Taking the first rows in ascending order of lastSeen; the order among equals is the database's. */
  ghost predicate Oldest(t: Tables, owner: Owner, ids: set<RowId>) {
    && ids <= ActiveOf(t, owner)
    && forall gone, kept ::
      gone in ids && kept in ActiveOf(t, owner) && kept !in ids ==>
      t.sessions[gone].lastSeen <= t.sessions[kept].lastSeen
  }

  ghost predicate EvictionOk(t: Tables, owner: Owner, evicted: set<RowId>) {
    Oldest(t, owner, evicted) && |evicted| == Excess(|ActiveOf(t, owner)|)
  }

  /** Evict, open a session, hand out its token. */
  function Issue(t: Tables, owner: Owner, now: int, ttl: int, evicted: set<RowId>): Tables {
    var after := EndSessions(t, evicted);
    Tables(
      after.sessions + [SessionRow(owner, true, now)],
      after.tokens + [TokenRow(owner, |t.sessions|, now + ttl, false)])
  }

  /** Bulk revocation looks sessions up by the customer column only. */
  function RevokeAll(t: Tables, sub: Id): Tables {
    EndSessions(t, ActiveOf(t, Customer(sub)))
  }

  function Claimant(sub: Id, audience: Audience): Owner {
    if audience.Console? then Admin(sub) else Customer(sub)
  }

  predicate Barred(account: Owner, standing: Standing) {
    standing.Suspended? || (account.Admin? && standing.Disabled?)
  }

  function Refresh(t: Tables, accounts: map<Owner, Standing>, sub: Id, audience: Audience, token: RowId,
                   now: int, ttl: int, evicted: set<RowId>): AuthOutcome
  {
    var account := Claimant(sub, audience);
    if token >= |t.tokens| then AuthOutcome(t, Err(TokenInvalid))
    else if t.tokens[token].revoked then AuthOutcome(RevokeAll(t, sub), Err(TokenRevoked))
    else if t.tokens[token].expiresAt < now then AuthOutcome(t, Err(TokenInvalid))
    else if t.tokens[token].owner.id != sub then AuthOutcome(t, Err(TokenInvalid))
    else if account !in accounts then AuthOutcome(t, Err(TokenInvalid))
    else if Barred(account, accounts[account]) then AuthOutcome(t, Err(AccountSuspended))
    else AuthOutcome(Issue(Rotate(t, token), account, now, ttl, evicted), Ok(|t.tokens|))
  }

  /** Rotation revokes the presented token; its session stays open. */
  function Rotate(t: Tables, token: RowId): Tables
    requires token < |t.tokens|
  {
    t.(tokens := t.tokens[token := t.tokens[token].(revoked := true)])
  }

  /** A caller without a session id logs out of nothing; an id without a row is an error. */
  function Logout(t: Tables, current: Option<RowId>): LogoutOutcome {
    if current.None? then LogoutOutcome(t, None)
    else if current.value >= |t.sessions| then LogoutOutcome(t, Some(SessionNotFound))
    else LogoutOutcome(EndSessions(t, {current.value}), None)
  }

  function RevokeOne(t: Tables, id: RowId, current: Option<RowId>): AuthOutcome {
    if Some(id) == current then AuthOutcome(t, Err(CannotRevokeCurrent))
    else if id >= |t.sessions| then AuthOutcome(t, Err(SessionNotFound))
    else AuthOutcome(EndSessions(t, {id}), Ok(id))
  }

  /** `now` is the clock at the call; `evicted` is which rows the database picked among equally old ones. */
  datatype Step =
    | SignInStep(now: int, owner: Owner, ttl: int, evicted: set<RowId>)
    | RefreshStep(now: int, accounts: map<Owner, Standing>, sub: Id, audience: Audience, token: RowId, ttl: int,
                  evicted: set<RowId>)
    | LogoutStep(now: int, current: Option<RowId>)
    | RevokeOneStep(now: int, id: RowId, current: Option<RowId>)
    | RevokeAllStep(now: int, sub: Id)

  function Attempt(t: Tables, step: Step): AuthOutcome
    requires step.RefreshStep?
  {
    Refresh(t, step.accounts, step.sub, step.audience, step.token, step.now, step.ttl, step.evicted)
  }

  function Next(t: Tables, step: Step): Tables {
    match step
    case SignInStep(now, owner, ttl, evicted) => Issue(t, owner, now, ttl, evicted)
    case RefreshStep(_, _, _, _, _, _, _) => Attempt(t, step).tables
    case LogoutStep(_, current) => Logout(t, current).tables
    case RevokeOneStep(_, id, current) => RevokeOne(t, id, current).tables
    case RevokeAllStep(_, sub) => RevokeAll(t, sub)
  }

  predicate Exchanges(t: Tables, step: Step, token: RowId) {
    step.RefreshStep? && step.token == token && Attempt(t, step).result.Ok?
  }

  /** The database picked the rows it was asked for. */
  ghost predicate Legal(t: Tables, step: Step) {
    match step
    case SignInStep(_, owner, _, evicted) => EvictionOk(t, owner, evicted)
    case RefreshStep(_, _, sub, audience, token, _, evicted) =>
      Exchanges(t, step, token) ==> EvictionOk(t, Claimant(sub, audience), evicted)
    case _ => true
  }

  function Run(t: Tables, steps: seq<Step>): Tables {
    if |steps| == 0 then t else Next(Run(t, steps[..|steps| - 1]), steps[|steps| - 1])
  }

  ghost predicate LegalRun(t: Tables, steps: seq<Step>) {
    forall k :: 0 <= k < |steps| ==> Legal(Run(t, steps[..k]), steps[k])
  }

  // ---------- the invariant ----------

  /** One token per session, of the same owner; a token that is not revoked hangs on an open session. */
  ghost predicate Paired(t: Tables) {
    && |t.tokens| == |t.sessions|
    && forall i :: 0 <= i < |t.tokens| ==>
      && t.tokens[i].session == i
      && t.tokens[i].owner == t.sessions[i].owner
      && (!t.tokens[i].revoked ==> t.sessions[i].active)
  }

  ghost predicate Capped(t: Tables) {
    forall owner :: |ActiveOf(t, owner)| <= MAX_CONCURRENT_SESSIONS
  }

  ghost predicate AuthOk(t: Tables) {
    Paired(t) && Capped(t)
  }

  lemma ActiveAfterEnding(t: Tables, ids: set<RowId>, owner: Owner)
    ensures ActiveOf(EndSessions(t, ids), owner) == ActiveOf(t, owner) - ids
    ensures |ActiveOf(EndSessions(t, ids), owner)| == |ActiveOf(t, owner)| - |ActiveOf(t, owner) * ids|
  {
  }

  lemma EndingKeepsOrder(t: Tables, ids: set<RowId>)
    requires AuthOk(t)
    ensures AuthOk(EndSessions(t, ids))
  {
    forall owner { ActiveAfterEnding(t, ids, owner); }
  }

  lemma RowAfterIssue(t: Tables, owner: Owner, now: int, ttl: int, evicted: set<RowId>, i: RowId)
    requires i < |t.sessions|
    ensures Issue(t, owner, now, ttl, evicted).sessions[i] ==
      t.sessions[i].(active := t.sessions[i].active && i !in evicted)
  {
  }

  /** The new session joins its owner's and nobody else's. */
  lemma ActiveAfterIssue(t: Tables, owner: Owner, now: int, ttl: int, evicted: set<RowId>, other: Owner)
    ensures ActiveOf(Issue(t, owner, now, ttl, evicted), other) ==
      ActiveOf(t, other) - evicted + (if other == owner then {|t.sessions|} else {})
  {
    var after := Issue(t, owner, now, ttl, evicted);
    assert after.sessions[|t.sessions|] == SessionRow(owner, true, now);
    forall i: RowId | i < |t.sessions|
      ensures i in ActiveOf(after, other) <==> i in ActiveOf(t, other) - evicted
    {
      RowAfterIssue(t, owner, now, ttl, evicted, i);
    }
  }

  lemma SwapOne<T>(s: set<T>, gone: set<T>, added: T)
    requires gone <= s && added !in s
    ensures |s - gone + {added}| == |s| - |gone| + 1
  {
    assert s * gone == gone;
  }

  /** Issuing leaves the subject one session richer, but never above the cap, and touches nobody else. */
  lemma IssueEffect(t: Tables, owner: Owner, now: int, ttl: int, evicted: set<RowId>)
    requires EvictionOk(t, owner, evicted)
    ensures var after := Issue(t, owner, now, ttl, evicted);
            && ActiveOf(after, owner) == ActiveOf(t, owner) - evicted + {|t.sessions|}
            && |ActiveOf(after, owner)| == Min(|ActiveOf(t, owner)| + 1, MAX_CONCURRENT_SESSIONS)
            && (forall other :: other != owner ==> ActiveOf(after, other) == ActiveOf(t, other))
  {
    ActiveAfterIssue(t, owner, now, ttl, evicted, owner);
    SwapOne(ActiveOf(t, owner), evicted, |t.sessions|);
    forall other | other != owner
      ensures ActiveOf(Issue(t, owner, now, ttl, evicted), other) == ActiveOf(t, other)
    {
      ActiveAfterIssue(t, owner, now, ttl, evicted, other);
      Strangers(t, owner, evicted, other);
    }
  }

  lemma Strangers(t: Tables, owner: Owner, evicted: set<RowId>, other: Owner)
    requires evicted <= ActiveOf(t, owner) && other != owner
    ensures ActiveOf(t, other) - evicted == ActiveOf(t, other)
  {
    forall i | i in evicted ensures i !in ActiveOf(t, other) {
      assert i in ActiveOf(t, owner);
    }
  }

  ghost predicate Earliest(t: Tables, ids: set<RowId>, first: RowId)
    requires forall i :: i in ids ==> i < |t.sessions|
  {
    first in ids && forall i :: i in ids ==> t.sessions[first].lastSeen <= t.sessions[i].lastSeen
  }

  lemma {:induction false} EarliestExists(t: Tables, ids: set<RowId>)
    requires ids != {} && forall i :: i in ids ==> i < |t.sessions|
    ensures exists first :: Earliest(t, ids, first)
    decreases |ids|
  {
    var i: RowId :| i in ids;
    var rest := ids - {i};
    assert ids == rest + {i};
    if rest == {} {
      assert Earliest(t, ids, i);
    } else {
      EarliestExists(t, rest);
      var first: RowId :| Earliest(t, rest, first);
      if t.sessions[i].lastSeen < t.sessions[first].lastSeen {
        assert Earliest(t, ids, i);
      } else {
        assert Earliest(t, ids, first);
      }
    }
  }

  lemma OldestGrow(t: Tables, owner: Owner, ids: set<RowId>, rest: set<RowId>, first: RowId)
    requires Oldest(t, owner, ids) && rest == ActiveOf(t, owner) - ids && Earliest(t, rest, first)
    ensures Oldest(t, owner, ids + {first}) && |ids + {first}| == |ids| + 1
  {
    var grown := ids + {first};
    forall gone: RowId, kept: RowId | gone in grown && kept in ActiveOf(t, owner) && kept !in grown
      ensures t.sessions[gone].lastSeen <= t.sessions[kept].lastSeen
    {
      assert kept in rest;
    }
  }

  lemma {:induction false} OldestExist(t: Tables, owner: Owner, take: nat)
    requires take <= |ActiveOf(t, owner)|
    ensures exists ids :: Oldest(t, owner, ids) && |ids| == take
  {
    if take == 0 {
      var none: set<RowId> := {};
      assert Oldest(t, owner, none) && |none| == take;
    } else {
      OldestExist(t, owner, take - 1);
      var ids :| Oldest(t, owner, ids) && |ids| == take - 1;
      var rest := ActiveOf(t, owner) - ids;
      assert |rest| > 0 by {
        assert ActiveOf(t, owner) * ids == ids;
        assert |rest| == |ActiveOf(t, owner)| - |ActiveOf(t, owner) * ids|;
      }
      EarliestExists(t, rest);
      var first: RowId :| Earliest(t, rest, first);
      OldestGrow(t, owner, ids, rest, first);
    }
  }

  /** The database can always pick the rows it is asked for. */
  lemma EvictionExists(t: Tables, owner: Owner)
    ensures exists evicted :: EvictionOk(t, owner, evicted)
  {
    OldestExist(t, owner, Excess(|ActiveOf(t, owner)|));
    var ids :| Oldest(t, owner, ids) && |ids| == Excess(|ActiveOf(t, owner)|);
    assert EvictionOk(t, owner, ids);
  }

  lemma IssueKeepsOrder(t: Tables, owner: Owner, now: int, ttl: int, evicted: set<RowId>)
    requires AuthOk(t) && EvictionOk(t, owner, evicted)
    ensures AuthOk(Issue(t, owner, now, ttl, evicted))
  {
    var after := Issue(t, owner, now, ttl, evicted);
    IssueEffect(t, owner, now, ttl, evicted);
    forall other ensures |ActiveOf(after, other)| <= MAX_CONCURRENT_SESSIONS {
      assert other != owner ==> ActiveOf(after, other) == ActiveOf(t, other);
    }
  }

  lemma RotateKeepsOrder(t: Tables, token: RowId)
    requires token < |t.tokens|
    ensures forall owner :: ActiveOf(Rotate(t, token), owner) == ActiveOf(t, owner)
    ensures AuthOk(t) ==> AuthOk(Rotate(t, token))
    ensures forall owner, evicted :: EvictionOk(t, owner, evicted) ==> EvictionOk(Rotate(t, token), owner, evicted)
  {
    var after := Rotate(t, token);
    forall owner ensures ActiveOf(after, owner) == ActiveOf(t, owner) {
    }
  }

  lemma NextKeepsOrder(t: Tables, step: Step)
    requires AuthOk(t) && Legal(t, step)
    ensures AuthOk(Next(t, step))
  {
    match step
    case SignInStep(now, owner, ttl, evicted) => IssueKeepsOrder(t, owner, now, ttl, evicted);
    case RefreshStep(now, _, sub, audience, token, ttl, evicted) =>
      if Exchanges(t, step, token) {
        RotateKeepsOrder(t, token);
        IssueKeepsOrder(Rotate(t, token), Claimant(sub, audience), now, ttl, evicted);
      } else {
        EndingKeepsOrder(t, ActiveOf(t, Customer(sub)));
      }
    case LogoutStep(_, current) =>
      if current.Some? {
        EndingKeepsOrder(t, {current.value});
      }
    case RevokeOneStep(_, id, _) => EndingKeepsOrder(t, {id});
    case RevokeAllStep(_, sub) => EndingKeepsOrder(t, ActiveOf(t, Customer(sub)));
  }

  lemma {:induction false} RunKeepsOrder(t: Tables, steps: seq<Step>)
    requires AuthOk(t) && LegalRun(t, steps)
    ensures AuthOk(Run(t, steps))
  {
    if |steps| > 0 {
      LegalFront(t, steps);
      RunKeepsOrder(t, steps[..|steps| - 1]);
      NextKeepsOrder(Run(t, steps[..|steps| - 1]), steps[|steps| - 1]);
    }
  }

  lemma LegalFront(t: Tables, steps: seq<Step>)
    requires |steps| > 0 && LegalRun(t, steps)
    ensures LegalRun(t, steps[..|steps| - 1])
    ensures Legal(Run(t, steps[..|steps| - 1]), steps[|steps| - 1])
  {
    var front := steps[..|steps| - 1];
    forall k | 0 <= k < |front| ensures Legal(Run(t, front[..k]), front[k]) {
      assert front[..k] == steps[..k];
    }
  }
}
