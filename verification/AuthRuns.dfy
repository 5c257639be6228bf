/** What sign-in sessions and refresh tokens promise over whole runs of calls that do not overlap. */
module AuthRuns {
  import opened Outcomes
  import opened Auth

  lemma StartIsOk()
    ensures AuthOk(Tables([], []))
  {
    forall owner ensures ActiveOf(Tables([], []), owner) == {} {
    }
  }

  // ---------- the cap ----------

  lemma SubsetIsNoLarger<T>(a: set<T>, b: set<T>)
    requires a <= b
    ensures |a| <= |b|
  {
    assert b == a + (b - a);
  }

  /** Tokens a subject can still exchange never outnumber the cap, whoever did what before. */
  lemma UsableAtMostCap(t: Tables, steps: seq<Step>, owner: Owner, now: int)
    requires AuthOk(t) && LegalRun(t, steps)
    ensures |UsableOf(Run(t, steps), owner, now)| <= MAX_CONCURRENT_SESSIONS
  {
    RunKeepsOrder(t, steps);
    var after := Run(t, steps);
    forall i | i in UsableOf(after, owner, now) ensures i in ActiveOf(after, owner) {
      assert after.tokens[i].owner == after.sessions[i].owner;
    }
    SubsetIsNoLarger(UsableOf(after, owner, now), ActiveOf(after, owner));
  }

  // ---------- what one call ends ----------

  /** Exactly the sessions in `gone` are closed and exactly their tokens revoked. */
  ghost predicate EndsExactly(before: Tables, after: Tables, gone: set<RowId>) {
    && |after.sessions| == |before.sessions| && |after.tokens| == |before.tokens|
    && (forall i :: 0 <= i < |before.sessions| ==>
          (after.sessions[i].active <==> before.sessions[i].active && i !in gone))
    && (forall i :: 0 <= i < |before.tokens| ==>
          (!after.tokens[i].revoked <==> !before.tokens[i].revoked && i !in gone))
  }

  /** Logging out ends the caller's own session and token, and nothing when the caller has none. */
  lemma LogoutEndsOwn(t: Tables, current: Option<RowId>)
    requires AuthOk(t)
    ensures var r := Auth.Logout(t, current);
            && (r.error.Some? <==> current.Some? && current.value >= |t.sessions|)
            && EndsExactly(t, r.tables, if current.Some? then {current.value} else {})
  {
  }

  /** Revoking one session ends that one; it is refused for the caller's own and for an unknown id. */
  lemma RevokeOneEnds(t: Tables, id: RowId, current: Option<RowId>)
    requires AuthOk(t)
    ensures var r := RevokeOne(t, id, current);
            && (r.result.Ok? <==> id < |t.sessions| && Some(id) != current)
            && EndsExactly(t, r.tables, if r.result.Ok? then {id} else {})
  {
  }

  /**
   * Nothing asks whose session it is: the call of `caller`, whose own session is `current`, ends an open session of
   * somebody else exactly when the id names one.
   */
  lemma RevokeOneReachesOthersIff(t: Tables, id: RowId, current: RowId, caller: Owner)
    requires current < |t.sessions| && t.sessions[current].owner == caller
    ensures var after := RevokeOne(t, id, Some(current)).tables;
            (exists i :: 0 <= i < |t.sessions| && t.sessions[i].owner != caller
               && t.sessions[i].active && !after.sessions[i].active) <==>
            (id < |t.sessions| && t.sessions[id].owner != caller && t.sessions[id].active)
  {
    var after := RevokeOne(t, id, Some(current)).tables;
    if id < |t.sessions| && t.sessions[id].owner != caller && t.sessions[id].active {
      assert !after.sessions[id].active;
    }
  }

  /** From empty tables: two subjects sign in, and one call of the second ends the session of the first. */
  lemma StrangerRevokes(first: Owner, second: Owner)
    requires first != second
    ensures var once := Next(Tables([], []), SignInStep(0, first, 1, {}));
            var t := Next(once, SignInStep(0, second, 1, {}));
            && Legal(Tables([], []), SignInStep(0, first, 1, {})) && Legal(once, SignInStep(0, second, 1, {}))
            && ActiveOf(t, first) == {0} && ActiveOf(t, second) == {1}
            && RevokeOne(t, 0, Some(1)).result.Ok?
            && ActiveOf(RevokeOne(t, 0, Some(1)).tables, first) == {}
  {
    var none := Tables([], []);
    assert ActiveOf(none, first) == {};
    IssueEffect(none, first, 0, 1, {});
    var once := Issue(none, first, 0, 1, {});
    assert ActiveOf(once, first) == {0} && ActiveOf(once, second) == {};
    IssueEffect(once, second, 0, 1, {});
    ActiveAfterEnding(Issue(once, second, 0, 1, {}), {0}, first);
  }

  /** Bulk revocation leaves a customer nothing, and everybody else everything. */
  lemma RevokeAllEnds(t: Tables, sub: Id, owner: Owner, now: int)
    requires AuthOk(t)
    ensures var after := RevokeAll(t, sub);
            && ActiveOf(after, owner) == (if owner == Customer(sub) then {} else ActiveOf(t, owner))
            && UsableOf(after, owner, now) == (if owner == Customer(sub) then {} else UsableOf(t, owner, now))
  {
    var ids := ActiveOf(t, Customer(sub));
    ActiveAfterEnding(t, ids, owner);
    if owner != Customer(sub) {
      Strangers(t, Customer(sub), ids, owner);
    }
    var after := RevokeAll(t, sub);
    forall i ensures i in UsableOf(after, owner, now) <==> owner != Customer(sub) && i in UsableOf(t, owner, now) {
      if 0 <= i < |t.tokens| && !t.tokens[i].revoked {
        assert i in ids <==> t.tokens[i].owner == Customer(sub);
      }
    }
  }

  // ---------- revocation is final ----------

  /** Rows are only added, and a row once closed or revoked stays so. */
  ghost predicate Grown(before: Tables, after: Tables) {
    && |before.sessions| <= |after.sessions| && |before.tokens| <= |after.tokens|
    && (forall i :: 0 <= i < |before.sessions| ==>
          && after.sessions[i] == before.sessions[i].(active := after.sessions[i].active)
          && (!before.sessions[i].active ==> !after.sessions[i].active))
    && (forall i :: 0 <= i < |before.tokens| ==>
          && after.tokens[i] == before.tokens[i].(revoked := after.tokens[i].revoked)
          && (before.tokens[i].revoked ==> after.tokens[i].revoked))
  }

  lemma NextGrows(t: Tables, step: Step)
    ensures Grown(t, Next(t, step))
  {
  }

  lemma {:induction false} RevocationIsFinal(t: Tables, steps: seq<Step>)
    ensures Grown(t, Run(t, steps))
  {
    if |steps| > 0 {
      RevocationIsFinal(t, steps[..|steps| - 1]);
      NextGrows(Run(t, steps[..|steps| - 1]), steps[|steps| - 1]);
    }
  }

  // ---------- one exchange per token ----------

  /** How many steps of a run exchange `token` for a new one. */
  function ExchangeCount(t: Tables, steps: seq<Step>, token: RowId): nat {
    if |steps| == 0 then 0
    else
      var front, last := steps[..|steps| - 1], steps[|steps| - 1];
      ExchangeCount(t, front, token) + (if Exchanges(Run(t, front), last, token) then 1 else 0)
  }

  lemma {:induction false} ExchangedAtMostOnce(t: Tables, steps: seq<Step>, token: RowId)
    ensures ExchangeCount(t, steps, token) <= 1
    ensures ExchangeCount(t, steps, token) == 1 ==>
      token < |Run(t, steps).tokens| && Run(t, steps).tokens[token].revoked
  {
    if |steps| > 0 {
      var front := steps[..|steps| - 1];
      ExchangedAtMostOnce(t, front, token);
      NextGrows(Run(t, front), steps[|steps| - 1]);
    }
  }

  // ---------- who may refresh, and what a replay does ----------

  /** Exactly an unexpired, unrevoked token of the claimed subject refreshes, and only while its account may sign in. */
  lemma RefreshSucceedsIff(t: Tables, accounts: map<Owner, Standing>, sub: Id, audience: Audience, token: RowId,
                           now: int, ttl: int, evicted: set<RowId>)
    ensures var account := if audience == Console then Admin(sub) else Customer(sub);
      Refresh(t, accounts, sub, audience, token, now, ttl, evicted).result.Ok? <==>
      && token in UsableOf(t, Customer(sub), now) + UsableOf(t, Admin(sub), now)
      && account in accounts && accounts[account] != Suspended
      && (account.Admin? ==> accounts[account] != Disabled)
  {
    TokenOfSubject(t, sub, token, now);
  }

  lemma TokenOfSubject(t: Tables, sub: Id, token: RowId, now: int)
    ensures token in UsableOf(t, Customer(sub), now) + UsableOf(t, Admin(sub), now) <==>
      && token < |t.tokens| && !t.tokens[token].revoked && t.tokens[token].expiresAt >= now
      && t.tokens[token].owner.id == sub
  {
    if token < |t.tokens| {
      assert t.tokens[token].owner in {Customer(sub), Admin(sub)} <==> t.tokens[token].owner.id == sub;
    }
  }

  /**
   * Which refusal a refresh gets. A suspended account, or a disabled administrator, is told so exactly when the token
   * itself would do; only a replay writes anything.
   */
  lemma RefreshRefusedWith(t: Tables, accounts: map<Owner, Standing>, sub: Id, audience: Audience, token: RowId,
                           now: int, ttl: int, evicted: set<RowId>)
    ensures var r := Refresh(t, accounts, sub, audience, token, now, ttl, evicted);
      var account := if audience == Console then Admin(sub) else Customer(sub);
      var usable := token in UsableOf(t, Customer(sub), now) + UsableOf(t, Admin(sub), now);
      && (r.result == Err(TokenRevoked) <==> token < |t.tokens| && t.tokens[token].revoked)
      && (r.result == Err(AccountSuspended) <==>
            && usable && account in accounts
            && (accounts[account] == Suspended || (account.Admin? && accounts[account] == Disabled)))
      && (r.result == Err(TokenInvalid) <==>
            && (token < |t.tokens| ==> !t.tokens[token].revoked)
            && !(usable && account in accounts))
      && (r.result.Err? && r.result != Err(TokenRevoked) ==> r.tables == t)
  {
    TokenOfSubject(t, sub, token, now);
  }

  /** What a successful refresh writes: the old token revoked, one session opened now, one token until now + ttl. */
  lemma RefreshWrites(t: Tables, accounts: map<Owner, Standing>, sub: Id, audience: Audience, token: RowId,
                      now: int, ttl: int, evicted: set<RowId>)
    requires Refresh(t, accounts, sub, audience, token, now, ttl, evicted).result.Ok?
    ensures var r := Refresh(t, accounts, sub, audience, token, now, ttl, evicted);
      var account := if audience == Console then Admin(sub) else Customer(sub);
      && r.result == Ok(|t.tokens|) && token < |t.tokens|
      && |r.tables.sessions| == |t.sessions| + 1 && |r.tables.tokens| == |t.tokens| + 1
      && r.tables.sessions[|t.sessions|] == SessionRow(account, true, now)
      && r.tables.tokens[|t.tokens|] == TokenRow(account, |t.sessions|, now + ttl, false)
      && (forall i :: 0 <= i < |t.sessions| ==>
            r.tables.sessions[i] == t.sessions[i].(active := t.sessions[i].active && i !in evicted))
      && (forall i :: 0 <= i < |t.tokens| ==>
            r.tables.tokens[i] == t.tokens[i].(revoked :=
              t.tokens[i].revoked || i == token || t.tokens[i].session in evicted))
  {
    TokenOfSubject(t, sub, token, now);
  }

  /** Issuing adds one usable token, its owner's, and takes away the evicted ones. */
  lemma UsableAfterIssue(t: Tables, account: Owner, now: int, ttl: int, evicted: set<RowId>, owner: Owner)
    requires Paired(t) && ttl >= 0
    ensures UsableOf(Issue(t, account, now, ttl, evicted), owner, now) ==
      UsableOf(t, owner, now) - evicted + (if owner == account then {|t.tokens|} else {})
  {
    var after := Issue(t, account, now, ttl, evicted);
    assert after.tokens[|t.tokens|] == TokenRow(account, |t.sessions|, now + ttl, false);
    forall i: RowId | i < |t.tokens|
      ensures i in UsableOf(after, owner, now) <==> i in UsableOf(t, owner, now) - evicted
    {
      assert after.tokens[i] == t.tokens[i].(revoked := t.tokens[i].revoked || i in evicted);
    }
  }

  /** A refresh swaps one usable token for another: the presented one and the evicted ones go, one comes. */
  lemma RefreshSwaps(t: Tables, accounts: map<Owner, Standing>, sub: Id, audience: Audience, token: RowId,
                     now: int, ttl: int, evicted: set<RowId>, owner: Owner)
    requires AuthOk(t) && ttl >= 0
    requires Refresh(t, accounts, sub, audience, token, now, ttl, evicted).result.Ok?
    ensures var r := Refresh(t, accounts, sub, audience, token, now, ttl, evicted);
            UsableOf(r.tables, owner, now) ==
            UsableOf(t, owner, now) - {token} - evicted +
            (if owner == Claimant(sub, audience) then {r.result.value} else {})
  {
    var rotated := Rotate(t, token);
    RotateKeepsOrder(t, token);
    UsableAfterIssue(rotated, Claimant(sub, audience), now, ttl, evicted, owner);
    assert UsableOf(rotated, owner, now) == UsableOf(t, owner, now) - {token};
  }

  /** Presenting a revoked token: refused, and exactly the customer's tokens of that subject are revoked. */
  lemma ReplayRevokes(t: Tables, accounts: map<Owner, Standing>, sub: Id, audience: Audience, token: RowId,
                      now: int, ttl: int, evicted: set<RowId>)
    requires AuthOk(t) && token < |t.tokens| && t.tokens[token].revoked
    ensures var r := Refresh(t, accounts, sub, audience, token, now, ttl, evicted);
            && r.result == Err(TokenRevoked)
            && |r.tables.tokens| == |t.tokens|
            && forall i :: 0 <= i < |t.tokens| ==>
              (!r.tables.tokens[i].revoked <==> !t.tokens[i].revoked && t.tokens[i].owner != Customer(sub))
  {
    var r := Refresh(t, accounts, sub, audience, token, now, ttl, evicted);
    forall i | 0 <= i < |t.tokens|
      ensures !r.tables.tokens[i].revoked <==> !t.tokens[i].revoked && t.tokens[i].owner != Customer(sub)
    {
      if !t.tokens[i].revoked {
        assert i in ActiveOf(t, Customer(sub)) <==> t.tokens[i].owner == Customer(sub);
      }
    }
  }

  /** The theft rule reaches the subject of the replayed token exactly when it is a customer or has nothing to lose. */
  lemma TheftRuleReachesIff(t: Tables, accounts: map<Owner, Standing>, audience: Audience, token: RowId,
                            now: int, ttl: int, evicted: set<RowId>)
    requires AuthOk(t) && token < |t.tokens| && t.tokens[token].revoked
    ensures var owner := t.tokens[token].owner;
            UsableOf(Refresh(t, accounts, owner.id, audience, token, now, ttl, evicted).tables, owner, now) == {} <==>
            (owner.Customer? || UsableOf(t, owner, now) == {})
  {
    var owner := t.tokens[token].owner;
    var after := Refresh(t, accounts, owner.id, audience, token, now, ttl, evicted).tables;
    ReplayRevokes(t, accounts, owner.id, audience, token, now, ttl, evicted);
    if owner.Admin? {
      assert forall i :: i in UsableOf(after, owner, now) <==> i in UsableOf(t, owner, now);
    }
  }

  /** Sign in, refresh, then present the first token again. */
  function TheftRun(owner: Owner): seq<Step> {
    var audience := if owner.Admin? then Console else Web;
    var refresh := RefreshStep(0, map[owner := Other], owner.id, audience, 0, 1, {});
    [SignInStep(0, owner, 1, {}), refresh, refresh]
  }

  /** The two tables after signing in and refreshing: two open sessions, the first token revoked. */
  function RotatedTables(owner: Owner): Tables {
    Tables([SessionRow(owner, true, 0), SessionRow(owner, true, 0)],
           [TokenRow(owner, 0, 1, true), TokenRow(owner, 1, 1, false)])
  }

  lemma TheftRunRotates(owner: Owner)
    ensures Legal(Tables([], []), TheftRun(owner)[0])
    ensures Legal(Next(Tables([], []), TheftRun(owner)[0]), TheftRun(owner)[1])
    ensures Next(Next(Tables([], []), TheftRun(owner)[0]), TheftRun(owner)[1]) == RotatedTables(owner)
  {
    var t := Tables([], []);
    var first := Next(t, TheftRun(owner)[0]);
    assert ActiveOf(t, owner) == {};
    assert first == Tables([SessionRow(owner, true, 0)], [TokenRow(owner, 0, 1, false)]);
    assert ActiveOf(first, owner) == {0};
  }

  /**
   * From empty tables, after one refresh the replayed first token is answered alike for both kinds of owner, but the
   * second token, in whoever's hands, stays usable for an administrator and not for a customer.
   */
  lemma AdminOutlivesReplay(owner: Owner)
    ensures var t := Tables([], []);
            && LegalRun(t, TheftRun(owner))
            && Attempt(Run(t, TheftRun(owner)[..2]), TheftRun(owner)[2]).result == Err(TokenRevoked)
            && UsableOf(Run(t, TheftRun(owner)[..2]), owner, 0) == {1}
            && UsableOf(Run(t, TheftRun(owner)), owner, 0) == (if owner.Admin? then {1} else {})
  {
    var t, steps := Tables([], []), TheftRun(owner);
    TheftRunRotates(owner);
    assert steps[..1][..0] == [] && steps[..2][..1] == steps[..1];
    assert steps[..3][..2] == steps[..2] && steps == steps[..3];
    assert Run(t, steps[..1]) == Next(t, steps[0]);
    assert Run(t, steps[..2]) == RotatedTables(owner);
    assert UsableOf(RotatedTables(owner), owner, 0) == {1};
    assert ActiveOf(RotatedTables(owner), Customer(owner.id)) == (if owner.Admin? then {} else {0, 1});
    assert Run(t, steps) == Next(RotatedTables(owner), steps[2]);
  }

  /** After a customer's revoked token is replayed, no token issued to that customer before ever refreshes again. */
  lemma NothingSurvivesReplay(t: Tables, replay: Step, later: seq<Step>, next: Step, i: RowId)
    requires AuthOk(t) && replay.RefreshStep?
    requires replay.token < |t.tokens| && t.tokens[replay.token].revoked
    requires i < |t.tokens| && t.tokens[i].owner == Customer(replay.sub)
    ensures !Exchanges(Run(Next(t, replay), later), next, i)
  {
    ReplayRevokes(t, replay.accounts, replay.sub, replay.audience, replay.token, replay.now, replay.ttl,
                  replay.evicted);
    RevocationIsFinal(Next(t, replay), later);
  }

  // ---------- least recently seen is first opened ----------

  ghost predicate Clocked(steps: seq<Step>) {
    forall j, k :: 0 <= j <= k < |steps| ==> steps[j].now <= steps[k].now
  }

  ghost predicate SeenInOrder(t: Tables, now: int) {
    && (forall j, k :: 0 <= j <= k < |t.sessions| ==> t.sessions[j].lastSeen <= t.sessions[k].lastSeen)
    && (forall k :: 0 <= k < |t.sessions| ==> t.sessions[k].lastSeen <= now)
  }

  lemma NextSeesInOrder(t: Tables, step: Step, earlier: int)
    requires SeenInOrder(t, earlier) && earlier <= step.now
    ensures SeenInOrder(Next(t, step), step.now)
  {
  }

  /** No call refreshes `lastSeen` after sign-in, so over any run the column orders sessions by when they opened. */
  lemma {:induction false} SeenInOpeningOrder(steps: seq<Step>)
    requires |steps| > 0 && Clocked(steps)
    ensures SeenInOrder(Run(Tables([], []), steps), steps[|steps| - 1].now)
  {
    var front, last := steps[..|steps| - 1], steps[|steps| - 1];
    if |front| == 0 {
      NextSeesInOrder(Tables([], []), last, last.now);
    } else {
      SeenInOpeningOrder(front);
      NextSeesInOrder(Run(Tables([], []), front), last, front[|front| - 1].now);
    }
  }

  /** So eviction by least recent use is first in, first out: what goes opened no later than anything that stays. */
  lemma EvictionIsFirstInFirstOut(steps: seq<Step>, owner: Owner, evicted: set<RowId>, gone: RowId, kept: RowId)
    requires Clocked(steps)
    requires var t := Run(Tables([], []), steps);
             && EvictionOk(t, owner, evicted) && gone in evicted && kept in ActiveOf(t, owner) - evicted
    ensures var t := Run(Tables([], []), steps);
            gone < kept || t.sessions[gone].lastSeen == t.sessions[kept].lastSeen
  {
    var t := Run(Tables([], []), steps);
    if |steps| > 0 {
      SeenInOpeningOrder(steps);
    }
    assert gone in ActiveOf(t, owner);
  }
}
