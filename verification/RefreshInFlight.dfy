/** How often a refresh token is exchanged, and what a replay still stops, when calls interleave. */
module RefreshInFlight {
  import opened Outcomes
  import opened Auth
  import opened AuthRuns
  import opened AuthInFlight

  // ---------- a refresh in one piece ----------

  /** The steps a refresh has left once its tests have passed. */
  function Rest(request: nat, evicted: set<RowId>, now: int, ttl: int): seq<Action> {
    [Revoke(request), Enforce(request, evicted), Open(request, now), Write(request, now, ttl)]
  }

  lemma RestRuns(f: Flight, i: nat, evicted: set<RowId>, now: int, ttl: int)
    requires At(f, i, Passed) && f.requests[i].token.Some? && f.requests[i].token.value < |f.tables.tokens|
    ensures var r := f.requests[i];
            Play(f, Rest(i, evicted, now, ttl)) ==
            Flight(Issue(Rotate(f.tables, r.token.value), r.account, now, ttl, evicted), Advance(f, i, Issued))
  {
    var steps, none := Rest(i, evicted, now, ttl), [];
    OneMore(f, none, steps[0]);
    OneMore(f, [steps[0]], steps[1]);
    OneMore(f, [steps[0]] + [steps[1]], steps[2]);
    OneMore(f, [steps[0]] + [steps[1]] + [steps[2]], steps[3]);
    assert none + [steps[0]] == [steps[0]];
    assert steps == [steps[0]] + [steps[1]] + [steps[2]] + [steps[3]];
  }

  lemma RestIsLegal(f: Flight, i: nat, evicted: set<RowId>, now: int, ttl: int)
    requires At(f, i, Passed) && f.requests[i].token.Some? && f.requests[i].token.value < |f.tables.tokens|
    requires EvictionOk(f.tables, f.requests[i].account, evicted)
    ensures LegalPlay(f, Rest(i, evicted, now, ttl))
  {
    var steps, none := Rest(i, evicted, now, ttl), [];
    RotateKeepsOrder(f.tables, f.requests[i].token.value);
    OneMore(f, none, steps[0]);
    OneMore(f, [steps[0]], steps[1]);
    OneMore(f, [steps[0]] + [steps[1]], steps[2]);
    OneMore(f, [steps[0]] + [steps[1]] + [steps[2]], steps[3]);
    assert none + [steps[0]] == [steps[0]];
    assert steps == [steps[0]] + [steps[1]] + [steps[2]] + [steps[3]];
  }

  /** With nothing in between, the steps of a refresh are the refresh of the model in which calls do not overlap. */
  lemma UninterruptedIsRefresh(f: Flight, accounts: map<Owner, Standing>, sub: Id, audience: Audience, token: RowId,
                               now: int, ttl: int, evicted: set<RowId>)
    ensures var read := Act(f, Read(accounts, sub, audience, token, now));
            var whole := Refresh(f.tables, accounts, sub, audience, token, now, ttl, evicted);
            if whole.result.Ok? then Play(read, Rest(|f.requests|, evicted, now, ttl)).tables == whole.tables
            else read.tables == whole.tables
  {
    var read := Act(f, Read(accounts, sub, audience, token, now));
    if Passes(f.tables, accounts, sub, audience, token, now) {
      RestRuns(read, |f.requests|, evicted, now, ttl);
    }
  }

  /** The three statements a sign-in consists of. */
  function SignInSteps(request: nat, evicted: set<RowId>, now: int, ttl: int): seq<Action> {
    [Enforce(request, evicted), Open(request, now), Write(request, now, ttl)]
  }

  lemma SignInStepsRun(f: Flight, i: nat, evicted: set<RowId>, now: int, ttl: int)
    requires At(f, i, Phase.Revoked)
    ensures Play(f, SignInSteps(i, evicted, now, ttl)) ==
      Flight(Issue(f.tables, f.requests[i].account, now, ttl, evicted), Advance(f, i, Issued))
  {
    var steps, none := SignInSteps(i, evicted, now, ttl), [];
    OneMore(f, none, steps[0]);
    OneMore(f, [steps[0]], steps[1]);
    OneMore(f, [steps[0]] + [steps[1]], steps[2]);
    assert none + [steps[0]] == [steps[0]];
    assert steps == [steps[0]] + [steps[1]] + [steps[2]];
  }

  /** And the steps of a sign-in are that sign-in. */
  lemma UninterruptedIsSignIn(f: Flight, owner: Owner, now: int, ttl: int, evicted: set<RowId>)
    ensures Play(Act(f, SignIn(owner)), SignInSteps(|f.requests|, evicted, now, ttl)).tables ==
      Issue(f.tables, owner, now, ttl, evicted)
  {
    SignInStepsRun(Act(f, SignIn(owner)), |f.requests|, evicted, now, ttl);
  }

  // ---------- how often a token is exchanged ----------

  function IsWaiting(token: RowId): Request -> bool {
    (r: Request) => r.token == Some(token) && !r.phase.Issued?
  }

  function HasIssued(token: RowId): Request -> bool {
    (r: Request) => r.token == Some(token) && r.phase.Issued?
  }

  /** Refreshes of `token` that have passed the tests and not yet issued. */
  function Waiting(f: Flight, token: RowId): nat {
    Count(f.requests, IsWaiting(token))
  }

  /** Refreshes of `token` that have issued. */
  function Exchanged(f: Flight, token: RowId): nat {
    Count(f.requests, HasIssued(token))
  }

  /** The most refreshes of `token` that were ever in flight at once. */
  function Peak(f: Flight, actions: seq<Action>, token: RowId): int {
    if |actions| == 0 then Waiting(f, token)
    else Max(Peak(f, actions[..|actions| - 1], token), Waiting(Play(f, actions), token))
  }

  lemma TablesGrow(f: Flight, a: Action)
    ensures Grown(f.tables, Act(f, a).tables)
  {
  }

  /** A token some refresh has gone on with is revoked. */
  ghost predicate SpentWhenUsed(f: Flight, token: RowId) {
    forall i :: 0 <= i < |f.requests| && f.requests[i].token == Some(token) && !f.requests[i].phase.Passed? ==>
      Spent(f.tables, token)
  }

  lemma UnspentIsNotExchanged(f: Flight, token: RowId)
    requires SpentWhenUsed(f, token) && !Spent(f.tables, token)
    ensures Exchanged(f, token) == 0
  {
    CountIsZeroIff(f.requests, HasIssued(token));
  }

  lemma ActKeepsSpent(f: Flight, a: Action, token: RowId)
    requires SpentWhenUsed(f, token)
    ensures SpentWhenUsed(Act(f, a), token)
    ensures Spent(f.tables, token) ==> Spent(Act(f, a).tables, token)
  {
    TablesGrow(f, a);
    if a.Revoke? && Act(f, a) != f {
      assert Spent(Act(f, a).tables, f.requests[a.request].token.value);
    }
  }

  /** A read of `token` while it is unrevoked, the issue of a refresh of it, or neither. */
  ghost predicate CountsMove(f: Flight, after: Flight, token: RowId) {
    || (&& !Spent(f.tables, token) && !Spent(after.tables, token)
        && Exchanged(after, token) == Exchanged(f, token) && Waiting(after, token) == Waiting(f, token) + 1)
    || (&& Exchanged(after, token) == Exchanged(f, token) + 1 && Waiting(after, token) == Waiting(f, token) - 1)
    || (&& Exchanged(after, token) == Exchanged(f, token) && Waiting(after, token) == Waiting(f, token))
  }

  lemma EnrollCounts(f: Flight, r: Request, token: RowId)
    requires !r.phase.Issued?
    ensures Count(f.requests + [r], HasIssued(token)) == Exchanged(f, token)
    ensures Count(f.requests + [r], IsWaiting(token)) ==
      Waiting(f, token) + (if r.token == Some(token) then 1 else 0)
  {
    CountOfAppend(f.requests, r, HasIssued(token));
    CountOfAppend(f.requests, r, IsWaiting(token));
  }

  lemma AdvanceCounts(f: Flight, i: nat, phase: Phase, token: RowId)
    requires i < |f.requests| && !f.requests[i].phase.Issued?
    ensures var issued := if phase.Issued? && f.requests[i].token == Some(token) then 1 else 0;
            && Count(Advance(f, i, phase), HasIssued(token)) == Exchanged(f, token) + issued
            && Count(Advance(f, i, phase), IsWaiting(token)) == Waiting(f, token) - issued
  {
    CountOfUpdate(f.requests, i, f.requests[i].(phase := phase), HasIssued(token));
    CountOfUpdate(f.requests, i, f.requests[i].(phase := phase), IsWaiting(token));
  }

  lemma ActCounts(f: Flight, a: Action, token: RowId)
    ensures CountsMove(f, Act(f, a), token)
  {
    match a
    case SignIn(owner) => EnrollCounts(f, Request(None, owner, Phase.Revoked), token);
    case Read(_, sub, audience, read, _) =>
      EnrollCounts(f, Request(Some(read), Claimant(sub, audience), Passed), token);
    case Revoke(i) =>
      if Act(f, a) != f {
        AdvanceCounts(f, i, Phase.Revoked, token);
      }
    case Enforce(i, _) =>
      if At(f, i, Phase.Revoked) {
        AdvanceCounts(f, i, Enforced, token);
      }
    case Open(i, _) =>
      if At(f, i, Enforced) {
        AdvanceCounts(f, i, Opened(|f.tables.sessions|), token);
      }
    case Write(i, _, _) =>
      if Act(f, a) != f {
        AdvanceCounts(f, i, Issued, token);
      }
    case End(_) =>
  }

  /**
   * Over every interleaving, the exchanges of a token and its refreshes still in flight are together exactly the most
   * that were ever in flight at once. So with at most n in flight a token is exchanged at most n times.
   */
  lemma {:induction false} ExchangesAreThePeak(f: Flight, actions: seq<Action>, token: RowId)
    requires f.requests == []
    ensures var after := Play(f, actions);
            && Exchanged(after, token) + Waiting(after, token) == Peak(f, actions, token)
            && SpentWhenUsed(after, token)
  {
    if |actions| > 0 {
      var before, last := Play(f, actions[..|actions| - 1]), actions[|actions| - 1];
      ExchangesAreThePeak(f, actions[..|actions| - 1], token);
      ActCounts(before, last, token);
      ActKeepsSpent(before, last, token);
      if !Spent(before.tables, token) {
        UnspentIsNotExchanged(before, token);
      }
    }
  }

  /** Once all its refreshes have issued, a token was exchanged at most once exactly when no two of them overlapped. */
  lemma ExchangedOnceIff(f: Flight, actions: seq<Action>, token: RowId)
    requires f.requests == [] && Waiting(Play(f, actions), token) == 0
    ensures Exchanged(Play(f, actions), token) <= 1 <==> Peak(f, actions, token) <= 1
  {
    ExchangesAreThePeak(f, actions, token);
  }

  // ---------- every peak is reached ----------

  /** A customer has signed in and `n` refreshes of that one token have passed, the first `m` of them issued. */
  ghost predicate OverlapReached(actions: seq<Action>, n: nat, m: nat) {
    var f := Play(Start(), actions);
    && LegalPlay(Start(), actions) && AuthOk(f.tables)
    && |f.requests| == n + 1 && f.requests[0] == Request(None, Customer(0), Issued)
    && (forall k :: 1 <= k <= n ==>
          f.requests[k] == Request(Some(0), Customer(0), if k <= m then Issued else Passed))
    && |f.tables.tokens| > 0
    && f.tables.tokens[0] == TokenRow(Customer(0), 0, 1, m > 0)
  }

  function FirstSignIn(): seq<Action> {
    [SignIn(Customer(0)), Enforce(0, {}), Open(0, 0), Write(0, 0, 1)]
  }

  lemma SignedInReached()
    ensures OverlapReached(FirstSignIn(), 0, 0)
  {
    var a, none := FirstSignIn(), [];
    assert ActiveOf(Start().tables, Customer(0)) == {};
    OneMore(Start(), none, a[0]);
    OneMore(Start(), [a[0]], a[1]);
    EndNothing(Start().tables);
    assert Play(Start(), [a[0]] + [a[1]]) == Flight(Tables([], []), [Request(None, Customer(0), Enforced)]);
    OneMore(Start(), [a[0]] + [a[1]], a[2]);
    OneMore(Start(), [a[0]] + [a[1]] + [a[2]], a[3]);
    assert none + [a[0]] == [a[0]];
    assert a == [a[0]] + [a[1]] + [a[2]] + [a[3]];
    StartIsOk();
    IssueKeepsOrder(Tables([], []), Customer(0), 0, 1, {});
    assert Play(Start(), a).tables == Issue(Tables([], []), Customer(0), 0, 1, {});
  }

  lemma {:induction false} ReadsReach(n: nat) returns (actions: seq<Action>)
    ensures OverlapReached(actions, n, 0)
  {
    if n == 0 {
      actions := FirstSignIn();
      SignedInReached();
    } else {
      var before := ReadsReach(n - 1);
      var read := Read(map[Customer(0) := Other], 0, Web, 0, 0);
      OneMore(Start(), before, read);
      actions := before + [read];
    }
  }

  lemma {:induction false} IssuesReach(n: nat, m: nat) returns (actions: seq<Action>)
    requires m <= n
    ensures OverlapReached(actions, n, m)
  {
    if m == 0 {
      actions := ReadsReach(n);
    } else {
      var before := IssuesReach(n, m - 1);
      var f := Play(Start(), before);
      EvictionExists(f.tables, Customer(0));
      var evicted :| EvictionOk(f.tables, Customer(0), evicted);
      RestRuns(f, m, evicted, 0, 1);
      RestIsLegal(f, m, evicted, 0, 1);
      PlayOfConcat(Start(), before, Rest(m, evicted, 0, 1));
      LegalConcat(Start(), before, Rest(m, evicted, 0, 1));
      RotateKeepsOrder(f.tables, 0);
      IssueKeepsOrder(Rotate(f.tables, 0), Customer(0), 0, 1, evicted);
      actions := before + Rest(m, evicted, 0, 1);
    }
  }

  lemma {:induction false} OverlapCounts(requests: seq<Request>, n: nat, m: nat)
    requires m <= n && |requests| == n + 1 && requests[0].token.None?
    requires forall k :: 1 <= k <= n ==>
      requests[k] == Request(Some(0), Customer(0), if k <= m then Issued else Passed)
    ensures Count(requests, HasIssued(0)) == m && Count(requests, IsWaiting(0)) == n - m
  {
    var front := requests[..n];
    if n == 0 {
      assert front == [];
    } else {
      OverlapCounts(front, n - 1, if m == n then m - 1 else m);
    }
  }

  /** From empty tables, for every n, n refreshes that overlap exchange one token n times. */
  lemma EveryPeakIsReached(n: nat)
    ensures exists actions ::
      && LegalPlay(Start(), actions)
      && Exchanged(Play(Start(), actions), 0) == n == Peak(Start(), actions, 0)
      && Waiting(Play(Start(), actions), 0) == 0
  {
    var actions := IssuesReach(n, n);
    OverlapCounts(Play(Start(), actions).requests, n, n);
    ExchangesAreThePeak(Start(), actions, 0);
    assert LegalPlay(Start(), actions);
  }

  // ---------- after a replay ----------

  /** Once a token is revoked, its refreshes in flight can only turn into exchanges. */
  lemma {:induction false} SpentConserves(f: Flight, actions: seq<Action>, token: RowId)
    requires Spent(f.tables, token)
    ensures var after := Play(f, actions);
            && Spent(after.tables, token)
            && Exchanged(after, token) + Waiting(after, token) == Exchanged(f, token) + Waiting(f, token)
  {
    if |actions| > 0 {
      var before := Play(f, actions[..|actions| - 1]);
      SpentConserves(f, actions[..|actions| - 1], token);
      ActCounts(before, actions[|actions| - 1], token);
      TablesGrow(before, actions[|actions| - 1]);
    }
  }

  /** No request made after `f` is about `token`, and the requests made before are still about what they were. */
  ghost predicate OnlyOldRequests(f: Flight, after: Flight, token: RowId) {
    && |f.requests| <= |after.requests|
    && (forall k :: 0 <= k < |f.requests| ==> after.requests[k].token == f.requests[k].token)
    && (forall k :: |f.requests| <= k < |after.requests| ==> after.requests[k].token != Some(token))
  }

  lemma {:induction false} NoNewRequests(f: Flight, actions: seq<Action>, token: RowId)
    requires Spent(f.tables, token)
    ensures OnlyOldRequests(f, Play(f, actions), token) && Spent(Play(f, actions).tables, token)
  {
    if |actions| > 0 {
      var before := Play(f, actions[..|actions| - 1]);
      NoNewRequests(f, actions[..|actions| - 1], token);
      TablesGrow(before, actions[|actions| - 1]);
    }
  }

  /** The replay revokes every token of the customer but the orphans. */
  lemma ReplaySpendsUnlessOrphan(f: Flight, replay: Action, token: RowId)
    requires Linked(f) && replay.Read? && Spent(f.tables, replay.token)
    requires token < |f.tables.tokens| && f.tables.tokens[token].owner == Customer(replay.sub)
    ensures Act(f, replay).requests == f.requests
    ensures Spent(Act(f, replay).tables, token) <==> !Orphan(f.tables, token)
    ensures Orphan(f.tables, token) ==> Orphan(Act(f, replay).tables, token)
  {
    var session := f.tables.tokens[token].session;
    assert session in ActiveOf(f.tables, Customer(replay.sub)) <==> f.tables.sessions[session].active;
  }

  /**
   * After a customer's revoked token is replayed, no refresh made later is about a token that customer had before,
   * save for tokens whose session had been closed before they were written: the bulk revocation looks for open
   * sessions.
   */
  lemma OnlyStragglersSurviveReplay(f: Flight, replay: Action, later: seq<Action>, token: RowId)
    requires Linked(f) && replay.Read? && Spent(f.tables, replay.token)
    requires token < |f.tables.tokens| && f.tables.tokens[token].owner == Customer(replay.sub)
    ensures Orphan(f.tables, token) || OnlyOldRequests(f, Play(Act(f, replay), later), token)
  {
    ReplaySpendsUnlessOrphan(f, replay, token);
    if !Orphan(f.tables, token) {
      NoNewRequests(Act(f, replay), later, token);
    }
  }

  // ---------- letting one request finish ----------

  function StepsLeft(phase: Phase): nat {
    match phase
    case Passed => 4
    case Revoked => 3
    case Enforced => 2
    case Opened(_) => 1
    case Issued => 0
  }

  /** What finishing one request leaves: a token more, and of the usable ones only that and some of the old. */
  ghost predicate Finished(f: Flight, i: nat, after: Flight, now: int)
    requires i < |f.requests|
  {
    && after.requests == Advance(f, i, Issued)
    && |after.tables.tokens| == |f.tables.tokens| + 1
    && |f.tables.tokens| in UsableOf(after.tables, f.requests[i].account, now)
    && forall owner :: UsableOf(after.tables, owner, now) <= UsableOf(f.tables, owner, now) + {|f.tables.tokens|}
  }

  lemma UsableAfterStep(f: Flight, a: Action, now: int, owner: Owner)
    requires a.Revoke? || a.Enforce? || a.Open?
    ensures UsableOf(Act(f, a).tables, owner, now) <= UsableOf(f.tables, owner, now)
    ensures |Act(f, a).tables.tokens| == |f.tables.tokens|
  {
  }

  /** Whatever a request has left to do, it can do on its own. */
  lemma {:induction false} Finish(f: Flight, i: nat, now: int) returns (actions: seq<Action>)
    requires Linked(f) && i < |f.requests| && !f.requests[i].phase.Issued?
    ensures LegalPlay(f, actions) && Finished(f, i, Play(f, actions), now)
    decreases StepsLeft(f.requests[i].phase)
  {
    assert RequestLinked(f.tables, f.requests[i]);
    var a: Action;
    match f.requests[i].phase {
      case Passed => a := Revoke(i);
      case Revoked =>
        EvictionExists(f.tables, f.requests[i].account);
        var evicted :| EvictionOk(f.tables, f.requests[i].account, evicted);
        a := Enforce(i, evicted);
      case Enforced => a := Open(i, now);
      case Opened(_) => a := Write(i, now, 0);
    }
    var next, rest := Act(f, a), [];
    if !a.Write? {
      ActKeepsLinks(f, a);
      rest := Finish(next, i, now);
      FinishedAfterStep(f, i, a, Play(next, rest), now);
    }
    OneFirst(f, a, rest);
    actions := [a] + rest;
  }

  lemma FinishedAfterStep(f: Flight, i: nat, a: Action, after: Flight, now: int)
    requires (a.Revoke? || a.Enforce? || a.Open?) && i == a.request && i < |f.requests|
    requires Act(f, a).requests == Advance(f, i, Act(f, a).requests[i].phase) && Finished(Act(f, a), i, after, now)
    ensures Finished(f, i, after, now)
  {
    forall owner { UsableAfterStep(f, a, now, owner); }
  }

  lemma WaitingIsARequest(f: Flight, token: RowId)
    requires Waiting(f, token) > 0
    ensures exists i :: 0 <= i < |f.requests| && IsWaiting(token)(f.requests[i])
  {
    CountIsZeroIff(f.requests, IsWaiting(token));
  }

  lemma WaitingCanIssue(f: Flight, token: RowId) returns (later: seq<Action>)
    requires Linked(f) && Waiting(f, token) > 0
    ensures LegalPlay(f, later) && Exchanged(Play(f, later), token) == Exchanged(f, token) + 1
  {
    WaitingIsARequest(f, token);
    var i: nat :| i < |f.requests| && IsWaiting(token)(f.requests[i]);
    later := Finish(f, i, 0);
    AdvanceCounts(f, i, Issued, token);
  }

  lemma OrphanCanBeRead(f: Flight, token: RowId) returns (read: Action)
    requires Linked(f) && Orphan(f.tables, token)
    ensures LegalAct(f, read) && Linked(Act(f, read))
    ensures Exchanged(Act(f, read), token) == Exchanged(f, token) && Waiting(Act(f, read), token) > 0
  {
    var row := f.tables.tokens[token];
    var audience := if row.owner.Admin? then Console else Web;
    read := Read(map[row.owner := Other], row.owner.id, audience, token, row.expiresAt);
    assert Passes(f.tables, read.accounts, read.sub, read.audience, token, read.now);
    ActKeepsLinks(f, read);
    EnrollCounts(f, Request(Some(token), row.owner, Passed), token);
  }

  lemma OrphanCanIssue(f: Flight, token: RowId) returns (later: seq<Action>)
    requires Linked(f) && Orphan(f.tables, token)
    ensures LegalPlay(f, later) && Exchanged(Play(f, later), token) == Exchanged(f, token) + 1
  {
    var read := OrphanCanBeRead(f, token);
    var rest := WaitingCanIssue(Act(f, read), token);
    OneFirst(f, read, rest);
    later := [read] + rest;
  }

  /** Some run exchanges the token once more. */
  ghost predicate CanStillIssue(f: Flight, token: RowId) {
    exists later :: LegalPlay(f, later) && Exchanged(Play(f, later), token) > Exchanged(f, token)
  }

  /**
   * After a customer's revoked token is replayed, a token that customer had before can still be exchanged in some run
   * exactly when a refresh of it was past its read, or its session had been closed before it was written.
   */
  lemma ReplayIsFinalIff(f: Flight, replay: Action, token: RowId)
    requires Linked(f) && replay.Read? && Spent(f.tables, replay.token)
    requires token < |f.tables.tokens| && f.tables.tokens[token].owner == Customer(replay.sub)
    ensures CanStillIssue(Act(f, replay), token) <==> Waiting(f, token) > 0 || Orphan(f.tables, token)
  {
    var replayed := Act(f, replay);
    ReplaySpendsUnlessOrphan(f, replay, token);
    ActKeepsLinks(f, replay);
    if later :| LegalPlay(replayed, later) && Exchanged(Play(replayed, later), token) > Exchanged(f, token) {
      if Spent(replayed.tables, token) {
        SpentConserves(replayed, later, token);
      }
    }
    if Waiting(f, token) > 0 {
      var later := WaitingCanIssue(replayed, token);
      assert LegalPlay(replayed, later) && Exchanged(Play(replayed, later), token) > Exchanged(f, token);
    } else if Orphan(f.tables, token) {
      var later := OrphanCanIssue(replayed, token);
      assert LegalPlay(replayed, later) && Exchanged(Play(replayed, later), token) > Exchanged(f, token);
    }
  }

  /** The replay leaves the customer nothing usable exactly when no orphan of the customer is left to expire. */
  lemma ReplayEmptiesIff(f: Flight, replay: Action)
    requires Linked(f) && replay.Read? && Spent(f.tables, replay.token)
    ensures UsableOf(Act(f, replay).tables, Customer(replay.sub), replay.now) == {} <==>
      forall token :: token in UsableOf(f.tables, Customer(replay.sub), replay.now) ==> !Orphan(f.tables, token)
  {
    var owner := Customer(replay.sub);
    forall token: RowId | token < |f.tables.tokens|
      ensures token in UsableOf(Act(f, replay).tables, owner, replay.now) <==>
        token in UsableOf(f.tables, owner, replay.now) && Orphan(f.tables, token)
    {
      if f.tables.tokens[token].owner == owner {
        ReplaySpendsUnlessOrphan(f, replay, token);
      }
    }
  }

  /**
   * A request of the customer that was still on its way, refresh or sign-in, can finish after the replay, and then the
   * customer whom the replay left with nothing has exactly one usable token again.
   */
  lemma StragglerOutlivesReplay(f: Flight, replay: Action, request: nat)
    requires Linked(f) && Sound(f.tables) && replay.Read? && Spent(f.tables, replay.token)
    requires request < |f.requests| && !f.requests[request].phase.Issued?
    requires f.requests[request].account == Customer(replay.sub)
    ensures var replayed, owner := Act(f, replay), Customer(replay.sub);
            && UsableOf(replayed.tables, owner, replay.now) == {}
            && exists later :: LegalPlay(replayed, later) &&
                 UsableOf(Play(replayed, later).tables, owner, replay.now) == {|f.tables.tokens|}
  {
    var replayed, owner := Act(f, replay), Customer(replay.sub);
    ReplayEmptiesIff(f, replay);
    ActKeepsLinks(f, replay);
    var later := Finish(replayed, request, replay.now);
    assert UsableOf(Play(replayed, later).tables, owner, replay.now) == {|f.tables.tokens|};
  }

  /** From empty tables: two refreshes of one token overlap, one issues, the token is replayed, the other issues. */
  lemma StragglerIsReached()
    ensures exists actions ::
      var f, replay := Play(Start(), actions), Read(map[Customer(0) := Other], 0, Web, 0, 0);
      && LegalPlay(Start(), actions) && Linked(f) && Sound(f.tables)
      && Spent(f.tables, replay.token) && Waiting(f, 0) == 1
      && UsableOf(Act(f, replay).tables, Customer(0), 0) == {}
      && exists later :: LegalPlay(Act(f, replay), later) &&
           UsableOf(Play(Act(f, replay), later).tables, Customer(0), 0) == {|f.tables.tokens|}
  {
    var actions := IssuesReach(2, 1);
    var f, replay := Play(Start(), actions), Read(map[Customer(0) := Other], 0, Web, 0, 0);
    OverlapCounts(f.requests, 2, 1);
    PlayKeepsLinks(Start(), actions);
    PairedIsSound(f.tables);
    StragglerOutlivesReplay(f, replay, 2);
    assert LegalPlay(Start(), actions);
  }

  lemma PairedIsSound(t: Tables)
    requires Paired(t)
    ensures Sound(t)
  {
  }
}
