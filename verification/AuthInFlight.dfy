/**
 * Sign-ins and refreshes in flight. The service opens no transaction: a refresh reads its token's row and decides,
 * revokes the row by its id alone, and then goes on like a sign-in, which enforces the cap, writes the session row and
 * writes the token row, one statement after the other, with other calls in between.
 */
module AuthInFlight {
  import opened Outcomes
  import opened Auth

  /** How far a call has come: tests passed, old token revoked, cap enforced, session written, token written. */
  datatype Phase = Passed | Revoked | Enforced | Opened(session: RowId) | Issued

  /** A refresh of `token`, or a sign-in, on its way to a new session and token for `account`. */
  datatype Request = Request(token: Option<RowId>, account: Owner, phase: Phase)

  datatype Flight = Flight(tables: Tables, requests: seq<Request>)

  datatype Action =
    | SignIn(owner: Owner)
    | Read(accounts: map<Owner, Standing>, sub: Id, audience: Audience, token: RowId, now: int)
    | Revoke(request: nat)
    | Enforce(request: nat, evicted: set<RowId>)
    | Open(request: nat, now: int)
    | Write(request: nat, now: int, ttl: int)
    | End(ids: set<RowId>)

  function Start(): Flight { Flight(Tables([], []), []) }

  /** What the tests of a refresh say of the tables as they are now. */
  predicate Passes(t: Tables, accounts: map<Owner, Standing>, sub: Id, audience: Audience, token: RowId, now: int) {
    Refresh(t, accounts, sub, audience, token, now, 0, {}).result.Ok?
  }

  predicate Spent(t: Tables, token: RowId) {
    token < |t.tokens| && t.tokens[token].revoked
  }

  predicate At(f: Flight, request: nat, phase: Phase) {
    request < |f.requests| && f.requests[request].phase == phase
  }

  function Advance(f: Flight, request: nat, phase: Phase): seq<Request>
    requires request < |f.requests|
  {
    f.requests[request := f.requests[request].(phase := phase)]
  }

  function OpenSession(t: Tables, owner: Owner, now: int): Tables {
    t.(sessions := t.sessions + [SessionRow(owner, true, now)])
  }

  function WriteToken(t: Tables, owner: Owner, session: RowId, expiresAt: int): Tables {
    t.(tokens := t.tokens + [TokenRow(owner, session, expiresAt, false)])
  }

  /** An action whose call has not come so far, or is past it, changes nothing. */
  function Act(f: Flight, a: Action): Flight {
    match a
    case SignIn(owner) => f.(requests := f.requests + [Request(None, owner, Phase.Revoked)])
    case Read(accounts, sub, audience, token, now) =>
      if Passes(f.tables, accounts, sub, audience, token, now) then
        f.(requests := f.requests + [Request(Some(token), Claimant(sub, audience), Passed)])
      else if Spent(f.tables, token) then f.(tables := RevokeAll(f.tables, sub))
      else f
    case Revoke(i) =>
      if At(f, i, Passed) && f.requests[i].token.Some? && f.requests[i].token.value < |f.tables.tokens| then
        Flight(Rotate(f.tables, f.requests[i].token.value), Advance(f, i, Phase.Revoked))
      else f
    case Enforce(i, evicted) =>
      if At(f, i, Phase.Revoked) then Flight(EndSessions(f.tables, evicted), Advance(f, i, Enforced)) else f
    case Open(i, now) =>
      if At(f, i, Enforced) then
        Flight(OpenSession(f.tables, f.requests[i].account, now), Advance(f, i, Opened(|f.tables.sessions|)))
      else f
    case Write(i, now, ttl) =>
      if i < |f.requests| && f.requests[i].phase.Opened? then
        var r := f.requests[i];
        Flight(WriteToken(f.tables, r.account, r.phase.session, now + ttl), Advance(f, i, Issued))
      else f
    case End(ids) => f.(tables := EndSessions(f.tables, ids))
  }

  function Play(f: Flight, actions: seq<Action>): Flight {
    if |actions| == 0 then f else Act(Play(f, actions[..|actions| - 1]), actions[|actions| - 1])
  }

  /** The database picked the rows it was asked for. */
  ghost predicate LegalAct(f: Flight, a: Action) {
    a.Enforce? && At(f, a.request, Phase.Revoked) ==> EvictionOk(f.tables, f.requests[a.request].account, a.evicted)
  }

  ghost predicate LegalPlay(f: Flight, actions: seq<Action>) {
    |actions| > 0 ==>
      && LegalPlay(f, actions[..|actions| - 1])
      && LegalAct(Play(f, actions[..|actions| - 1]), actions[|actions| - 1])
  }

  lemma OneMore(f: Flight, actions: seq<Action>, a: Action)
    ensures Play(f, actions + [a]) == Act(Play(f, actions), a)
    ensures LegalPlay(f, actions + [a]) <==> LegalPlay(f, actions) && LegalAct(Play(f, actions), a)
  {
    assert (actions + [a])[..|actions|] == actions;
  }

  lemma {:induction false} PlayOfConcat(f: Flight, first: seq<Action>, second: seq<Action>)
    ensures Play(f, first + second) == Play(Play(f, first), second)
  {
    if |second| == 0 {
      assert first + second == first;
    } else {
      var front, last := second[..|second| - 1], second[|second| - 1];
      PlayOfConcat(f, first, front);
      assert (first + second)[..|first + second| - 1] == first + front;
    }
  }

  lemma {:induction false} LegalConcat(f: Flight, first: seq<Action>, second: seq<Action>)
    requires LegalPlay(f, first) && LegalPlay(Play(f, first), second)
    ensures LegalPlay(f, first + second)
  {
    if |second| == 0 {
      assert first + second == first;
    } else {
      var front, last := second[..|second| - 1], second[|second| - 1];
      LegalConcat(f, first, front);
      PlayOfConcat(f, first, front);
      var all := first + second;
      assert all[..|all| - 1] == first + front && all[|all| - 1] == last;
    }
  }

  lemma OneFirst(f: Flight, a: Action, rest: seq<Action>)
    requires LegalAct(f, a) && LegalPlay(Act(f, a), rest)
    ensures LegalPlay(f, [a] + rest) && Play(f, [a] + rest) == Play(Act(f, a), rest)
  {
    var none: seq<Action> := [];
    OneMore(f, none, a);
    assert none + [a] == [a];
    PlayOfConcat(f, [a], rest);
    LegalConcat(f, [a], rest);
  }

  // ---------- counting requests ----------

  function Count(requests: seq<Request>, p: Request -> bool): nat {
    if |requests| == 0 then 0
    else Count(requests[..|requests| - 1], p) + (if p(requests[|requests| - 1]) then 1 else 0)
  }

  lemma CountOfAppend(requests: seq<Request>, r: Request, p: Request -> bool)
    ensures Count(requests + [r], p) == Count(requests, p) + (if p(r) then 1 else 0)
  {
    assert (requests + [r])[..|requests|] == requests;
  }

  lemma {:induction false} CountOfUpdate(requests: seq<Request>, i: nat, r: Request, p: Request -> bool)
    requires i < |requests|
    ensures Count(requests[i := r], p) ==
      Count(requests, p) - (if p(requests[i]) then 1 else 0) + (if p(r) then 1 else 0)
  {
    var front := requests[..|requests| - 1];
    if i == |requests| - 1 {
      assert requests[i := r][..|requests| - 1] == front;
    } else {
      CountOfUpdate(front, i, r, p);
      assert requests[i := r][..|requests| - 1] == front[i := r];
    }
  }

  lemma {:induction false} CountIsZeroIff(requests: seq<Request>, p: Request -> bool)
    ensures Count(requests, p) == 0 <==> forall i :: 0 <= i < |requests| ==> !p(requests[i])
  {
    if |requests| > 0 {
      var front, last := requests[..|requests| - 1], requests[|requests| - 1];
      CountIsZeroIff(front, p);
      assert requests == front + [last];
    }
  }

  // ---------- the cap ----------

  /** Between enforcing the cap for `owner` and writing the session row. */
  function IsPending(owner: Owner): Request -> bool {
    (r: Request) => r.phase.Enforced? && r.account == owner
  }

  function Pending(f: Flight, owner: Owner): nat {
    Count(f.requests, IsPending(owner))
  }

  /** Sessions open, and calls about to open one. */
  ghost function Load(f: Flight, owner: Owner): nat {
    |ActiveOf(f.tables, owner)| + Pending(f, owner)
  }

  /** A legal run in which `owner` never has more than `most` calls between enforcing the cap and writing. */
  ghost predicate AtMostPending(f: Flight, actions: seq<Action>, owner: Owner, most: nat) {
    && Pending(f, owner) <= most
    && (|actions| > 0 ==>
      && AtMostPending(f, actions[..|actions| - 1], owner, most)
      && LegalAct(Play(f, actions[..|actions| - 1]), actions[|actions| - 1])
      && Pending(Play(f, actions), owner) <= most)
  }

  lemma ActiveAfterOpening(t: Tables, account: Owner, now: int, owner: Owner)
    ensures |ActiveOf(OpenSession(t, account, now), owner)| ==
      |ActiveOf(t, owner)| + (if account == owner then 1 else 0)
  {
    var after := OpenSession(t, account, now);
    var added: set<RowId> := if account == owner then {|t.sessions|} else {};
    assert ActiveOf(after, owner) == ActiveOf(t, owner) + added;
    assert |t.sessions| !in ActiveOf(t, owner);
  }

  lemma PendingAfterEnforce(f: Flight, i: nat, evicted: set<RowId>, owner: Owner)
    requires At(f, i, Phase.Revoked)
    ensures Pending(Act(f, Enforce(i, evicted)), owner) ==
      Pending(f, owner) + (if f.requests[i].account == owner then 1 else 0)
  {
    CountOfUpdate(f.requests, i, f.requests[i].(phase := Enforced), IsPending(owner));
  }

  lemma ActiveAfterEnforcing(t: Tables, account: Owner, evicted: set<RowId>, owner: Owner)
    requires EvictionOk(t, account, evicted)
    ensures |ActiveOf(EndSessions(t, evicted), owner)| <= |ActiveOf(t, owner)|
    ensures account == owner ==> |ActiveOf(EndSessions(t, evicted), owner)| <= MAX_CONCURRENT_SESSIONS - 1
  {
    ActiveAfterEnding(t, evicted, owner);
    if account == owner {
      assert ActiveOf(t, owner) * evicted == evicted;
    }
  }

  lemma EnforceLoad(f: Flight, i: nat, evicted: set<RowId>, owner: Owner)
    requires At(f, i, Phase.Revoked) && EvictionOk(f.tables, f.requests[i].account, evicted)
    ensures var after := Act(f, Enforce(i, evicted));
            if f.requests[i].account == owner
            then Load(after, owner) <= MAX_CONCURRENT_SESSIONS - 1 + Pending(after, owner)
            else Load(after, owner) <= Load(f, owner)
  {
    PendingAfterEnforce(f, i, evicted, owner);
    ActiveAfterEnforcing(f.tables, f.requests[i].account, evicted, owner);
  }

  lemma OpenLoad(f: Flight, i: nat, now: int, owner: Owner)
    ensures Load(Act(f, Open(i, now)), owner) == Load(f, owner)
  {
    if At(f, i, Enforced) {
      CountOfUpdate(f.requests, i, f.requests[i].(phase := Opened(|f.tables.sessions|)), IsPending(owner));
      ActiveAfterOpening(f.tables, f.requests[i].account, now, owner);
    }
  }

  lemma AdvanceIsIdle(f: Flight, i: nat, phase: Phase, owner: Owner)
    requires i < |f.requests| && !phase.Enforced? && !f.requests[i].phase.Enforced?
    ensures Count(Advance(f, i, phase), IsPending(owner)) == Pending(f, owner)
  {
    CountOfUpdate(f.requests, i, f.requests[i].(phase := phase), IsPending(owner));
  }

  lemma EnrollIsIdle(f: Flight, r: Request, owner: Owner)
    requires !r.phase.Enforced?
    ensures Count(f.requests + [r], IsPending(owner)) == Pending(f, owner)
  {
    CountOfAppend(f.requests, r, IsPending(owner));
  }

  /** Nothing but enforcing and opening changes who is pending. */
  lemma IdlePending(f: Flight, a: Action, owner: Owner)
    requires !a.Enforce? && !a.Open?
    ensures Pending(Act(f, a), owner) == Pending(f, owner)
  {
    match a
    case SignIn(account) => EnrollIsIdle(f, Request(None, account, Phase.Revoked), owner);
    case Read(_, sub, audience, token, _) =>
      EnrollIsIdle(f, Request(Some(token), Claimant(sub, audience), Passed), owner);
    case Revoke(i) =>
      if Act(f, a) != f {
        AdvanceIsIdle(f, i, Phase.Revoked, owner);
      }
    case Write(i, _, _) =>
      if Act(f, a) != f {
        AdvanceIsIdle(f, i, Issued, owner);
      }
    case End(_) =>
  }

  lemma IdleActive(f: Flight, a: Action, owner: Owner)
    requires !a.Enforce? && !a.Open?
    ensures |ActiveOf(Act(f, a).tables, owner)| <= |ActiveOf(f.tables, owner)|
  {
    match a
    case Read(_, sub, _, _, _) => ActiveAfterEnding(f.tables, ActiveOf(f.tables, Customer(sub)), owner);
    case Revoke(i) =>
      if Act(f, a) != f {
        RotateKeepsOrder(f.tables, f.requests[i].token.value);
      }
    case Write(_, _, _) => assert ActiveOf(Act(f, a).tables, owner) == ActiveOf(f.tables, owner);
    case End(ids) => ActiveAfterEnding(f.tables, ids, owner);
    case _ =>
  }

  /** Every other action opens nothing and adds nobody. */
  lemma IdleLoad(f: Flight, a: Action, owner: Owner)
    requires !a.Enforce? && !a.Open?
    ensures Load(Act(f, a), owner) <= Load(f, owner) && Pending(Act(f, a), owner) == Pending(f, owner)
  {
    IdlePending(f, a, owner);
    IdleActive(f, a, owner);
  }

  lemma LoadAfter(f: Flight, a: Action, owner: Owner)
    requires LegalAct(f, a)
    ensures
      || Load(Act(f, a), owner) <= Load(f, owner)
      || Load(Act(f, a), owner) <= MAX_CONCURRENT_SESSIONS - 1 + Pending(Act(f, a), owner)
  {
    match a
    case Enforce(i, evicted) =>
      if At(f, i, Phase.Revoked) {
        EnforceLoad(f, i, evicted, owner);
      }
    case Open(i, now) => OpenLoad(f, i, now, owner);
    case _ => IdleLoad(f, a, owner);
  }

  /** Sign-ins and refreshes together: with at most `most` between enforcing and writing, the excess is below `most`. */
  lemma {:induction false} OvershootIsBounded(f: Flight, actions: seq<Action>, owner: Owner, most: nat)
    requires most >= 1 && Load(f, owner) <= MAX_CONCURRENT_SESSIONS - 1 + most
    requires AtMostPending(f, actions, owner, most)
    ensures Load(Play(f, actions), owner) <= MAX_CONCURRENT_SESSIONS - 1 + most
    ensures |ActiveOf(Play(f, actions).tables, owner)| <= MAX_CONCURRENT_SESSIONS - 1 + most
  {
    if |actions| > 0 {
      OvershootIsBounded(f, actions[..|actions| - 1], owner, most);
      LoadAfter(Play(f, actions[..|actions| - 1]), actions[|actions| - 1], owner);
    }
  }

  /** The first `n` requests, where they are pending for `owner`, write their session rows. */
  function OpenAll(f: Flight, owner: Owner, now: int, n: nat): (after: Flight)
    requires n <= |f.requests|
    ensures |after.requests| == |f.requests|
  {
    if n == 0 then f
    else
      var before := OpenAll(f, owner, now, n - 1);
      if IsPending(owner)(before.requests[n - 1]) then Act(before, Open(n - 1, now)) else before
  }

  lemma {:induction false} OpenAllKeepsLoad(f: Flight, owner: Owner, now: int, n: nat)
    requires n <= |f.requests|
    ensures Load(OpenAll(f, owner, now, n), owner) == Load(f, owner)
  {
    if n > 0 {
      OpenAllKeepsLoad(f, owner, now, n - 1);
      OpenLoad(OpenAll(f, owner, now, n - 1), n - 1, now, owner);
    }
  }

  lemma {:induction false} OpenAllOpens(f: Flight, owner: Owner, now: int, n: nat)
    requires n <= |f.requests|
    ensures forall i :: 0 <= i < n ==> !IsPending(owner)(OpenAll(f, owner, now, n).requests[i])
  {
    if n > 0 {
      OpenAllOpens(f, owner, now, n - 1);
    }
  }

  /** The calls in flight all end within the cap exactly when they fit beside the sessions open now. */
  lemma CapSurvivesIff(f: Flight, owner: Owner, now: int)
    ensures |ActiveOf(OpenAll(f, owner, now, |f.requests|).tables, owner)| <= MAX_CONCURRENT_SESSIONS <==>
      |ActiveOf(f.tables, owner)| + Pending(f, owner) <= MAX_CONCURRENT_SESSIONS
  {
    OpenAllKeepsLoad(f, owner, now, |f.requests|);
    OpenAllOpens(f, owner, now, |f.requests|);
    CountIsZeroIff(OpenAll(f, owner, now, |f.requests|).requests, IsPending(owner));
  }

  // ---------- every overshoot is reached ----------

  /** From empty tables, with at most `most` pending, to `active` open sessions and `pending` about to open. */
  ghost predicate Reaches(actions: seq<Action>, owner: Owner, most: nat, active: nat, pending: nat) {
    && AtMostPending(Start(), actions, owner, most)
    && |ActiveOf(Play(Start(), actions).tables, owner)| == active
    && Pending(Play(Start(), actions), owner) == pending
  }

  lemma OneMorePending(actions: seq<Action>, a: Action, owner: Owner, most: nat)
    requires AtMostPending(Start(), actions, owner, most)
    requires LegalAct(Play(Start(), actions), a) && Pending(Act(Play(Start(), actions), a), owner) <= most
    ensures AtMostPending(Start(), actions + [a], owner, most)
    ensures Play(Start(), actions + [a]) == Act(Play(Start(), actions), a)
  {
    assert (actions + [a])[..|actions|] == actions;
  }

  lemma EndNothing(t: Tables)
    ensures EndSessions(t, {}) == t
  {
  }

  /** Another sign-in enforces the cap; below it nothing is evicted. */
  lemma ThenEnforce(actions: seq<Action>, owner: Owner, most: nat, active: nat, pending: nat)
      returns (more: seq<Action>)
    requires Reaches(actions, owner, most, active, pending)
    requires active < MAX_CONCURRENT_SESSIONS && pending < most
    ensures Reaches(more, owner, most, active, pending + 1)
  {
    var f := Play(Start(), actions);
    IdleLoad(f, SignIn(owner), owner);
    OneMorePending(actions, SignIn(owner), owner, most);
    var signed := Act(f, SignIn(owner));
    var i := |f.requests|;
    CountOfUpdate(signed.requests, i, signed.requests[i].(phase := Enforced), IsPending(owner));
    EndNothing(f.tables);
    OneMorePending(actions + [SignIn(owner)], Enforce(i, {}), owner, most);
    more := actions + [SignIn(owner)] + [Enforce(i, {})];
  }

  lemma ThenOpen(actions: seq<Action>, owner: Owner, most: nat, active: nat, pending: nat)
      returns (more: seq<Action>)
    requires Reaches(actions, owner, most, active, pending) && pending > 0
    ensures Reaches(more, owner, most, active + 1, pending - 1)
  {
    var f := Play(Start(), actions);
    CountIsZeroIff(f.requests, IsPending(owner));
    var i: nat :| i < |f.requests| && IsPending(owner)(f.requests[i]);
    OpenLoad(f, i, 0, owner);
    ActiveAfterOpening(f.tables, owner, 0, owner);
    OneMorePending(actions, Open(i, 0), owner, most);
    more := actions + [Open(i, 0)];
  }

  /** One sign-in after the other, up to one below the cap. */
  lemma {:induction false} OneByOne(owner: Owner, most: nat, active: nat) returns (actions: seq<Action>)
    requires most >= 1 && active < MAX_CONCURRENT_SESSIONS
    ensures Reaches(actions, owner, most, active, 0)
  {
    if active == 0 {
      actions := [];
      assert ActiveOf(Start().tables, owner) == {};
    } else {
      actions := OneByOne(owner, most, active - 1);
      actions := ThenEnforce(actions, owner, most, active - 1, 0);
      actions := ThenOpen(actions, owner, most, active - 1, 1);
    }
  }

  /** Then many that enforce before any of them writes. */
  lemma {:induction false} ManyEnforce(owner: Owner, most: nat, pending: nat) returns (actions: seq<Action>)
    requires most >= 1 && pending <= most
    ensures Reaches(actions, owner, most, MAX_CONCURRENT_SESSIONS - 1, pending)
  {
    if pending == 0 {
      actions := OneByOne(owner, most, MAX_CONCURRENT_SESSIONS - 1);
    } else {
      actions := ManyEnforce(owner, most, pending - 1);
      actions := ThenEnforce(actions, owner, most, MAX_CONCURRENT_SESSIONS - 1, pending - 1);
    }
  }

  lemma {:induction false} ManyOpen(owner: Owner, most: nat, done: nat) returns (actions: seq<Action>)
    requires most >= 1 && done <= most
    ensures Reaches(actions, owner, most, MAX_CONCURRENT_SESSIONS - 1 + done, most - done)
  {
    if done == 0 {
      actions := ManyEnforce(owner, most, most);
    } else {
      actions := ManyOpen(owner, most, done - 1);
      actions := ThenOpen(actions, owner, most, MAX_CONCURRENT_SESSIONS - 1 + (done - 1), most - (done - 1));
    }
  }

  /** The bound is exact: for every n >= 1, a run from empty tables with at most n pending ends at cap - 1 + n. */
  lemma OvershootIsReached(owner: Owner, most: nat)
    requires most >= 1
    ensures exists actions ::
      && AtMostPending(Start(), actions, owner, most)
      && |ActiveOf(Play(Start(), actions).tables, owner)| == MAX_CONCURRENT_SESSIONS - 1 + most
  {
    var actions := ManyOpen(owner, most, most);
    assert AtMostPending(Start(), actions, owner, most);
  }

  // ---------- tokens and their sessions ----------

  /** Every token hangs on a session of its owner and no two on the same; a session just opened has none yet. */
  ghost predicate Linked(f: Flight) {
    var t := f.tables;
    && (forall i :: 0 <= i < |t.tokens| ==>
      t.tokens[i].session < |t.sessions| && t.sessions[t.tokens[i].session].owner == t.tokens[i].owner)
    && (forall i, j :: 0 <= i < j < |t.tokens| ==> t.tokens[i].session != t.tokens[j].session)
    && (forall k :: 0 <= k < |f.requests| ==> RequestLinked(t, f.requests[k]))
    && (forall k, l :: 0 <= k < l < |f.requests| && f.requests[k].phase.Opened? ==>
      f.requests[k].phase != f.requests[l].phase)
  }

  ghost predicate RequestLinked(t: Tables, r: Request) {
    && (r.token.Some? ==> r.token.value < |t.tokens|)
    && (r.token.None? ==> !r.phase.Passed?)
    && (r.phase.Opened? ==>
      && r.phase.session < |t.sessions| && t.sessions[r.phase.session].owner == r.account
      && forall i :: 0 <= i < |t.tokens| ==> t.tokens[i].session != r.phase.session)
  }

  /** A token that can still be exchanged although its session is closed. */
  predicate Orphan(t: Tables, token: RowId) {
    && token < |t.tokens| && !t.tokens[token].revoked
    && t.tokens[token].session < |t.sessions| && !t.sessions[t.tokens[token].session].active
  }

  ghost predicate Sound(t: Tables) {
    forall token: RowId :: !Orphan(t, token)
  }

  /** The token row is written although the session was closed since it was opened. */
  predicate WritesOnClosed(f: Flight, a: Action) {
    && a.Write? && a.request < |f.requests| && f.requests[a.request].phase.Opened?
    && f.requests[a.request].phase.session < |f.tables.sessions|
    && !f.tables.sessions[f.requests[a.request].phase.session].active
  }

  /** Rows may have been closed or revoked, nothing else. */
  ghost predicate SameRows(a: Tables, b: Tables) {
    && |a.sessions| == |b.sessions| && |a.tokens| == |b.tokens|
    && (forall i :: 0 <= i < |a.sessions| ==> a.sessions[i].owner == b.sessions[i].owner)
    && (forall i :: 0 <= i < |a.tokens| ==>
          a.tokens[i].owner == b.tokens[i].owner && a.tokens[i].session == b.tokens[i].session)
  }

  lemma SameRowsKeepLinks(f: Flight, t: Tables)
    requires Linked(f) && SameRows(f.tables, t)
    ensures Linked(f.(tables := t))
  {
    forall k | 0 <= k < |f.requests| ensures RequestLinked(t, f.requests[k]) {
      assert RequestLinked(f.tables, f.requests[k]);
    }
  }

  lemma EnrollKeepsLinks(f: Flight, r: Request)
    requires Linked(f) && RequestLinked(f.tables, r) && !r.phase.Opened?
    ensures Linked(f.(requests := f.requests + [r]))
  {
  }

  lemma AdvanceKeepsLinks(f: Flight, i: nat, phase: Phase)
    requires Linked(f) && i < |f.requests| && (phase.Revoked? || phase.Enforced? || phase.Issued?)
    ensures Linked(f.(requests := Advance(f, i, phase)))
  {
    assert RequestLinked(f.tables, f.requests[i]);
  }

  lemma OpenKeepsLinks(f: Flight, i: nat, now: int)
    requires Linked(f) && At(f, i, Enforced)
    ensures Linked(Act(f, Open(i, now)))
  {
    var after := Act(f, Open(i, now));
    forall k | 0 <= k < |after.requests| ensures RequestLinked(after.tables, after.requests[k]) {
      assert RequestLinked(f.tables, f.requests[k]);
    }
    forall k | 0 <= k < |f.requests| && f.requests[k].phase.Opened?
      ensures f.requests[k].phase.session != |f.tables.sessions|
    {
      assert RequestLinked(f.tables, f.requests[k]);
    }
  }

  lemma WriteKeepsLinks(f: Flight, i: nat, now: int, ttl: int)
    requires Linked(f) && i < |f.requests| && f.requests[i].phase.Opened?
    ensures Linked(Act(f, Write(i, now, ttl)))
  {
    var after := Act(f, Write(i, now, ttl));
    assert RequestLinked(f.tables, f.requests[i]);
    forall k | 0 <= k < |after.requests| ensures RequestLinked(after.tables, after.requests[k]) {
      assert RequestLinked(f.tables, f.requests[k]);
    }
  }

  lemma ActKeepsLinks(f: Flight, a: Action)
    requires Linked(f)
    ensures Linked(Act(f, a))
  {
    match a
    case SignIn(owner) => EnrollKeepsLinks(f, Request(None, owner, Phase.Revoked));
    case Read(accounts, sub, audience, token, now) =>
      if Passes(f.tables, accounts, sub, audience, token, now) {
        EnrollKeepsLinks(f, Request(Some(token), Claimant(sub, audience), Passed));
      } else {
        SameRowsKeepLinks(f, RevokeAll(f.tables, sub));
      }
    case Revoke(i) =>
      if Act(f, a) != f {
        SameRowsKeepLinks(f, Act(f, a).tables);
        AdvanceKeepsLinks(f.(tables := Act(f, a).tables), i, Phase.Revoked);
      }
    case Enforce(i, evicted) =>
      if At(f, i, Phase.Revoked) {
        SameRowsKeepLinks(f, EndSessions(f.tables, evicted));
        AdvanceKeepsLinks(f.(tables := EndSessions(f.tables, evicted)), i, Enforced);
      }
    case Open(i, now) =>
      if At(f, i, Enforced) {
        OpenKeepsLinks(f, i, now);
      }
    case Write(i, now, ttl) =>
      if Act(f, a) != f {
        WriteKeepsLinks(f, i, now, ttl);
      }
    case End(ids) => SameRowsKeepLinks(f, EndSessions(f.tables, ids));
  }

  /** Over every run, whatever interleaves, tokens stay linked to sessions of their own. */
  lemma {:induction false} PlayKeepsLinks(f: Flight, actions: seq<Action>)
    requires Linked(f)
    ensures Linked(Play(f, actions))
  {
    if |actions| > 0 {
      PlayKeepsLinks(f, actions[..|actions| - 1]);
      ActKeepsLinks(Play(f, actions[..|actions| - 1]), actions[|actions| - 1]);
    }
  }

  /** A token orphaned by an action was orphaned before, or is the one just written on a closed session. */
  lemma OrphansAfter(f: Flight, a: Action, token: RowId)
    requires Linked(f) && Orphan(Act(f, a).tables, token)
    ensures Orphan(f.tables, token) || (token == |f.tables.tokens| && WritesOnClosed(f, a))
  {
  }

  lemma ActIsSoundIff(f: Flight, a: Action)
    requires Linked(f) && Sound(f.tables)
    ensures Sound(Act(f, a).tables) <==> !WritesOnClosed(f, a)
  {
    if WritesOnClosed(f, a) {
      assert Orphan(Act(f, a).tables, |f.tables.tokens|);
    } else if token: RowId :| Orphan(Act(f, a).tables, token) {
      OrphansAfter(f, a, token);
    }
  }

  ghost predicate SoundThroughout(f: Flight, actions: seq<Action>) {
    && Sound(Play(f, actions).tables)
    && (|actions| > 0 ==> SoundThroughout(f, actions[..|actions| - 1]))
  }

  ghost predicate NeverWritesOnClosed(f: Flight, actions: seq<Action>) {
    |actions| > 0 ==>
      && NeverWritesOnClosed(f, actions[..|actions| - 1])
      && !WritesOnClosed(Play(f, actions[..|actions| - 1]), actions[|actions| - 1])
  }

  /**
   * At every point of a run each token that is not revoked hangs on an open session, exactly when no session is ever
   * closed between the writing of its row and of its token's.
   */
  lemma {:induction false} SoundThroughoutIff(f: Flight, actions: seq<Action>)
    requires Linked(f) && Sound(f.tables)
    ensures SoundThroughout(f, actions) <==> NeverWritesOnClosed(f, actions)
  {
    if |actions| > 0 {
      var front := actions[..|actions| - 1];
      SoundThroughoutIff(f, front);
      PlayKeepsLinks(f, front);
      if SoundThroughout(f, front) {
        assert Sound(Play(f, front).tables);
        ActIsSoundIff(Play(f, front), actions[|actions| - 1]);
      }
    }
  }

  /** Sign in, be closed by a bulk revocation after the session row, then write the token row. */
  function OrphanRun(owner: Owner): seq<Action> {
    [SignIn(owner), Enforce(0, {}), Open(0, 0), End({0}), Write(0, 0, 1)]
  }

  /** Step by step what that does from empty tables. */
  lemma OrphanRunEnds(owner: Owner)
    ensures LegalPlay(Start(), OrphanRun(owner))
    ensures Play(Start(), OrphanRun(owner)) ==
      Flight(Tables([SessionRow(owner, false, 0)], [TokenRow(owner, 0, 1, false)]), [Request(None, owner, Issued)])
  {
    var a := OrphanRun(owner);
    var none: seq<Action> := [];
    OneMore(Start(), none, a[0]);
    OneMore(Start(), [a[0]], a[1]);
    assert ActiveOf(Start().tables, owner) == {};
    assert Play(Start(), [a[0]] + [a[1]]) == Flight(Tables([], []), [Request(None, owner, Enforced)]);
    OneMore(Start(), [a[0]] + [a[1]], a[2]);
    var open := Flight(Tables([SessionRow(owner, true, 0)], []), [Request(None, owner, Opened(0))]);
    assert Play(Start(), [a[0]] + [a[1]] + [a[2]]) == open;
    OneMore(Start(), [a[0]] + [a[1]] + [a[2]], a[3]);
    assert EndSessions(open.tables, {0}) == Tables([SessionRow(owner, false, 0)], []);
    OneMore(Start(), [a[0]] + [a[1]] + [a[2]] + [a[3]], a[4]);
    assert none + [a[0]] == [a[0]];
    assert a == [a[0]] + [a[1]] + [a[2]] + [a[3]] + [a[4]];
  }

  /** From empty tables a token outlives its session: no session is open, and the token still refreshes. */
  lemma OrphanIsReached(owner: Owner)
    ensures var f := Play(Start(), OrphanRun(owner));
            && LegalPlay(Start(), OrphanRun(owner))
            && ActiveOf(f.tables, owner) == {} && Orphan(f.tables, 0)
            && Passes(f.tables, map[owner := Other], owner.id, if owner.Admin? then Console else Web, 0, 0)
  {
    OrphanRunEnds(owner);
  }
}
