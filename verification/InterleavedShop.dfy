/** Where the interleaved transactions come from: the sessions of a shop, each free to reserve or to be released. */
module InterleavedShop {
  import opened Outcomes
  import opened Lines
  import opened Catalog
  import opened Stock
  import opened Carts
  import opened Checkout
  import opened ShopSteps
  import opened ShopLaws
  import Interleaving
  import Progress = InterleavingProgress

  type World = Interleaving.World

  type Txn = Interleaving.Txn

  /** A session that holds stock has committed; one without a reservation may still reserve; the rest is over. */
  function TxnOf(session: Session): Txn {
    if Holds(session) then Interleaving.Committed(session.reservation.value.items)
    else if session.reservation.None? then Interleaving.Waiting(LinesOf(session.items))
    else Interleaving.Ended(LinesOf(session.items))
  }

  function TxnsOf(sessions: seq<Session>): seq<Txn> {
    seq(|sessions|, i requires 0 <= i < |sessions| => TxnOf(sessions[i]))
  }

  function WorldOf(s: Shop): World {
    Interleaving.World(s.inventory, TxnsOf(s.sessions))
  }

  lemma HoldingOfSession(session: Session, v: VariantId)
    ensures Demand(Interleaving.Holding(TxnOf(session)), v) == Contribution(session, v)
  {
  }

  /** What the transactions hold together is what the sessions hold together. */
  lemma {:induction false} HoldingsAreHeld(sessions: seq<Session>, v: VariantId)
    ensures Interleaving.Total(Interleaving.Holdings(TxnsOf(sessions)), v) == Held(sessions, v)
  {
    if |sessions| > 0 {
      var front := sessions[..|sessions| - 1];
      HoldingsAreHeld(front, v);
      HoldingOfSession(sessions[|sessions| - 1], v);
      var parts := Interleaving.Holdings(TxnsOf(sessions));
      assert parts[..|sessions| - 1] == Interleaving.Holdings(TxnsOf(front));
    }
  }

  lemma ShopIsSafe(s: Shop)
    requires ShopOk(s) && NoneNegative(s.inventory)
    ensures Interleaving.Safe(WorldOf(s))
  {
    forall v { HoldingsAreHeld(s.sessions, v); }
    forall i | 0 <= i < |s.sessions| ensures Interleaving.TxnOk(WorldOf(s).txns[i]) {
      assert SessionOk(s.sessions[i]);
      LinesArePositive(s.sessions[i]);
    }
  }

  /**
    * From every shop in order, however its sessions' reserves and releases interleave: nothing is ever oversold, and
    * the stock an observer sees is that of the completed transactions executed one after the other on the shop's own.
    */
  lemma ShopInterleavesSafely(s: Shop, actions: seq<Interleaving.Action>)
    requires ShopOk(s) && NoneNegative(s.inventory)
    ensures var after := Interleaving.Run(WorldOf(s), actions);
      && NoneNegative(after.inv)
      && Interleaving.ExecuteAll(s.inventory, Interleaving.History(WorldOf(s), actions)) ==
         Some(Interleaving.Seen(after))
  {
    ShopIsSafe(s);
    Interleaving.RunIsSafe(WorldOf(s), actions);
    Interleaving.InterleavingIsSerial(WorldOf(s), actions);
    Interleaving.SeenAtRest(WorldOf(s));
  }

  lemma TxnsOfUpdate(sessions: seq<Session>, id: nat, session: Session)
    requires id < |sessions|
    ensures TxnsOf(sessions[id := session]) == TxnsOf(sessions)[id := TxnOf(session)]
  {
  }

  /**
    * Left alone, the statements of a reserve are the reserve of the shop in one step: they commit exactly when it
    * succeeds, and leave the world of the shop it leaves.
    */
  lemma LoneReserveIsReserve(s: Shop, id: SessionId, userId: UserId, catalog: Catalog, now: int)
    requires ShopOk(s) && id < |s.sessions| && s.sessions[id].userId == userId
    requires s.sessions[id].status == Created && now <= s.sessions[id].expiresAt
    ensures var whole := Reserve(s, id, userId, catalog, now);
      var takes := Progress.TakeSome(id, catalog, |s.sessions[id].items|);
      var after := Interleaving.Run(WorldOf(s), takes + [Interleaving.Commit(id)]);
      && id < |after.txns|
      && (after.txns[id].Committed? <==> whole.result.Ok?)
      && (whole.result.Ok? ==> after == WorldOf(whole.shop))
  {
    var session := s.sessions[id];
    assert SessionOk(session);
    LinesArePositive(session);
    ReserveSucceedsIff(s, id, userId, catalog, now);
    Progress.LeftAloneCommitsIff(WorldOf(s), id, catalog);
    var whole := Reserve(s, id, userId, catalog, now);
    if whole.result.Ok? {
      TxnsOfUpdate(s.sessions, id, whole.shop.sessions[id]);
    }
  }

  /** Left alone, the statements of a release are the owner's cancel of a reserved session in one step. */
  lemma LoneReleaseIsCancel(s: Shop, id: SessionId)
    requires ShopOk(s) && NoneNegative(s.inventory) && id < |s.sessions| && s.sessions[id].status == Reserved
    ensures Interleaving.Run(WorldOf(s), Progress.GiveSome(id, |s.sessions[id].items| + 1)) ==
      WorldOf(Cancel(s, id, s.sessions[id].userId).shop)
  {
    var session := s.sessions[id];
    assert SessionOk(session);
    ShopIsSafe(s);
    Progress.LeftAloneReleases(WorldOf(s), id);
    CancelLaw(s, id, session.userId);
    var after := Cancel(s, id, session.userId).shop;
    TxnsOfUpdate(s.sessions, id, after.sessions[id]);
    assert after.sessions == s.sessions[id := after.sessions[id]];
  }
}
