/** Every step of the shop keeps it in order, and so does every run. */
module ShopInvariant {
  import opened Outcomes
  import opened Lines
  import opened Catalog
  import opened Stock
  import opened Carts
  import opened CartOps
  import opened Checkout
  import opened CheckoutLaws
  import opened ShopSteps

  // ---------- a new session against the cart it was made from ----------

  lemma {:induction false} LiveRows(rows: seq<Row>)
    ensures forall i :: 0 <= i < |Live(rows)| ==> Live(rows)[i] in rows && !Live(rows)[i].deleted
    ensures Distinct(rows) ==> Distinct(Live(rows))
  {
    if |rows| > 0 {
      var front := rows[..|rows| - 1];
      LiveRows(front);
      forall i | 0 <= i < |Live(front)|
        ensures Live(front)[i] in rows && (Distinct(rows) ==> Live(front)[i].variant != rows[|rows| - 1].variant)
      {
        var j :| 0 <= j < |front| && front[j] == Live(front)[i];
        assert rows[j] == front[j];
      }
    }
  }

  lemma {:induction false} SelectedRows(rows: seq<Row>)
    ensures forall i :: 0 <= i < |Selected(rows)| ==> Selected(rows)[i] in rows && Selected(rows)[i].isSelected
    ensures Distinct(rows) ==> Distinct(Selected(rows))
  {
    if |rows| > 0 {
      var front := rows[..|rows| - 1];
      SelectedRows(front);
      forall i | 0 <= i < |Selected(front)|
        ensures Selected(front)[i] in rows
        ensures Distinct(rows) ==> Selected(front)[i].variant != rows[|rows| - 1].variant
      {
        var j :| 0 <= j < |front| && front[j] == Selected(front)[i];
        assert rows[j] == front[j];
      }
    }
  }

  lemma SelectedAreOk(c: Cart)
    requires CartOk(c)
    ensures RowsOk(Selected(Live(c.rows))) && Distinct(Selected(Live(c.rows)))
  {
    LiveRows(c.rows);
    SelectedRows(Live(c.rows));
    var picked := Selected(Live(c.rows));
    forall i | 0 <= i < |picked|
      ensures RowOk(picked[i])
    {
      var j :| 0 <= j < |Live(c.rows)| && Live(c.rows)[j] == picked[i];
      var k :| 0 <= k < |c.rows| && c.rows[k] == picked[i];
      assert RowOk(c.rows[k]);
    }
  }

  /** What checkout computes from prices is what the cart had stored. */
  lemma {:induction false} SnapshotTotal(rows: seq<Row>)
    requires RowsOk(rows)
    ensures ItemTotal(Snapshot(rows)) == SubtotalSum(rows)
  {
    if |rows| > 0 {
      SnapshotTotal(rows[..|rows| - 1]);
      assert Snapshot(rows)[..|rows| - 1] == Snapshot(rows[..|rows| - 1]);
      assert RowOk(rows[|rows| - 1]);
    }
  }

  lemma NewSessionIsOk(userId: UserId, c: Cart, key: Option<string>, now: int)
    requires CartOk(c)
    ensures SessionOk(NewSession(userId, Selected(Live(c.rows)), key, now))
    ensures NewSession(userId, Selected(Live(c.rows)), key, now).subtotal == SubtotalSum(Selected(Live(c.rows)))
  {
    var picked := Selected(Live(c.rows));
    SelectedAreOk(c);
    SnapshotTotal(picked);
    forall i | 0 <= i < |picked|
      ensures ItemOk(Snapshot(picked)[i])
    {
      assert RowOk(picked[i]);
    }
  }

  // ---------- one step ----------

  /** Replacing a session by one that holds the same stock leaves the books as they were. */
  lemma ReplaceSession(s: Shop, id: SessionId, session: Session)
    requires ShopOk(s) && id < |s.sessions| && SessionOk(session)
    requires forall v :: Contribution(session, v) == Contribution(s.sessions[id], v)
    ensures ShopOk(s.(sessions := s.sessions[id := session]))
  {
    forall v { HeldOfUpdate(s.sessions, id, session, v); }
  }

  lemma AppendSession(s: Shop, session: Session)
    requires ShopOk(s) && SessionOk(session) && session.reservation.None?
    ensures ShopOk(s.(sessions := s.sessions + [session]))
  {
    forall v { HeldOfAppend(s.sessions, session, v); }
  }

  lemma CreateKeepsOrder(s: Shop, userId: UserId, key: Option<string>, catalog: Catalog, now: int)
    requires ShopOk(s)
    ensures ShopOk(CreateCheckout(s, userId, key, catalog, now).shop)
  {
    var after := CreateCheckout(s, userId, key, catalog, now).shop;
    if after != s {
      var session := NewSession(userId, Selected(Live(s.carts[userId].rows)), key, now);
      NewSessionIsOk(userId, s.carts[userId], key, now);
      AppendSession(s, session);
      assert after == s.(sessions := s.sessions + [session]);
    }
  }

  lemma ReserveKeepsOrder(s: Shop, id: SessionId, userId: UserId, catalog: Catalog, now: int)
    requires ShopOk(s)
    ensures ShopOk(Reserve(s, id, userId, catalog, now).shop)
  {
    var out := Reserve(s, id, userId, catalog, now);
    if out.result.Ok? {
      var session := s.sessions[id];
      var lines := LinesOf(session.items);
      LinesArePositive(session);
      ReserveLinesLaw(catalog, s.inventory, lines);
      assert SessionOk(out.shop.sessions[id]);
      TakenAgrees(s, id, out.shop.sessions[id]);
    }
  }

  lemma TakenAgrees(s: Shop, id: SessionId, session: Session)
    requires ShopOk(s) && id < |s.sessions| && s.sessions[id].reservation.None?
    requires SessionOk(session) && HasActive(session) && Covered(s.inventory, session.reservation.value.items)
    ensures StockAgrees(Taken(s.inventory, session.reservation.value.items), s.sessions[id := session])
  {
    var lines := session.reservation.value.items;
    LinesArePositive(session);
    forall v
      ensures Held(s.sessions[id := session], v) == Held(s.sessions, v) + Demand(lines, v)
      ensures v !in s.inventory ==> Demand(lines, v) == 0
    {
      HeldOfUpdate(s.sessions, id, session, v);
      DemandSign(lines, v);
      if Names(lines, v) {
        var i :| 0 <= i < |lines| && lines[i].variant == v;
        assert Demand(lines, lines[i].variant) <= Available(s.inventory, lines[i].variant);
      }
    }
  }

  lemma CloseKeepsOrder(s: Shop, id: SessionId, sessionStatus: SessionStatus, reservationStatus: ReservationStatus)
    requires ShopOk(s) && id < |s.sessions|
    requires sessionStatus == Cancelled || sessionStatus == Expired
    requires reservationStatus == Released || reservationStatus == Lapsed
    ensures ShopOk(Close(s, id, sessionStatus, reservationStatus))
  {
    var session := s.sessions[id];
    var after := Close(s, id, sessionStatus, reservationStatus);
    assert SessionOk(session) && SessionOk(after.sessions[id]);
    if HasActive(session) {
      ClampsNeverBite(s, id);
      forall v
        ensures Held(after.sessions, v) == Held(s.sessions, v) - Demand(session.reservation.value.items, v)
        ensures v !in s.inventory ==> Held(after.sessions, v) == 0
      {
        HeldOfUpdate(s.sessions, id, after.sessions[id], v);
        HeldCovers(s.sessions, v);
        HeldCovers(after.sessions, v);
      }
    } else {
      ReplaceSession(s, id, after.sessions[id]);
    }
  }

  lemma OrderKeepsOrder(s: Shop, id: SessionId, userId: UserId)
    requires ShopOk(s)
    ensures ShopOk(PlaceOrder(s, id, userId).shop)
  {
    var out := PlaceOrder(s, id, userId);
    if out.result.Ok? {
      assert SessionOk(s.sessions[id]);
      ReplaceSession(s, id, out.shop.sessions[id]);
    }
  }

  lemma AddressKeepsOrder(s: Shop, id: SessionId, userId: UserId, address: Address, now: int)
    requires ShopOk(s)
    ensures ShopOk(UpdateAddress(s, id, userId, address, now).shop)
  {
    var out := UpdateAddress(s, id, userId, address, now);
    if out.result.Ok? {
      assert SessionOk(s.sessions[id]);
      ReplaceSession(s, id, out.shop.sessions[id]);
    }
  }

  lemma CartStepKeepsOrder(s: Shop, userId: UserId, op: CartOp, catalog: Catalog)
    requires ShopOk(s)
    ensures ShopOk(CartCall(s, userId, op, catalog))
  {
    ApplyKeepsOrder(userId, CartOf(s, userId), op, catalog, s.inventory);
  }

  /** Every step, whether it succeeds or throws, keeps carts, sessions and stock in order. */
  lemma NextKeepsOrder(s: Shop, step: Step)
    requires ShopOk(s)
    ensures ShopOk(Next(s, step))
  {
    match step
    case CartStep(userId, op, catalog) => CartStepKeepsOrder(s, userId, op, catalog);
    case CreateStep(userId, key, catalog, now) => CreateKeepsOrder(s, userId, key, catalog, now);
    case AddressStep(id, userId, address, now) => AddressKeepsOrder(s, id, userId, address, now);
    case ReserveStep(id, userId, catalog, now) => ReserveKeepsOrder(s, id, userId, catalog, now);
    case CancelStep(id, userId) =>
      if Owned(s, id, userId) {
        CloseKeepsOrder(s, id, Cancelled, Released);
      }
    case BeginExpireStep(id) =>
    case FinishExpireStep(id) =>
      if id < |s.sessions| {
        CloseKeepsOrder(s, id, Expired, Lapsed);
      }
    case OrderStep(id, userId) => OrderKeepsOrder(s, id, userId);
    case AdjustStep(v, delta) =>
  }

  /**
    * Conservation and lockstep over every run: at every reachable shop available plus reserved is what is on hand,
    * reserved is exactly what the holding reservations add up to, every session's status fits its reservation,
    * and every cart's caches fit its rows.
    */
  lemma {:induction false} RunKeepsOrder(s: Shop, steps: seq<Step>)
    requires ShopOk(s)
    ensures ShopOk(Run(s, steps))
  {
    if |steps| > 0 {
      RunKeepsOrder(s, steps[..|steps| - 1]);
      NextKeepsOrder(Run(s, steps[..|steps| - 1]), steps[|steps| - 1]);
    }
  }

  lemma InitialIsOk(s: Shop)
    requires Initial(s)
    ensures ShopOk(s)
  {
  }
}
