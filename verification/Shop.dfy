/** The whole shop as one state machine: every cart and checkout step, and what all of them keep. */
module ShopSteps {
  import opened Outcomes
  import opened Lines
  import opened Catalog
  import opened Stock
  import opened Carts
  import opened CartOps
  import opened Checkout

  datatype Step =
    | CartStep(cartUser: UserId, op: CartOp, cartCatalog: Catalog)
    | CreateStep(buyer: UserId, key: Option<string>, catalog: Catalog, now: int)
    | AddressStep(id: SessionId, userId: UserId, address: Address, at: int)
    | ReserveStep(id: SessionId, userId: UserId, stockCatalog: Catalog, when: int)
    | CancelStep(id: SessionId, userId: UserId)
    | BeginExpireStep(id: SessionId)
    | FinishExpireStep(id: SessionId)
    | OrderStep(id: SessionId, userId: UserId)
    | AdjustStep(variant: VariantId, delta: int)

  function CartOf(s: Shop, userId: UserId): Option<Cart> {
    if userId in s.carts then Some(s.carts[userId]) else None
  }

  function WithCart(s: Shop, userId: UserId, cart: Option<Cart>): Shop {
    s.(carts := if cart.Some? then s.carts[userId := cart.value] else s.carts - {userId})
  }

  /** One call of the cart service. */
  function CartCall(s: Shop, userId: UserId, op: CartOp, catalog: Catalog): Shop {
    WithCart(s, userId, Apply(userId, CartOf(s, userId), op, catalog, s.inventory))
  }

  function Next(s: Shop, step: Step): Shop {
    match step
    case CartStep(userId, op, catalog) => CartCall(s, userId, op, catalog)
    case CreateStep(userId, key, catalog, now) => CreateCheckout(s, userId, key, catalog, now).shop
    case AddressStep(id, userId, address, now) => UpdateAddress(s, id, userId, address, now).shop
    case ReserveStep(id, userId, catalog, now) => Reserve(s, id, userId, catalog, now).shop
    case CancelStep(id, userId) => Cancel(s, id, userId).shop
    case BeginExpireStep(id) => BeginExpire(s, id)
    case FinishExpireStep(id) => FinishExpire(s, id)
    case OrderStep(id, userId) => PlaceOrder(s, id, userId).shop
    case AdjustStep(v, delta) => s.(inventory := AdjustStock(s.inventory, v, delta))
  }

  /** The shop after a whole run. */
  function Run(s: Shop, steps: seq<Step>): Shop {
    if |steps| == 0 then s else Next(Run(s, steps[..|steps| - 1]), steps[|steps| - 1])
  }

  // ---------- what is reserved, and by whom ----------

  /** A reservation holds its stock while active, and keeps it once an order took it over. */
  predicate Holds(session: Session) {
    && session.reservation.Some?
    && (session.reservation.value.status == Active || session.reservation.value.status == Confirmed)
  }

  function Contribution(session: Session, v: VariantId): int {
    if Holds(session) then Demand(session.reservation.value.items, v) else 0
  }

  /** The stock of `v` held by all sessions together. */
  function Held(sessions: seq<Session>, v: VariantId): int {
    if |sessions| == 0 then 0
    else Held(sessions[..|sessions| - 1], v) + Contribution(sessions[|sessions| - 1], v)
  }

  predicate ItemOk(item: CheckoutItem) {
    item.quantity >= 1 && item.lineSubtotal == item.unitPrice * item.quantity
  }

  /** Status and reservation move in lockstep. */
  predicate Lockstep(session: Session) {
    && (session.status == Created ==> session.reservation.None?)
    && (session.status == Reserved <==> HasActive(session))
    && (session.status == Completed ==> session.reservation.Some? && session.reservation.value.status == Confirmed)
  }

  ghost predicate SessionOk(session: Session) {
    && (forall i :: 0 <= i < |session.items| ==> ItemOk(session.items[i]))
    && (forall i, j :: 0 <= i < j < |session.items| ==> session.items[i].variant != session.items[j].variant)
    && session.subtotal == ItemTotal(session.items)
    && session.grandTotal == session.subtotal
    && (session.reservation.Some? ==> session.reservation.value.items == LinesOf(session.items))
    && Lockstep(session)
  }

  ghost predicate SessionsOk(sessions: seq<Session>) {
    forall i :: 0 <= i < |sessions| ==> SessionOk(sessions[i])
  }

  /** Conservation: available and reserved add up to what is on hand, and reserved is what the sessions hold. */
  ghost predicate StockAgrees(inv: Inventory, sessions: seq<Session>) {
    && Balanced(inv)
    && (forall v :: v in inv ==> inv[v].onHand >= 0 && inv[v].reserved == Held(sessions, v))
    && (forall v :: v !in inv ==> Held(sessions, v) == 0)
  }

  ghost predicate CartsOk(carts: map<UserId, Cart>) {
    forall u :: u in carts ==> CartOk(carts[u])
  }

  ghost predicate ShopOk(s: Shop) {
    CartsOk(s.carts) && SessionsOk(s.sessions) && StockAgrees(s.inventory, s.sessions)
  }

  /** A freshly stocked shop nobody has used yet. */
  ghost predicate Initial(s: Shop) {
    && s.carts == map[] && s.sessions == [] && s.sweeping == multiset{}
    && forall v :: v in s.inventory ==>
         s.inventory[v].onHand >= 0 && s.inventory[v].available == s.inventory[v].onHand && s.inventory[v].reserved == 0
  }

  // ---------- sums over sessions ----------

  lemma {:induction false} HeldOfUpdate(sessions: seq<Session>, i: nat, session: Session, v: VariantId)
    requires i < |sessions|
    ensures Held(sessions[i := session], v) ==
      Held(sessions, v) - Contribution(sessions[i], v) + Contribution(session, v)
  {
    var front := sessions[..|sessions| - 1];
    if i == |sessions| - 1 {
      assert sessions[i := session][..|sessions| - 1] == front;
    } else {
      HeldOfUpdate(front, i, session, v);
      assert sessions[i := session][..|sessions| - 1] == front[i := session];
    }
  }

  lemma HeldOfAppend(sessions: seq<Session>, session: Session, v: VariantId)
    ensures Held(sessions + [session], v) == Held(sessions, v) + Contribution(session, v)
  {
    assert (sessions + [session])[..|sessions|] == sessions;
  }

  lemma LinesArePositive(session: Session)
    requires SessionOk(session)
    ensures Positive(LinesOf(session.items))
  {
    forall i | 0 <= i < |session.items|
      ensures LinesOf(session.items)[i].quantity >= 1
    {
      assert ItemOk(session.items[i]);
    }
  }

  lemma ContributionSign(session: Session, v: VariantId)
    requires SessionOk(session)
    ensures 0 <= Contribution(session, v)
  {
    LinesArePositive(session);
    DemandSign(LinesOf(session.items), v);
  }

  /** No session holds more than all of them together. */
  lemma {:induction false} HeldCovers(sessions: seq<Session>, v: VariantId)
    requires SessionsOk(sessions)
    ensures 0 <= Held(sessions, v)
    ensures forall i :: 0 <= i < |sessions| ==> 0 <= Contribution(sessions[i], v) <= Held(sessions, v)
  {
    if |sessions| > 0 {
      var front := sessions[..|sessions| - 1];
      HeldCovers(front, v);
      ContributionSign(sessions[|sessions| - 1], v);
      forall i | 0 <= i < |sessions|
        ensures 0 <= Contribution(sessions[i], v) <= Held(sessions, v)
      {
        if i < |front| {
          assert front[i] == sessions[i];
        }
      }
    }
  }

  // ---------- the clamps ----------

  /**
    * In a shop in order the LEAST and GREATEST of the release loops change no value: releasing an active reservation
    * gives back exactly what reserving it took.
    */
  lemma ClampsNeverBite(s: Shop, id: SessionId)
    requires ShopOk(s) && id < |s.sessions| && HasActive(s.sessions[id])
    ensures var lines := s.sessions[id].reservation.value.items;
      ReleaseAll(s.inventory, lines) == Returned(s.inventory, lines)
  {
    var session := s.sessions[id];
    assert SessionOk(session);
    LinesArePositive(session);
    forall v | v in s.inventory
      ensures Demand(session.reservation.value.items, v) <= s.inventory[v].reserved
    {
      HeldCovers(s.sessions, v);
      assert Contribution(session, v) == Demand(session.reservation.value.items, v);
    }
    ReleaseAllIsReturned(s.inventory, session.reservation.value.items);
  }
}
