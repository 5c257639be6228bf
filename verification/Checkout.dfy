/**
  * Checkout sessions, their stock reservations, and the operations of the checkout service as functions from the
  * shop before to the shop after. A session's id is its position in the table. A transaction that throws leaves
  * the shop it started from.
  */
module Checkout {
  import opened Outcomes
  import opened Lines
  import opened Catalog
  import opened Stock
  import opened Carts

  type SessionId = nat

  /** Fifteen minutes, in milliseconds. */
  const SESSION_TTL: nat := 15 * 60 * 1000

  datatype SessionStatus = Created | Reserved | Expired | Cancelled | Completed

  datatype ReservationStatus = Active | Released | Lapsed | Confirmed

  datatype Reservation = Reservation(status: ReservationStatus, items: seq<Line>)

  datatype CheckoutItem = CheckoutItem(variant: VariantId, quantity: int, unitPrice: Money, lineSubtotal: Money)

  datatype Address = Address(phone: string, place: string)

  datatype Session = Session(userId: UserId, status: SessionStatus, items: seq<CheckoutItem>, subtotal: Money,
                             grandTotal: Money, expiresAt: int, idempotencyKey: Option<string>,
                             address: Option<Address>, reservation: Option<Reservation>)

  /** The tables, and one entry for each sweeper call that has looked at its session and is about to expire it. */
  datatype Shop = Shop(carts: map<UserId, Cart>, inventory: Inventory, sessions: seq<Session>,
                       sweeping: multiset<SessionId>)

  datatype Reason = WasDeleted | WasInactive

  /** A missing product is reported under the id of the variant that lacks it. */
  datatype CheckoutError =
    | CheckoutNotFound | NoSelectedItems | CheckoutExpired | CheckoutCancelled | CheckoutCompleted
    | InvalidStatus(found: SessionStatus) | InvalidPhone
    | ProductUnavailable(product: ProductId) | VariantUnavailable(variant: VariantId, reason: Reason)
    | InsufficientStock(short: VariantId, requested: int, available: int)
    | UniqueKeyTaken

  datatype CheckoutOutcome<+T> = CheckoutOutcome(shop: Shop, result: Result<T, CheckoutError>)

  // ---------- creating a session ----------

  /** The first session created with `key`, or -1. */
  function FindKey(sessions: seq<Session>, key: string): (i: int)
    ensures -1 <= i < |sessions|
    ensures i >= 0 ==> sessions[i].idempotencyKey == Some(key)
    ensures i < 0 ==> forall j :: 0 <= j < |sessions| ==> sessions[j].idempotencyKey != Some(key)
  {
    if |sessions| == 0 then -1
    else
      var i := FindKey(sessions[..|sessions| - 1], key);
      if i >= 0 then i
      else if sessions[|sessions| - 1].idempotencyKey == Some(key) then |sessions| - 1
      else -1
  }

  /** The session an idempotent replay returns; an empty key is no key. */
  function ReplayOf(s: Shop, userId: UserId, key: Option<string>): Option<SessionId> {
    if key.None? || key.value == "" then None
    else
      var i := FindKey(s.sessions, key.value);
      if i >= 0 && s.sessions[i].userId == userId then Some(i) else None
  }

  /** Why one selected cart line cannot be checked out. */
  function CreateRefusal(catalog: Catalog, inv: Inventory, v: VariantId, quantity: int): Option<CheckoutError> {
    if v !in catalog || catalog[v].product.None? || catalog[v].product.value.deleted then Some(ProductUnavailable(v))
    else if !catalog[v].product.value.published then Some(ProductUnavailable(catalog[v].product.value.id))
    else if catalog[v].deleted then Some(CheckoutError.VariantUnavailable(v, WasDeleted))
    else if !catalog[v].active then Some(CheckoutError.VariantUnavailable(v, WasInactive))
    else if Available(inv, v) < quantity then Some(InsufficientStock(v, quantity, Available(inv, v)))
    else None
  }

  function FirstRefusal(catalog: Catalog, inv: Inventory, rows: seq<Row>): Option<CheckoutError> {
    if |rows| == 0 then None
    else
      var earlier := FirstRefusal(catalog, inv, rows[..|rows| - 1]);
      var last := rows[|rows| - 1];
      if earlier.Some? then earlier else CreateRefusal(catalog, inv, last.variant, last.quantity)
  }

  function Snapshot(rows: seq<Row>): (items: seq<CheckoutItem>)
    ensures |items| == |rows|
    ensures forall i :: 0 <= i < |rows| ==>
      items[i] ==
        CheckoutItem(rows[i].variant, rows[i].quantity, rows[i].unitPrice, rows[i].unitPrice * rows[i].quantity)
  {
    seq(|rows|, i requires 0 <= i < |rows| =>
      CheckoutItem(rows[i].variant, rows[i].quantity, rows[i].unitPrice, rows[i].unitPrice * rows[i].quantity))
  }

  function ItemTotal(items: seq<CheckoutItem>): Money {
    if |items| == 0 then 0 else ItemTotal(items[..|items| - 1]) + items[|items| - 1].lineSubtotal
  }

  function NewSession(userId: UserId, rows: seq<Row>, key: Option<string>, now: int): Session {
    var items := Snapshot(rows);
    Session(userId, Created, items, ItemTotal(items), ItemTotal(items), now + SESSION_TTL, key, None, None)
  }

  function CreateCheckout(s: Shop, userId: UserId, key: Option<string>, catalog: Catalog, now: int)
      : CheckoutOutcome<SessionId>
  {
    var replay := ReplayOf(s, userId, key);
    if replay.Some? then CheckoutOutcome(s, Ok(replay.value))
    else if userId !in s.carts then CheckoutOutcome(s, Err(CheckoutNotFound))
    else
      var selected := Selected(Live(s.carts[userId].rows));
      var refused := FirstRefusal(catalog, s.inventory, selected);
      if |selected| == 0 then CheckoutOutcome(s, Err(NoSelectedItems))
      else if refused.Some? then CheckoutOutcome(s, Err(refused.value))
      else if key.Some? && FindKey(s.sessions, key.value) >= 0 then CheckoutOutcome(s, Err(UniqueKeyTaken))
      else CheckoutOutcome(s.(sessions := s.sessions + [NewSession(userId, selected, key, now)]), Ok(|s.sessions|))
  }

  // ---------- guards ----------

  predicate Owned(s: Shop, id: SessionId, userId: UserId) {
    id < |s.sessions| && s.sessions[id].userId == userId
  }

  predicate PastExpiry(session: Session, now: int) {
    session.status != Completed && now > session.expiresAt
  }

  /** A zero followed by nine or ten digits. */
  predicate PhoneOk(phone: string) {
    10 <= |phone| <= 11 && phone[0] == '0' && forall i :: 1 <= i < |phone| ==> '0' <= phone[i] <= '9'
  }

  function UpdateAddress(s: Shop, id: SessionId, userId: UserId, address: Address, now: int): CheckoutOutcome<()> {
    if !Owned(s, id, userId) then CheckoutOutcome(s, Err(CheckoutNotFound))
    else
      var session := s.sessions[id];
      if PastExpiry(session, now) then CheckoutOutcome(s, Err(CheckoutExpired))
      else if session.status == Cancelled then CheckoutOutcome(s, Err(CheckoutCancelled))
      else if session.status == Completed then CheckoutOutcome(s, Err(CheckoutCompleted))
      else if !PhoneOk(address.phone) then CheckoutOutcome(s, Err(InvalidPhone))
      else CheckoutOutcome(s.(sessions := s.sessions[id := session.(address := Some(address))]), Ok(()))
  }

  // ---------- reserving ----------

  function LinesOf(items: seq<CheckoutItem>): (lines: seq<Line>)
    ensures |lines| == |items|
    ensures forall i :: 0 <= i < |items| ==> lines[i] == Line(items[i].variant, items[i].quantity)
  {
    seq(|items|, i requires 0 <= i < |items| => Line(items[i].variant, items[i].quantity))
  }

  /** Why one session line cannot be reserved; here every reason is reported under the variant. */
  function ReserveRefusal(catalog: Catalog, inv: Inventory, v: VariantId, quantity: int): Option<CheckoutError> {
    if !ProductSellable(catalog, v) then Some(ProductUnavailable(v))
    else if !VariantSellable(catalog, v) then Some(CheckoutError.VariantUnavailable(v, WasInactive))
    else if Available(inv, v) < quantity then Some(InsufficientStock(v, quantity, Available(inv, v)))
    else None
  }

  /** One turn of the reserve loop: `entry` is what the transaction read at its start, `inv` the table now. */
  function ReserveLine(catalog: Catalog, entry: Inventory, inv: Inventory, line: Line)
      : Result<Inventory, CheckoutError>
  {
    var refused := ReserveRefusal(catalog, entry, line.variant, line.quantity);
    if refused.Some? then Err(refused.value)
    else
      match TakeOne(inv, line)
      case None => Err(InsufficientStock(line.variant, line.quantity, Available(inv, line.variant)))
      case Some(after) => Ok(after)
  }

  function ReserveLines(catalog: Catalog, entry: Inventory, lines: seq<Line>): Result<Inventory, CheckoutError> {
    if |lines| == 0 then Ok(entry)
    else
      match ReserveLines(catalog, entry, lines[..|lines| - 1])
      case Err(e) => Err(e)
      case Ok(inv) => ReserveLine(catalog, entry, inv, lines[|lines| - 1])
  }

  function Reserve(s: Shop, id: SessionId, userId: UserId, catalog: Catalog, now: int): CheckoutOutcome<()> {
    if !Owned(s, id, userId) then CheckoutOutcome(s, Err(CheckoutNotFound))
    else
      var session := s.sessions[id];
      if PastExpiry(session, now) then CheckoutOutcome(s, Err(CheckoutExpired))
      else if session.status != Created then CheckoutOutcome(s, Err(InvalidStatus(session.status)))
      else
        match ReserveLines(catalog, s.inventory, LinesOf(session.items))
        case Err(e) => CheckoutOutcome(s, Err(e))
        case Ok(inv) =>
          var lines := LinesOf(session.items);
          var reserved := session.(status := Reserved, reservation := Some(Reservation(Active, lines)));
          CheckoutOutcome(s.(inventory := inv, sessions := s.sessions[id := reserved]), Ok(()))
  }

  // ---------- releasing ----------

  predicate HasActive(session: Session) {
    session.reservation.Some? && session.reservation.value.status == Active
  }

  /** Ends a session: an active reservation is released through the clamped updates, any other is left alone. */
  function Close(s: Shop, id: SessionId, sessionStatus: SessionStatus, reservationStatus: ReservationStatus): Shop
    requires id < |s.sessions|
  {
    var session := s.sessions[id];
    if HasActive(session) then
      var reservation := session.reservation.value;
      s.(inventory := ReleaseAll(s.inventory, reservation.items),
         sessions := s.sessions[id := session.(status := sessionStatus,
                                               reservation := Some(reservation.(status := reservationStatus)))])
    else s.(sessions := s.sessions[id := session.(status := sessionStatus)])
  }

  function Cancel(s: Shop, id: SessionId, userId: UserId): CheckoutOutcome<()> {
    if !Owned(s, id, userId) then CheckoutOutcome(s, Err(CheckoutNotFound))
    else CheckoutOutcome(Close(s, id, Cancelled, Released), Ok(()))
  }

  /** The sweeper's look at the session, outside any transaction. */
  predicate WantsExpiry(s: Shop, id: SessionId) {
    id < |s.sessions| && s.sessions[id].status != Expired && s.sessions[id].status != Completed
  }

  function BeginExpire(s: Shop, id: SessionId): Shop {
    if WantsExpiry(s, id) then s.(sweeping := s.sweeping + multiset{id}) else s
  }

  /** The sweeper's transaction, which may commit any time after its look. */
  function FinishExpire(s: Shop, id: SessionId): Shop {
    if id !in s.sweeping || id >= |s.sessions| then s
    else Close(s, id, Expired, Lapsed).(sweeping := s.sweeping - multiset{id})
  }

  // ---------- neighbours that touch the same rows ----------

  /** The part of placing an order that writes session and reservation; the stock stays reserved. */
  function PlaceOrder(s: Shop, id: SessionId, userId: UserId): CheckoutOutcome<()> {
    if !Owned(s, id, userId) then CheckoutOutcome(s, Err(CheckoutNotFound))
    else
      var session := s.sessions[id];
      if session.status != Reserved || !HasActive(session) || |session.items| == 0 then
        CheckoutOutcome(s, Err(InvalidStatus(session.status)))
      else
        var confirmed := session.(status := Completed,
                                  reservation := Some(session.reservation.value.(status := Confirmed)));
        CheckoutOutcome(s.(sessions := s.sessions[id := confirmed]), Ok(()))
  }

  /** A warehouse adjustment, guarded by `onHand` alone. */
  function AdjustStock(inv: Inventory, v: VariantId, delta: int): Inventory {
    if delta == 0 || v !in inv || inv[v].onHand + delta < 0 then inv
    else inv[v := Level(inv[v].onHand + delta, inv[v].available + delta, inv[v].reserved)]
  }
}
