/** When the single checkout operations succeed, and what exactly they do then. */
module ShopLaws {
  import opened Outcomes
  import opened Lines
  import opened Catalog
  import opened Stock
  import opened Carts
  import opened CartOps
  import opened Checkout
  import opened CheckoutLaws
  import opened ShopSteps
  import opened ShopInvariant
  import opened ShopRuns

  // ---------- creating ----------

  lemma {:induction false} FirstRefusalLaw(catalog: Catalog, inv: Inventory, rows: seq<Row>)
    ensures FirstRefusal(catalog, inv, rows).None? <==>
      forall i :: 0 <= i < |rows| ==>
        Sellable(catalog, rows[i].variant) && rows[i].quantity <= Available(inv, rows[i].variant)
  {
    if |rows| > 0 {
      var front, last := rows[..|rows| - 1], rows[|rows| - 1];
      FirstRefusalLaw(catalog, inv, front);
      assert forall i :: 0 <= i < |front| ==> front[i] == rows[i];
      assert rows[|rows| - 1] == last;
    }
  }

  /**
    * A fresh session is made exactly when something is selected, all of it can be sold and is in stock, and the key
    * is new.
    */
  lemma CreateSucceedsIff(s: Shop, userId: UserId, key: Option<string>, catalog: Catalog, now: int)
    requires ReplayOf(s, userId, key).None?
    ensures CreateCheckout(s, userId, key, catalog, now).result.Ok? <==>
      && userId in s.carts
      && var picked := Selected(Live(s.carts[userId].rows));
         && |picked| > 0
         && (forall i :: 0 <= i < |picked| ==>
               Sellable(catalog, picked[i].variant) && picked[i].quantity <= Available(s.inventory, picked[i].variant))
         && (key.Some? ==> FindKey(s.sessions, key.value) < 0)
    ensures CreateCheckout(s, userId, key, catalog, now).result.Err? ==>
      CreateCheckout(s, userId, key, catalog, now).shop == s
  {
    if userId in s.carts {
      var picked := Selected(Live(s.carts[userId].rows));
      FirstRefusalLaw(catalog, s.inventory, picked);
      assert CreateCheckout(s, userId, key, catalog, now).result.Ok? <==>
        |picked| > 0 && FirstRefusal(catalog, s.inventory, picked).None?
        && (key.Some? ==> FindKey(s.sessions, key.value) < 0);
    }
  }

  /** What is wrong with one cart line, told apart by the exception that reports it. */
  predicate Blames(catalog: Catalog, inv: Inventory, row: Row, e: CheckoutError) {
    var v := row.variant;
    var known := v in catalog && catalog[v].product.Some? && !catalog[v].product.value.deleted;
    match e
    case ProductUnavailable(p) =>
      (p == v && !known) || (known && !catalog[v].product.value.published && p == catalog[v].product.value.id)
    case VariantUnavailable(w, reason) =>
      && w == v && known && catalog[v].product.value.published
      && (if reason == WasDeleted then catalog[v].deleted else !catalog[v].deleted && !catalog[v].active)
    case InsufficientStock(w, requested, available) =>
      && w == v && known && catalog[v].product.value.published && !catalog[v].deleted && catalog[v].active
      && requested == row.quantity && available == (if v in inv then inv[v].available else 0) && available < requested
    case _ => false
  }

  /** The line at `i` is the first with anything wrong, and `e` says what. */
  ghost predicate FirstBlame(catalog: Catalog, inv: Inventory, rows: seq<Row>, i: nat, e: CheckoutError) {
    && i < |rows| && Blames(catalog, inv, rows[i], e)
    && forall j :: 0 <= j < i ==>
         Sellable(catalog, rows[j].variant) && rows[j].quantity <= Available(inv, rows[j].variant)
  }

  lemma {:induction false} FirstRefusalBlames(catalog: Catalog, inv: Inventory, rows: seq<Row>) returns (i: nat)
    requires FirstRefusal(catalog, inv, rows).Some?
    ensures FirstBlame(catalog, inv, rows, i, FirstRefusal(catalog, inv, rows).value)
  {
    var front, last := rows[..|rows| - 1], rows[|rows| - 1];
    if FirstRefusal(catalog, inv, front).Some? {
      i := FirstRefusalBlames(catalog, inv, front);
      assert forall j :: 0 <= j <= i ==> front[j] == rows[j];
    } else {
      i := |rows| - 1;
      FirstRefusalLaw(catalog, inv, front);
      assert forall j :: 0 <= j < i ==> front[j] == rows[j];
    }
  }

  /** Which refusal a create gets: no cart, nothing selected, the first bad line, or a key somebody else used. */
  lemma CreateRefusedWith(s: Shop, userId: UserId, key: Option<string>, catalog: Catalog, now: int)
    requires CreateCheckout(s, userId, key, catalog, now).result.Err?
    ensures var e := CreateCheckout(s, userId, key, catalog, now).result.error;
      if userId !in s.carts then e == CheckoutNotFound
      else
        var picked := Selected(Live(s.carts[userId].rows));
        if |picked| == 0 then e == NoSelectedItems
        else (e == UniqueKeyTaken && exists j :: 0 <= j < |s.sessions| && s.sessions[j].idempotencyKey == key)
             || exists i: nat :: FirstBlame(catalog, s.inventory, picked, i, e)
  {
    if userId in s.carts {
      var picked := Selected(Live(s.carts[userId].rows));
      if |picked| > 0 && FirstRefusal(catalog, s.inventory, picked).Some? {
        var i := FirstRefusalBlames(catalog, s.inventory, picked);
      } else if |picked| > 0 {
        assert s.sessions[FindKey(s.sessions, key.value)].idempotencyKey == key;
      }
    }
  }

  /**
    * A create is answered with an existing session exactly when that is the first made with the caller's non-empty
    * key and is the caller's own; nothing changes then.
    */
  lemma ReplayIsOwnIff(s: Shop, userId: UserId, key: Option<string>, catalog: Catalog, now: int, i: nat)
    requires i < |s.sessions|
    ensures var out := CreateCheckout(s, userId, key, catalog, now);
      && (out.result == Ok(i) <==>
            && key.Some? && key.value != ""
            && s.sessions[i].idempotencyKey == key && s.sessions[i].userId == userId
            && forall j :: 0 <= j < i ==> s.sessions[j].idempotencyKey != key)
      && (out.result == Ok(i) ==> out.shop == s)
  {
    if key.Some? {
      FirstKey(s.sessions, key.value, i);
    }
  }

  lemma {:induction false} FirstKey(sessions: seq<Session>, key: string, i: nat)
    requires i < |sessions|
    ensures FindKey(sessions, key) == i <==>
      sessions[i].idempotencyKey == Some(key) && forall j :: 0 <= j < i ==> sessions[j].idempotencyKey != Some(key)
  {
    var front := sessions[..|sessions| - 1];
    assert forall j :: 0 <= j < |front| ==> front[j] == sessions[j];
    if i < |front| {
      FirstKey(front, key, i);
    }
  }

  /** What a create that is not a replay stores: one session, fifteen minutes to live, a snapshot of each picked row. */
  lemma CreateMakes(s: Shop, userId: UserId, key: Option<string>, catalog: Catalog, now: int)
    requires var out := CreateCheckout(s, userId, key, catalog, now).result; out.Ok? && out.value >= |s.sessions|
    ensures var out := CreateCheckout(s, userId, key, catalog, now);
      var picked := Selected(Live(s.carts[userId].rows));
      var id := |s.sessions|;
      && out.result == Ok(id) && |out.shop.sessions| == id + 1
      && out.shop == s.(sessions := s.sessions + [out.shop.sessions[id]])
      && var made := out.shop.sessions[id];
         && made.userId == userId && made.status == Created && made.expiresAt == now + 900_000
         && made.idempotencyKey == key && made.address == None && made.reservation == None
         && |made.items| == |picked|
         && (forall k :: 0 <= k < |picked| ==>
               made.items[k] == CheckoutItem(picked[k].variant, picked[k].quantity, picked[k].unitPrice,
                                             picked[k].unitPrice * picked[k].quantity))
  {
  }

  /** Asking again with the same key returns the session made the first time and makes no other. */
  lemma CreateIsIdempotent(s: Shop, userId: UserId, key: string, catalog: Catalog, now: int,
                           later: Catalog, atLater: int)
    requires key != "" && CreateCheckout(s, userId, Some(key), catalog, now).result.Ok?
    ensures var first := CreateCheckout(s, userId, Some(key), catalog, now);
      CreateCheckout(first.shop, userId, Some(key), later, atLater) == first
  {
    var first := CreateCheckout(s, userId, Some(key), catalog, now);
    if ReplayOf(s, userId, Some(key)).None? {
      var table := first.shop.sessions;
      assert table[..|s.sessions|] == s.sessions;
      assert FindKey(table, key) == |s.sessions|;
    }
  }

  /**
    * Checkout agrees with the cart it was made from, for good: whatever cart and checkout steps follow, the session's
    * totals stay the sum of its line snapshots, and that is the sum of the subtotals the cart had stored for its
    * selected live lines.
    */
  lemma TotalsOutliveTheCart(s: Shop, userId: UserId, key: Option<string>, catalog: Catalog, now: int, steps: seq<Step>)
    requires ShopOk(s) && ReplayOf(s, userId, key).None?
    requires CreateCheckout(s, userId, key, catalog, now).result.Ok?
    ensures var created := CreateCheckout(s, userId, key, catalog, now);
      var sessions := Run(created.shop, steps).sessions;
      var id := created.result.value;
      && id < |sessions|
      && sessions[id].grandTotal == sessions[id].subtotal == ItemTotal(sessions[id].items)
      && sessions[id].subtotal == SubtotalSum(Selected(Live(s.carts[userId].rows)))
  {
    var created := CreateCheckout(s, userId, key, catalog, now);
    NewSessionIsOk(userId, s.carts[userId], key, now);
    CreateKeepsOrder(s, userId, key, catalog, now);
    RunKeepsSnapshots(created.shop, steps);
    RunKeepsOrder(created.shop, steps);
    var id := created.result.value;
    assert SameSnapshot(created.shop.sessions[id], Run(created.shop, steps).sessions[id]);
    assert SessionOk(Run(created.shop, steps).sessions[id]);
  }

  // ---------- reserving and giving back ----------

  /**
    * Reserving succeeds exactly for the owner of an unexpired session in CREATED whose lines can all be sold and whose
    * total demand per variant is available. It then moves that demand and opens the reservation; otherwise nothing
    * changes.
    */
  lemma ReserveSucceedsIff(s: Shop, id: SessionId, userId: UserId, catalog: Catalog, now: int)
    requires ShopOk(s)
    ensures var out := Reserve(s, id, userId, catalog, now);
      && (out.result.Ok? <==>
            && Owned(s, id, userId) && s.sessions[id].status == Created && now <= s.sessions[id].expiresAt
            && AllSellable(catalog, LinesOf(s.sessions[id].items))
            && Covered(s.inventory, LinesOf(s.sessions[id].items)))
      && (out.result.Err? ==> out.shop == s)
      && (out.result.Ok? ==>
            var lines := LinesOf(s.sessions[id].items);
            var reserved := s.sessions[id].(status := Reserved, reservation := Some(Reservation(Active, lines)));
            out.shop == s.(inventory := Taken(s.inventory, lines), sessions := s.sessions[id := reserved]))
  {
    if Owned(s, id, userId) {
      assert SessionOk(s.sessions[id]);
      LinesArePositive(s.sessions[id]);
      ReserveLinesLaw(catalog, s.inventory, LinesOf(s.sessions[id].items));
    }
  }

  /** Why line `k` cannot be reserved once the lines before it are: the exception tells which. */
  ghost predicate BlamesLine(catalog: Catalog, inv: Inventory, lines: seq<Line>, k: nat, e: CheckoutError)
    requires k < |lines|
  {
    var v := lines[k].variant;
    var product := v in catalog && catalog[v].product.Some? && !catalog[v].product.value.deleted
                   && catalog[v].product.value.published;
    var variant := v in catalog && !catalog[v].deleted && catalog[v].active;
    match e
    case ProductUnavailable(p) => p == v && !product
    case VariantUnavailable(w, reason) => w == v && reason == WasInactive && product && !variant
    case InsufficientStock(w, requested, available) =>
      && w == v && product && variant && requested == lines[k].quantity && available < requested
      && available == Available(inv, v) - (if Available(inv, v) < requested then 0 else Demand(lines[..k], v))
    case _ => false
  }

  lemma {:induction false} ReserveLinesBlame(catalog: Catalog, inv: Inventory, lines: seq<Line>) returns (k: nat)
    requires Positive(lines) && ReserveLines(catalog, inv, lines).Err?
    ensures k < |lines| && AllSellable(catalog, lines[..k]) && Covered(inv, lines[..k])
    ensures BlamesLine(catalog, inv, lines, k, ReserveLines(catalog, inv, lines).error)
  {
    var front := lines[..|lines| - 1];
    if ReserveLines(catalog, inv, front).Err? {
      k := ReserveLinesBlame(catalog, inv, front);
      assert front[..k] == lines[..k];
    } else {
      k := |lines| - 1;
      ReserveLinesLaw(catalog, inv, front);
      DemandSign(front, lines[k].variant);
      assert lines[k].variant !in inv ==> !Names(front, lines[k].variant);
    }
  }

  /** Which refusal a reserve gets, in the order of the checks. */
  lemma ReserveRefusedWith(s: Shop, id: SessionId, userId: UserId, catalog: Catalog, now: int)
    requires ShopOk(s) && Reserve(s, id, userId, catalog, now).result.Err?
    ensures var e := Reserve(s, id, userId, catalog, now).result.error;
      if id >= |s.sessions| || s.sessions[id].userId != userId then e == CheckoutNotFound
      else
        var session := s.sessions[id];
        if session.status != Completed && session.expiresAt < now then e == CheckoutExpired
        else if session.status != Created then e == InvalidStatus(session.status)
        else
          var lines := LinesOf(session.items);
          exists k: nat :: k < |lines| && BlamesLine(catalog, s.inventory, lines, k, e)
  {
    if Owned(s, id, userId) && !PastExpiry(s.sessions[id], now) && s.sessions[id].status == Created {
      assert SessionOk(s.sessions[id]);
      LinesArePositive(s.sessions[id]);
      var k := ReserveLinesBlame(catalog, s.inventory, LinesOf(s.sessions[id].items));
    }
  }

  /** Cancelling what was just reserved puts every stock level back. */
  lemma CancelUndoesReserve(s: Shop, id: SessionId, userId: UserId, catalog: Catalog, now: int)
    requires ShopOk(s) && Reserve(s, id, userId, catalog, now).result.Ok?
    ensures Cancel(Reserve(s, id, userId, catalog, now).shop, id, userId).shop.inventory == s.inventory
  {
    ReserveSucceedsIff(s, id, userId, catalog, now);
    LinesArePositive(s.sessions[id]);
    forall v { HeldCovers(s.sessions, v); }
    ReleaseUndoesTake(s.inventory, LinesOf(s.sessions[id].items));
  }

  /** What is left of a session that was closed: its new status, and its reservation ended if it was active. */
  predicate EndedAs(before: Session, after: Session, sessionStatus: SessionStatus,
                    reservationStatus: ReservationStatus)
  {
    && after == before.(status := after.status, reservation := after.reservation)
    && after.status == sessionStatus
    && match before.reservation
       case None => after.reservation == None
       case Some(r) =>
         after.reservation == Some(Reservation(if r.status == Active then reservationStatus else r.status, r.items))
  }

  /** The stock after closing `session`: an active reservation goes back in full, any other moves nothing. */
  ghost predicate GivesBack(before: Inventory, after: Inventory, session: Session) {
    after == match session.reservation
      case None => before
      case Some(r) => if r.status == Active then Returned(before, r.items) else before
  }

  /** Closing writes one session and the stock it held; nothing else. */
  ghost predicate Closes(before: Shop, after: Shop, id: SessionId, sessionStatus: SessionStatus,
                         reservationStatus: ReservationStatus)
    requires id < |before.sessions|
  {
    && after.carts == before.carts
    && |after.sessions| == |before.sessions|
    && (forall i :: 0 <= i < |before.sessions| && i != id ==> after.sessions[i] == before.sessions[i])
    && EndedAs(before.sessions[id], after.sessions[id], sessionStatus, reservationStatus)
    && GivesBack(before.inventory, after.inventory, before.sessions[id])
  }

  /**
    * Cancelling succeeds for the owner, and for nobody else, from whatever status: it cancels the session, releases
    * an active reservation and its stock, and changes nothing more.
    */
  lemma CancelLaw(s: Shop, id: SessionId, userId: UserId)
    requires ShopOk(s)
    ensures var out := Cancel(s, id, userId);
      if id < |s.sessions| && s.sessions[id].userId == userId then
        out.result == Ok(()) && out.shop.sweeping == s.sweeping && Closes(s, out.shop, id, Cancelled, Released)
      else out == CheckoutOutcome(s, Err(CheckoutNotFound))
  {
    if id < |s.sessions| && HasActive(s.sessions[id]) {
      ClampsNeverBite(s, id);
    }
  }

  /** A sweeper looks exactly at the sessions that are neither expired nor completed. */
  lemma SweepTakesUpIff(s: Shop, id: SessionId)
    ensures BeginExpire(s, id) == s.(sweeping :=
      if id < |s.sessions| && s.sessions[id].status in {Created, Reserved, Cancelled}
      then s.sweeping[id := s.sweeping[id] + 1] else s.sweeping)
  {
    if WantsExpiry(s, id) {
      assert s.sweeping + multiset{id} == s.sweeping[id := s.sweeping[id] + 1];
    }
  }

  /** The sweeper's transaction expires the session it looked at, whatever became of it, and is then over. */
  lemma ExpireLaw(s: Shop, id: SessionId)
    requires ShopOk(s)
    ensures var after := FinishExpire(s, id);
      if id in s.sweeping && id < |s.sessions| then
        after.sweeping == s.sweeping[id := s.sweeping[id] - 1] && Closes(s, after, id, Expired, Lapsed)
      else after == s
  {
    if id in s.sweeping && id < |s.sessions| {
      assert s.sweeping - multiset{id} == s.sweeping[id := s.sweeping[id] - 1];
      if HasActive(s.sessions[id]) {
        ClampsNeverBite(s, id);
      }
    }
  }

  /** An order is placed exactly by the owner on a reserved, non-empty session; the stock stays reserved. */
  lemma PlaceOrderLaw(s: Shop, id: SessionId, userId: UserId)
    requires ShopOk(s)
    ensures var out := PlaceOrder(s, id, userId);
      if id < |s.sessions| && s.sessions[id].userId == userId then
        var session := s.sessions[id];
        if session.status == Reserved && |session.items| > 0 then
          var confirmed := Some(Reservation(Confirmed, session.reservation.value.items));
          out == CheckoutOutcome(
            s.(sessions := s.sessions[id := session.(status := Completed, reservation := confirmed)]), Ok(()))
        else out == CheckoutOutcome(s, Err(InvalidStatus(session.status)))
      else out == CheckoutOutcome(s, Err(CheckoutNotFound))
  {
    if id < |s.sessions| {
      assert SessionOk(s.sessions[id]);
    }
  }

  /** Ten or eleven characters: a zero and then digits. */
  ghost predicate IsPhone(phone: string) {
    exists digits: string ::
      phone == "0" + digits && |digits| in {9, 10} && forall c :: c in digits ==> c in "0123456789"
  }

  lemma PhoneIsChecked(phone: string)
    ensures PhoneOk(phone) <==> IsPhone(phone)
  {
    if PhoneOk(phone) {
      var digits := phone[1..];
      assert phone == "0" + digits;
      forall c | c in digits ensures c in "0123456789" {
        var i :| 0 <= i < |digits| && digits[i] == c;
        assert digits[i] == phone[i + 1];
        DigitIsListed(c);
      }
    }
    if IsPhone(phone) {
      var digits: string :|
        phone == "0" + digits && |digits| in {9, 10} && forall c :: c in digits ==> c in "0123456789";
      forall i | 1 <= i < |phone| ensures '0' <= phone[i] <= '9' {
        assert phone[i] == digits[i - 1] && digits[i - 1] in digits;
      }
    }
  }

  lemma DigitIsListed(c: char)
    requires '0' <= c <= '9'
    ensures c in "0123456789"
  {
    var i := c as int - '0' as int;
    assert "0123456789"[i] == c;
  }

  /**
    * Which answer a new address gets, in the order of the checks: an accepted one is stored and nothing else changes,
    * a refused one changes nothing.
    */
  lemma UpdateAddressLaw(s: Shop, id: SessionId, userId: UserId, address: Address, now: int)
    ensures var out := UpdateAddress(s, id, userId, address, now);
      if id >= |s.sessions| || s.sessions[id].userId != userId then out == CheckoutOutcome(s, Err(CheckoutNotFound))
      else
        var session := s.sessions[id];
        if session.status == Completed then
          out == CheckoutOutcome(s, Err(CheckoutCompleted))
        else if session.expiresAt < now then out == CheckoutOutcome(s, Err(CheckoutExpired))
        else if session.status == Cancelled then out == CheckoutOutcome(s, Err(CheckoutCancelled))
        else if !IsPhone(address.phone) then out == CheckoutOutcome(s, Err(InvalidPhone))
        else out == CheckoutOutcome(s.(sessions := s.sessions[id := session.(address := Some(address))]), Ok(()))
  {
    PhoneIsChecked(address.phone);
  }

  /** Closing a session a second time, in either way, moves no stock and leaves the reservation as it ended. */
  lemma ClosingTwiceReleasesOnce(s: Shop, id: SessionId, a: SessionStatus, x: ReservationStatus,
                                 b: SessionStatus, y: ReservationStatus)
    requires id < |s.sessions| && x != Active
    ensures var once := Close(s, id, a, x);
      var twice := Close(once, id, b, y);
      && twice.inventory == once.inventory
      && twice.sessions == once.sessions[id := once.sessions[id].(status := b)]
      && !HasActive(twice.sessions[id])
  {
  }

  /** A cart call reaches the caller's own cart and nothing else in the shop. */
  lemma CartCallIsOwn(s: Shop, userId: UserId, op: CartOp, catalog: Catalog)
    ensures var after := CartCall(s, userId, op, catalog);
      && after == s.(carts := after.carts)
      && CartOf(after, userId) == Apply(userId, CartOf(s, userId), op, catalog, s.inventory)
      && forall other :: other != userId ==> CartOf(after, other) == CartOf(s, other)
  {
  }

  // ---------- completed sessions ----------

  /** A step that writes another session, or none, leaves this one as it is. */
  lemma BystanderIsKept(s: Shop, step: Step, id: SessionId)
    requires ShopOk(s) && id < |s.sessions| && Writes(step) != Some(id)
    ensures id < |Next(s, step).sessions| && Next(s, step).sessions[id] == s.sessions[id]
  {
    NextTouches(s, step);
    if Writes(step).None? {
      assert Next(s, step).sessions[..|s.sessions|][id] == Next(s, step).sessions[id];
    }
  }

  /** Closing a session that holds no active reservation only sets its status. */
  lemma CloseSettled(s: Shop, id: SessionId, sessionStatus: SessionStatus, reservationStatus: ReservationStatus)
    requires id < |s.sessions| && !HasActive(s.sessions[id])
    ensures Close(s, id, sessionStatus, reservationStatus) ==
      s.(sessions := s.sessions[id := s.sessions[id].(status := sessionStatus)])
  {
  }

  /** What a step on a completed session can still do to it: nothing, or set its status to cancelled or expired. */
  lemma StepOnCompleted(s: Shop, step: Step, id: SessionId)
    requires id < |s.sessions| && s.sessions[id].status == Completed && !HasActive(s.sessions[id])
    requires Writes(step) == Some(id)
    ensures var after := Next(s, step);
      && after.inventory == s.inventory
      && |after.sessions| == |s.sessions|
      && after.sessions[id] == s.sessions[id].(status :=
        if step == CancelStep(id, s.sessions[id].userId) then Cancelled
        else if step == FinishExpireStep(id) && id in s.sweeping then Expired
        else Completed)
  {
    match step
    case CancelStep(_, _) => CloseSettled(s, id, Cancelled, Released);
    case FinishExpireStep(_) => CloseSettled(s, id, Expired, Lapsed);
    case _ =>
  }

  /**
    * A completed session stays completed exactly until its owner cancels it or a sweeper that looked at it before it
    * was completed commits. Neither touches its confirmed reservation or the stock.
    */
  lemma CompletedSurvivesIff(s: Shop, step: Step, id: SessionId)
    requires ShopOk(s) && id < |s.sessions| && s.sessions[id].status == Completed
    ensures id < |Next(s, step).sessions|
    ensures Next(s, step).sessions[id].status == Completed <==>
      && step != CancelStep(id, s.sessions[id].userId)
      && !(step == FinishExpireStep(id) && id in s.sweeping)
    ensures Next(s, step).sessions[id].reservation == s.sessions[id].reservation
    ensures Subject(step) == Some(id) ==> Next(s, step).inventory == s.inventory
  {
    assert SessionOk(s.sessions[id]);
    if Writes(step) == Some(id) {
      StepOnCompleted(s, step, id);
    } else {
      BystanderIsKept(s, step, id);
    }
  }

  // ---------- the shipping address ----------

  /** The step hands in an address for session `id` that is accepted. */
  ghost predicate Accepted(s: Shop, step: Step, id: SessionId)
    requires id < |s.sessions|
  {
    var session := s.sessions[id];
    && step.AddressStep? && step.id == id && step.userId == session.userId
    && session.status in {Created, Reserved, Expired} && step.at <= session.expiresAt
    && IsPhone(step.address.phone)
  }

  /** The last address accepted for session `id` in a run, or the one it had. */
  ghost function LastAddress(s: Shop, steps: seq<Step>, id: SessionId): Option<Address>
    requires ShopOk(s) && id < |s.sessions|
  {
    if |steps| == 0 then s.sessions[id].address
    else
      var front, last := steps[..|steps| - 1], steps[|steps| - 1];
      RunKeepsSnapshots(s, front);
      if Accepted(Run(s, front), last, id) then Some(last.address) else LastAddress(s, front, id)
  }

  lemma NextAddress(s: Shop, step: Step, id: SessionId)
    requires ShopOk(s) && id < |s.sessions|
    ensures id < |Next(s, step).sessions|
    ensures Next(s, step).sessions[id].address ==
      if Accepted(s, step, id) then Some(step.address) else s.sessions[id].address
  {
    if Writes(step) != Some(id) {
      BystanderIsKept(s, step, id);
    } else if step.AddressStep? {
      UpdateAddressLaw(s, id, step.userId, step.address, step.at);
    } else {
      NextTouches(s, step);
    }
  }

  /** Whatever else happens, a session ships to the last address accepted for it. */
  lemma {:induction false} ShipsToLastAccepted(s: Shop, steps: seq<Step>, id: SessionId)
    requires ShopOk(s) && id < |s.sessions|
    ensures id < |Run(s, steps).sessions|
    ensures Run(s, steps).sessions[id].address == LastAddress(s, steps, id)
  {
    if |steps| > 0 {
      var front := steps[..|steps| - 1];
      ShipsToLastAccepted(s, front, id);
      RunKeepsOrder(s, front);
      NextAddress(Run(s, front), steps[|steps| - 1], id);
    }
  }

  // ---------- what is on hand ----------

  /** What one step adds to the stock on hand of `v`: an adjustment that does not go below zero, and nothing else. */
  function Delivered(s: Shop, step: Step, v: VariantId): int {
    if step.AdjustStep? && step.variant == v && v in s.inventory && s.inventory[v].onHand + step.delta >= 0
    then step.delta else 0
  }

  function DeliveredBy(s: Shop, steps: seq<Step>, v: VariantId): int {
    if |steps| == 0 then 0
    else
      var front, last := steps[..|steps| - 1], steps[|steps| - 1];
      DeliveredBy(s, front, v) + Delivered(Run(s, front), last, v)
  }

  ghost predicate SameOnHand(before: Inventory, after: Inventory) {
    after.Keys == before.Keys && forall v :: v in before ==> after[v].onHand == before[v].onHand
  }

  lemma ReserveKeepsOnHand(s: Shop, id: SessionId, userId: UserId, catalog: Catalog, now: int)
    requires ShopOk(s)
    ensures SameOnHand(s.inventory, Reserve(s, id, userId, catalog, now).shop.inventory)
  {
    ReserveSucceedsIff(s, id, userId, catalog, now);
  }

  lemma CancelKeepsOnHand(s: Shop, id: SessionId, userId: UserId)
    requires ShopOk(s)
    ensures SameOnHand(s.inventory, Cancel(s, id, userId).shop.inventory)
  {
    CancelLaw(s, id, userId);
  }

  lemma ExpireKeepsOnHand(s: Shop, id: SessionId)
    requires ShopOk(s)
    ensures SameOnHand(s.inventory, FinishExpire(s, id).inventory)
  {
    ExpireLaw(s, id);
  }

  lemma NextKeepsOnHand(s: Shop, step: Step)
    requires ShopOk(s) && !step.AdjustStep?
    ensures SameOnHand(s.inventory, Next(s, step).inventory)
  {
    match step
    case ReserveStep(id, userId, catalog, now) => ReserveKeepsOnHand(s, id, userId, catalog, now);
    case CancelStep(id, userId) => CancelKeepsOnHand(s, id, userId);
    case FinishExpireStep(id) => ExpireKeepsOnHand(s, id);
    case _ =>
  }

  lemma NextOnHand(s: Shop, step: Step)
    requires ShopOk(s)
    ensures Next(s, step).inventory.Keys == s.inventory.Keys
    ensures forall v :: v in s.inventory ==>
      Next(s, step).inventory[v].onHand == s.inventory[v].onHand + Delivered(s, step, v)
  {
    if !step.AdjustStep? {
      NextKeepsOnHand(s, step);
    }
  }

  /** Over every run the stock on hand is what it was plus every accepted adjustment; no other step changes it. */
  lemma {:induction false} OnHandIsDelivered(s: Shop, steps: seq<Step>)
    requires ShopOk(s)
    ensures Run(s, steps).inventory.Keys == s.inventory.Keys
    ensures forall v :: v in s.inventory ==>
      Run(s, steps).inventory[v].onHand == s.inventory[v].onHand + DeliveredBy(s, steps, v)
  {
    if |steps| > 0 {
      var front := steps[..|steps| - 1];
      OnHandIsDelivered(s, front);
      RunKeepsOrder(s, front);
      NextOnHand(Run(s, front), steps[|steps| - 1]);
    }
  }
}
