/** The checkout service as it runs: loops, updates in place, and rollback when a transaction throws. */
module CheckoutServices {
  import opened Outcomes
  import opened Lines
  import opened Catalog
  import opened Stock
  import opened Carts
  import opened Checkout
  import opened Databases

  class CheckoutService {
    const db: Database

    constructor (db: Database)
      ensures this.db == db
    {
      this.db := db;
    }

    /** The validation loop: the first selected line that cannot be checked out decides the exception. */
    static method Validate(catalog: Catalog, inv: Inventory, rows: seq<Row>) returns (error: Option<CheckoutError>)
      ensures error == FirstRefusal(catalog, inv, rows)
    {
      for i := 0 to |rows|
        invariant FirstRefusal(catalog, inv, rows[..i]) == None
      {
        assert rows[..i + 1][..i] == rows[..i];
        RefusalStops(catalog, inv, rows, i + 1);
        var v, row := rows[i].variant, rows[i];
        if v !in catalog || catalog[v].product.None? || catalog[v].product.value.deleted {
          return Some(ProductUnavailable(v));
        }
        if !catalog[v].product.value.published {
          return Some(ProductUnavailable(catalog[v].product.value.id));
        }
        if catalog[v].deleted {
          return Some(CheckoutError.VariantUnavailable(v, WasDeleted));
        }
        if !catalog[v].active {
          return Some(CheckoutError.VariantUnavailable(v, WasInactive));
        }
        var available := Available(inv, v);
        if available < row.quantity {
          return Some(InsufficientStock(v, row.quantity, available));
        }
      }
      assert rows[..|rows|] == rows;
      error := None;
    }

    static lemma {:induction false} RefusalStops(catalog: Catalog, inv: Inventory, rows: seq<Row>, n: nat)
      requires n <= |rows|
      ensures FirstRefusal(catalog, inv, rows[..n]).Some? ==>
        FirstRefusal(catalog, inv, rows) == FirstRefusal(catalog, inv, rows[..n])
    {
      if n == |rows| {
        assert rows[..n] == rows;
      } else {
        RefusalStops(catalog, inv, rows[..|rows| - 1], n);
        assert rows[..|rows| - 1][..n] == rows[..n];
      }
    }

    /** The loop that adds up price times quantity. */
    static method AddUp(rows: seq<Row>) returns (subtotal: Money)
      ensures subtotal == ItemTotal(Snapshot(rows))
    {
      subtotal := 0;
      for i := 0 to |rows|
        invariant subtotal == ItemTotal(Snapshot(rows[..i]))
      {
        assert Snapshot(rows[..i + 1])[..i] == Snapshot(rows[..i]);
        subtotal := subtotal + rows[i].unitPrice * rows[i].quantity;
      }
      assert rows[..|rows|] == rows;
    }

    method CreateCheckout(userId: UserId, key: Option<string>, catalog: Catalog, now: int)
        returns (r: Result<SessionId, CheckoutError>)
      modifies db`sessions
      ensures CheckoutOutcome(db.Contents(), r) ==
        Checkout.CreateCheckout(old(db.Contents()), userId, key, catalog, now)
    {
      if key.Some? && key.value != "" {
        var existing := FindKey(db.sessions, key.value);
        if existing >= 0 && db.sessions[existing].userId == userId {
          return Ok(existing);
        }
      }
      if userId !in db.carts {
        return Err(CheckoutNotFound);
      }
      var selected := Selected(Live(db.carts[userId].rows));
      if |selected| == 0 {
        return Err(NoSelectedItems);
      }
      var refused := Validate(catalog, db.inventory, selected);
      if refused.Some? {
        return Err(refused.value);
      }
      var subtotal := AddUp(selected);
      if key.Some? && FindKey(db.sessions, key.value) >= 0 {
        return Err(UniqueKeyTaken);
      }
      var id := |db.sessions|;
      db.sessions := db.sessions + [
        Session(userId, Created, Snapshot(selected), subtotal, subtotal, now + SESSION_TTL, key, None, None)];
      r := Ok(id);
    }

    method UpdateShippingAddress(id: SessionId, userId: UserId, address: Address, now: int)
        returns (r: Result<(), CheckoutError>)
      modifies db`sessions
      ensures CheckoutOutcome(db.Contents(), r) == UpdateAddress(old(db.Contents()), id, userId, address, now)
    {
      if id >= |db.sessions| || db.sessions[id].userId != userId {
        return Err(CheckoutNotFound);
      }
      var session := db.sessions[id];
      if session.status != Completed && now > session.expiresAt {
        return Err(CheckoutExpired);
      }
      if session.status == Cancelled {
        return Err(CheckoutCancelled);
      }
      if session.status == Completed {
        return Err(CheckoutCompleted);
      }
      if !PhoneOk(address.phone) {
        return Err(InvalidPhone);
      }
      db.sessions := db.sessions[id := session.(address := Some(address))];
      r := Ok(());
    }

    /** The reserve loop: one guarded update after the other, each against the table the previous ones left. */
    method TakeLines(catalog: Catalog, lines: seq<Line>) returns (error: Option<CheckoutError>)
      modifies db`inventory
      ensures match ReserveLines(catalog, old(db.inventory), lines)
        case Ok(inv) => error.None? && db.inventory == inv
        case Err(e) => error == Some(e)
    {
      var entry := db.inventory;
      for i := 0 to |lines|
        invariant ReserveLines(catalog, entry, lines[..i]) == Ok(db.inventory)
      {
        assert lines[..i + 1][..i] == lines[..i];
        ReserveStops(catalog, entry, lines, i + 1);
        var line := lines[i];
        if !ProductSellable(catalog, line.variant) {
          return Some(ProductUnavailable(line.variant));
        }
        if !VariantSellable(catalog, line.variant) {
          return Some(CheckoutError.VariantUnavailable(line.variant, WasInactive));
        }
        var available := Available(entry, line.variant);
        if available < line.quantity {
          return Some(InsufficientStock(line.variant, line.quantity, available));
        }
        var updated := TakeOne(db.inventory, line);
        if updated.None? {
          return Some(InsufficientStock(line.variant, line.quantity, Available(db.inventory, line.variant)));
        }
        db.inventory := updated.value;
      }
      assert lines[..|lines|] == lines;
      error := None;
    }

    static lemma {:induction false} ReserveStops(catalog: Catalog, entry: Inventory, lines: seq<Line>, n: nat)
      requires n <= |lines|
      ensures ReserveLines(catalog, entry, lines[..n]).Err? ==>
        ReserveLines(catalog, entry, lines) == ReserveLines(catalog, entry, lines[..n])
    {
      if n == |lines| {
        assert lines[..n] == lines;
      } else {
        ReserveStops(catalog, entry, lines[..|lines| - 1], n);
        assert lines[..|lines| - 1][..n] == lines[..n];
      }
    }

    /** All or nothing: a line that fails rolls every earlier update back. */
    method ReserveInventory(id: SessionId, userId: UserId, catalog: Catalog, now: int)
        returns (r: Result<(), CheckoutError>)
      modifies db`inventory, db`sessions
      ensures CheckoutOutcome(db.Contents(), r) == Reserve(old(db.Contents()), id, userId, catalog, now)
    {
      if id >= |db.sessions| || db.sessions[id].userId != userId {
        return Err(CheckoutNotFound);
      }
      var session := db.sessions[id];
      if session.status != Completed && now > session.expiresAt {
        return Err(CheckoutExpired);
      }
      if session.status != Created {
        return Err(InvalidStatus(session.status));
      }
      var before := db.inventory;
      var lines := LinesOf(session.items);
      var failed := TakeLines(catalog, lines);
      if failed.Some? {
        db.inventory := before;
        return Err(failed.value);
      }
      db.sessions := db.sessions[id := session.(status := Reserved, reservation := Some(Reservation(Active, lines)))];
      r := Ok(());
    }

    /** The release loop with its LEAST and GREATEST clamps. */
    method ReleaseLines(lines: seq<Line>)
      modifies db`inventory
      ensures db.inventory == ReleaseAll(old(db.inventory), lines)
    {
      var entry := db.inventory;
      for i := 0 to |lines|
        invariant db.inventory == ReleaseAll(entry, lines[..i])
      {
        assert lines[..i + 1][..i] == lines[..i];
        var line := lines[i];
        if line.variant in db.inventory {
          var l := db.inventory[line.variant];
          db.inventory := db.inventory[line.variant :=
            Level(l.onHand, Min(l.available + line.quantity, l.onHand), Max(l.reserved - line.quantity, 0))];
        }
      }
      assert lines[..|lines|] == lines;
    }

    method CloseSession(id: SessionId, sessionStatus: SessionStatus, reservationStatus: ReservationStatus)
      requires id < |db.sessions|
      modifies db`inventory, db`sessions
      ensures db.Contents() == Close(old(db.Contents()), id, sessionStatus, reservationStatus)
    {
      var session := db.sessions[id];
      if session.reservation.Some? && session.reservation.value.status == Active {
        var reservation := session.reservation.value;
        ReleaseLines(reservation.items);
        session := session.(reservation := Some(reservation.(status := reservationStatus)));
      }
      db.sessions := db.sessions[id := session.(status := sessionStatus)];
    }

    method CancelCheckout(id: SessionId, userId: UserId) returns (r: Result<(), CheckoutError>)
      modifies db`inventory, db`sessions
      ensures CheckoutOutcome(db.Contents(), r) == Cancel(old(db.Contents()), id, userId)
    {
      if id >= |db.sessions| || db.sessions[id].userId != userId {
        return Err(CheckoutNotFound);
      }
      CloseSession(id, Cancelled, Released);
      r := Ok(());
    }

    /** The sweeper's look, outside any transaction; anything may happen before its transaction. */
    method LookToExpire(id: SessionId) returns (wanted: bool)
      modifies db`sweeping
      ensures db.Contents() == BeginExpire(old(db.Contents()), id)
      ensures wanted == WantsExpiry(old(db.Contents()), id)
    {
      if id >= |db.sessions| {
        return false;
      }
      if db.sessions[id].status == Expired || db.sessions[id].status == Completed {
        return false;
      }
      db.sweeping := db.sweeping + multiset{id};
      wanted := true;
    }

    /** The sweeper's transaction, on whatever the session has become since the look. */
    method CommitExpiry(id: SessionId)
      requires id in db.sweeping
      modifies db`inventory, db`sessions, db`sweeping
      ensures db.Contents() == FinishExpire(old(db.Contents()), id)
    {
      if id >= |db.sessions| {
        return;
      }
      CloseSession(id, Expired, Lapsed);
      db.sweeping := db.sweeping - multiset{id};
    }

    /** The two together, with nothing in between. */
    method ExpireCheckout(id: SessionId)
      modifies db`inventory, db`sessions, db`sweeping
      ensures db.Contents() ==
        if WantsExpiry(old(db.Contents()), id) then FinishExpire(BeginExpire(old(db.Contents()), id), id)
        else old(db.Contents())
    {
      var wanted := LookToExpire(id);
      if wanted {
        CommitExpiry(id);
      }
    }
  }
}
