/** Which exception each cart call raises, what it stores, and how the money moves, in the figures of the tables. */
module CartAnswers {
  import opened Outcomes
  import opened Lines
  import opened Catalog
  import opened Stock
  import opened Carts
  import opened CartLaws
  import opened CartMerge
  import opened CartOps

  // ---------- one line ----------

  /** The exception for what the catalog says of a variant: the first of these that applies. */
  lemma UnsellableLaw(catalog: Catalog, v: VariantId)
    ensures Unsellable(catalog, v) ==
      if v !in catalog || catalog[v].deleted || catalog[v].product.None? || catalog[v].product.value.deleted
      then Some(VariantUnavailable)
      else if !catalog[v].product.value.published then Some(ProductInactive)
      else if !catalog[v].active then Some(VariantInactive)
      else None
    ensures Unsellable(catalog, v).None? <==> Sellable(catalog, v)
  {
  }

  /**
    * What adding answers, in the order of the checks, and the line it leaves: the price of the catalog, what was held
    * and what was asked together, selected unless the caller says no.
    */
  lemma AddItemLaw(c: Cart, catalog: Catalog, inv: Inventory, v: VariantId, quantity: int, choice: Option<bool>)
    requires CartOk(c)
    ensures var out := AddItem(c, catalog, inv, v, quantity, choice);
      var line := LineOf(c.rows, v);
      var held := if line.Some? then line.value.quantity else 0;
      var stock := if v in inv then Max(0, Min(inv[v].available, 999)) else 0;
      && out.error == (
           if quantity < 1 || quantity > 999 then Some(InvalidQuantity)
           else if Unsellable(catalog, v).Some? then Unsellable(catalog, v)
           else if line.None? && |Live(c.rows)| >= 100 then Some(MaxItemsReached)
           else if held + quantity > stock then Some(ExceedsStock)
           else None)
      && (out.error.Some? ==> out.cart == c)
      && (out.error.None? ==>
            && v in catalog
            && LineOf(out.cart.rows, v) ==
               Some(Row(v, held + quantity, catalog[v].price, catalog[v].price * (held + quantity),
                        choice != Some(false), stock, false)))
  {
    var i := Find(c.rows, v, false);
    assert i >= 0 ==> RowOk(c.rows[i]);
    if AddRefusal(c, catalog, inv, v, quantity).None? {
      AddItemEffect(c, catalog, inv, v, quantity, choice, v);
    }
  }

  /** What updating answers, in the order of the checks, and the one row it writes; the price stays the row's own. */
  lemma UpdateItemLaw(c: Cart, catalog: Catalog, inv: Inventory, item: nat, quantity: int, choice: Option<bool>)
    ensures var out := UpdateItem(c, catalog, inv, item, quantity, choice);
      if quantity < 1 || quantity > 999 then out == CartOutcome(c, Some(InvalidQuantity))
      else if item >= |c.rows| || c.rows[item].deleted then out == CartOutcome(c, Some(ItemNotFound))
      else
        var row := c.rows[item];
        var v := row.variant;
        var stock := if v in inv then Max(0, Min(inv[v].available, 999)) else 0;
        if Unsellable(catalog, v).Some? then out == CartOutcome(c, Unsellable(catalog, v))
        else if quantity > stock then out == CartOutcome(c, Some(ExceedsStock))
        else
          && out.error == None
          && out.cart.rows == c.rows[item :=
               Row(v, quantity, row.unitPrice, row.unitPrice * quantity,
                   match choice { case None => row.isSelected case Some(flag) => flag }, stock, false)]
  {
  }

  // ---------- the money ----------

  function WorthOf(row: Row): Money {
    if row.deleted then 0 else row.subtotal
  }

  /** What all live lines of a row table come to. */
  function Worth(rows: seq<Row>): Money {
    if |rows| == 0 then 0 else Worth(rows[..|rows| - 1]) + WorthOf(rows[|rows| - 1])
  }

  lemma SubtotalOfAppend(rows: seq<Row>, row: Row)
    ensures SubtotalSum(rows + [row]) == SubtotalSum(rows) + row.subtotal
  {
    assert (rows + [row])[..|rows|] == rows;
  }

  lemma {:induction false} SubtotalIsWorth(rows: seq<Row>)
    ensures SubtotalSum(Live(rows)) == Worth(rows)
  {
    if |rows| > 0 {
      var front, last := rows[..|rows| - 1], rows[|rows| - 1];
      SubtotalIsWorth(front);
      if !last.deleted {
        SubtotalOfAppend(Live(front), last);
      } else {
        assert Live(rows) == Live(front);
      }
    }
  }

  lemma WorthOfAppend(rows: seq<Row>, row: Row)
    ensures Worth(rows + [row]) == Worth(rows) + WorthOf(row)
  {
    assert (rows + [row])[..|rows|] == rows;
  }

  /** Replacing one row moves the sum by what the row is worth more or less, and by nothing else. */
  lemma {:induction false} WorthOfUpdate(rows: seq<Row>, i: nat, row: Row)
    requires i < |rows|
    ensures Worth(rows[i := row]) == Worth(rows) - WorthOf(rows[i]) + WorthOf(row)
  {
    var front := rows[..|rows| - 1];
    if i == |front| {
      assert rows[i := row][..|front|] == front;
    } else {
      WorthOfUpdate(front, i, row);
      assert rows[i := row][..|front|] == front[i := row];
    }
  }

  lemma WorthOfUpsert(rows: seq<Row>, row: Row)
    requires !row.deleted
    ensures Worth(Upsert(rows, row)) ==
      Worth(rows) + row.subtotal - (match LineOf(rows, row.variant) { case None => 0 case Some(line) => line.subtotal })
  {
    var live, dead := Find(rows, row.variant, false), Find(rows, row.variant, true);
    if live >= 0 {
      WorthOfUpdate(rows, live, row);
    } else if dead >= 0 {
      WorthOfUpdate(rows, dead, row);
    } else {
      WorthOfAppend(rows, row);
    }
  }

  lemma UpsertMovesSubtotal(c: Cart, row: Row)
    requires CachesAgree(c) && !row.deleted
    ensures Recomputed(c, Upsert(c.rows, row)).subtotal ==
      c.subtotal + (match LineOf(c.rows, row.variant)
        case None => row.subtotal
        case Some(line) => row.subtotal - line.subtotal)
  {
    WorthOfUpsert(c.rows, row);
    SubtotalIsWorth(c.rows);
    SubtotalIsWorth(Upsert(c.rows, row));
  }

  /** Adding moves the cart's subtotal by the new line less the old one. */
  lemma AddMovesSubtotal(c: Cart, catalog: Catalog, inv: Inventory, v: VariantId, quantity: int, choice: Option<bool>)
    requires CartOk(c) && AddItem(c, catalog, inv, v, quantity, choice).error.None?
    ensures var after := AddItem(c, catalog, inv, v, quantity, choice).cart;
      && v in catalog
      && after.subtotal == c.subtotal + (match LineOf(c.rows, v)
           case None => catalog[v].price * quantity
           case Some(line) => catalog[v].price * (line.quantity + quantity) - line.subtotal)
  {
    var row := AddedRow(catalog, inv, v, OldQuantity(c.rows, v) + quantity, choice);
    AddedCart(c, catalog, inv, v, quantity, choice);
    UpsertMovesSubtotal(c, row);
  }

  /** Updating moves it by the price times the change in quantity. */
  lemma UpdateMovesSubtotal(c: Cart, catalog: Catalog, inv: Inventory, item: nat, quantity: int, choice: Option<bool>)
    requires CartOk(c) && UpdateItem(c, catalog, inv, item, quantity, choice).error.None?
    ensures var row := c.rows[item];
      UpdateItem(c, catalog, inv, item, quantity, choice).cart.subtotal ==
        c.subtotal + row.unitPrice * (quantity - row.quantity)
  {
    var row, after := c.rows[item], UpdateItem(c, catalog, inv, item, quantity, choice).cart;
    UpdateItemLaw(c, catalog, inv, item, quantity, choice);
    WorthOfUpdate(c.rows, item, after.rows[item]);
    assert after.rows == c.rows[item := after.rows[item]];
    SubtotalIsWorth(c.rows);
    SubtotalIsWorth(after.rows);
    assert RowOk(row);
    Difference(row.unitPrice, quantity, row.quantity);
  }

  lemma Difference(price: Money, a: int, b: int)
    ensures price * a - price * b == price * (a - b)
  {
  }

  /** Removing takes the removed line's subtotal off. */
  lemma RemoveMovesSubtotal(c: Cart, item: nat)
    requires CartOk(c) && RemoveItem(c, item).error.None?
    ensures RemoveItem(c, item).cart.subtotal == c.subtotal - c.rows[item].subtotal
  {
    WorthOfUpdate(c.rows, item, c.rows[item].(deleted := true));
    SubtotalIsWorth(c.rows);
    SubtotalIsWorth(c.rows[item := c.rows[item].(deleted := true)]);
  }

  /**
    * No cart call touches discount, tax, shipping or the owner, except clearing, which sets every total to zero; an
    * estimate for shipping is never kept.
    */
  lemma OnlyClearTouchesCharges(userId: UserId, c: Cart, op: CartOp, catalog: Catalog, inv: Inventory)
    requires Apply(userId, Some(c), op, catalog, inv).Some?
    ensures var after := Apply(userId, Some(c), op, catalog, inv).value;
      && after.userId == c.userId
      && (if op.Clear? then after == Cart(c.userId, after.rows, 0, 0, 0, 0, 0, 0, 0, 0)
          else
            && after.discountTotal == c.discountTotal
            && after.taxTotal == c.taxTotal
            && after.shippingTotal == c.shippingTotal
            && (after == c || after.estimatedShipping == 0))
  {
  }

  /** Without an active cart only opening one, or adding a quantity that is in bounds, makes one; dropping ends it. */
  lemma CartExistsIff(userId: UserId, cart: Option<Cart>, op: CartOp, catalog: Catalog, inv: Inventory)
    ensures Apply(userId, cart, op, catalog, inv).Some? <==>
      (if cart.Some? then !op.Drop? else op.Open? || (op.Add? && 1 <= op.quantity <= 999))
    ensures cart.None? && op.Open? ==>
      Apply(userId, cart, op, catalog, inv) == Some(Cart(userId, [], 0, 0, 0, 0, 0, 0, 0, 0))
    ensures cart.Some? && op.Open? ==> Apply(userId, cart, op, catalog, inv) == cart
  {
  }

  /** The rows each call leaves in an active cart; adding and updating are told apart above, line by line. */
  ghost predicate RowsAfter(c: Cart, op: CartOp, catalog: Catalog, inv: Inventory, after: seq<Row>) {
    match op
    case Add(v, quantity, choice) => after == AddItem(c, catalog, inv, v, quantity, choice).cart.rows
    case Update(item, quantity, choice) => after == UpdateItem(c, catalog, inv, item, quantity, choice).cart.rows
    case Remove(item) =>
      after == if item < |c.rows| then c.rows[item := c.rows[item].(deleted := true)] else c.rows
    case BulkRemove(items) =>
      && |after| == |c.rows|
      && forall i :: 0 <= i < |after| ==>
           after[i] == if i in items then c.rows[i].(deleted := true) else c.rows[i]
    case Clear =>
      |after| == |c.rows| && forall i :: 0 <= i < |after| ==> after[i] == c.rows[i].(deleted := true)
    case Select(items, flag) =>
      && |after| == |c.rows|
      && forall i :: 0 <= i < |after| ==>
           after[i] == if !c.rows[i].deleted && (items == None || items == Some({}) || i in items.value)
                       then c.rows[i].(isSelected := flag) else c.rows[i]
    case Merge(lines) =>
      (match MergeAll(c.rows, catalog, inv, lines) { case Ok(p) => after == p.rows case Err(_) => after == c.rows })
    case _ => after == c.rows
  }

  lemma CallLaw(userId: UserId, c: Cart, op: CartOp, catalog: Catalog, inv: Inventory)
    ensures !op.Drop? ==>
      && Apply(userId, Some(c), op, catalog, inv).Some?
      && RowsAfter(c, op, catalog, inv, Apply(userId, Some(c), op, catalog, inv).value.rows)
  {
    if op.Remove? && op.removed < |c.rows| && c.rows[op.removed].deleted {
      assert c.rows[op.removed := c.rows[op.removed].(deleted := true)] == c.rows;
    }
  }
}
