/** What each cart operation keeps and what it changes, stated on the live lines of the cart. */
module CartLaws {
  import opened Outcomes
  import opened Lines
  import opened Catalog
  import opened Stock
  import opened Carts

  // ---------- counting live rows ----------

  lemma {:induction false} LiveOfUpdate(rows: seq<Row>, i: nat, row: Row)
    requires i < |rows|
    ensures |Live(rows[i := row])| + (if rows[i].deleted then 0 else 1) == |Live(rows)| + (if row.deleted then 0 else 1)
  {
    var front := rows[..|rows| - 1];
    if i == |rows| - 1 {
      assert rows[i := row][..|rows| - 1] == front;
    } else {
      LiveOfUpdate(front, i, row);
      assert rows[i := row][..|rows| - 1] == front[i := row];
    }
  }

  lemma LiveOfAppend(rows: seq<Row>, row: Row)
    ensures Live(rows + [row]) == Live(rows) + (if row.deleted then [] else [row])
  {
    assert (rows + [row])[..|rows|] == rows;
  }

  /** Deleting rows never makes more of them live; keeping every flag keeps the number. */
  lemma {:induction false} LiveOfFlags(a: seq<Row>, b: seq<Row>)
    requires |a| == |b|
    requires forall i :: 0 <= i < |a| && a[i].deleted ==> b[i].deleted
    ensures |Live(b)| <= |Live(a)|
    ensures (forall i :: 0 <= i < |a| ==> a[i].deleted == b[i].deleted) ==> |Live(b)| == |Live(a)|
    ensures (forall i :: 0 <= i < |b| ==> b[i].deleted) ==> Live(b) == []
  {
    if a != [] {
      LiveOfFlags(a[..|a| - 1], b[..|b| - 1]);
    }
  }

  lemma LiveOfUpsert(rows: seq<Row>, row: Row)
    requires !row.deleted
    ensures |Live(Upsert(rows, row))| == |Live(rows)| + (if Find(rows, row.variant, false) >= 0 then 0 else 1)
  {
    var live, dead := Find(rows, row.variant, false), Find(rows, row.variant, true);
    if live >= 0 {
      LiveOfUpdate(rows, live, row);
    } else if dead >= 0 {
      LiveOfUpdate(rows, dead, row);
    } else {
      LiveOfAppend(rows, row);
    }
  }

  lemma {:induction false} LiveVariantsAreCounted(rows: seq<Row>)
    requires Distinct(rows)
    ensures |LiveVariants(rows)| == |Live(rows)|
  {
    if rows != [] {
      var front, last := rows[..|rows| - 1], rows[|rows| - 1];
      LiveVariantsAreCounted(front);
      assert forall i :: 0 <= i < |front| ==> front[i] == rows[i];
      if last.deleted {
        assert LiveVariants(rows) == LiveVariants(front);
      } else {
        assert rows[|rows| - 1].variant in LiveVariants(rows);
        assert LiveVariants(rows) == LiveVariants(front) + {last.variant};
      }
    }
  }

  // ---------- adding ----------

  lemma FreshIsOk(userId: UserId)
    ensures CartOk(FreshCart(userId))
  {
  }

  /**
    * Adding succeeds exactly when the quantity is in bounds, the variant can be sold, a slot is free or already
    * taken by it, and the stock covers old and new quantity together; the other guards never fire on a cart that
    * is in order.
    */
  lemma AddItemSucceedsIff(c: Cart, catalog: Catalog, inv: Inventory, v: VariantId, quantity: int,
                           isSelected: Option<bool>)
    requires CartOk(c)
    ensures AddItem(c, catalog, inv, v, quantity, isSelected).error == AddRefusal(c, catalog, inv, v, quantity)
    ensures AddRefusal(c, catalog, inv, v, quantity).None? <==>
      && InBounds(quantity) && Unsellable(catalog, v).None?
      && (LineOf(c.rows, v).Some? || |Live(c.rows)| < MAX_ITEMS_PER_CART)
      && OldQuantity(c.rows, v) + quantity <= StockOf(inv, v)
    ensures AddRefusal(c, catalog, inv, v, quantity).Some? ==>
      AddItem(c, catalog, inv, v, quantity, isSelected).cart == c
  {
  }

  /** Recomputing the totals restores order once the rows are in order. */
  lemma RecomputedIsOk(cart: Cart, rows: seq<Row>)
    requires Distinct(rows) && RowsOk(rows) && |Live(rows)| <= MAX_ITEMS_PER_CART
    ensures CartOk(Recomputed(cart, rows))
  {
  }

  lemma UpsertKeepsRows(rows: seq<Row>, row: Row)
    requires RowsOk(rows) && RowOk(row)
    ensures RowsOk(Upsert(rows, row))
  {
  }

  lemma UpsertKeepsCart(cart: Cart, row: Row)
    requires CartOk(cart) && RowOk(row) && !row.deleted
    requires Find(cart.rows, row.variant, false) >= 0 || |Live(cart.rows)| < MAX_ITEMS_PER_CART
    ensures CartOk(Recomputed(cart, Upsert(cart.rows, row)))
  {
    LiveOfUpsert(cart.rows, row);
    LineOfUpsert(cart.rows, row, row.variant);
    UpsertKeepsRows(cart.rows, row);
    RecomputedIsOk(cart, Upsert(cart.rows, row));
  }

  lemma OldQuantityIsNatural(rows: seq<Row>, v: VariantId)
    requires RowsOk(rows)
    ensures OldQuantity(rows, v) >= 0
  {
    var i := Find(rows, v, false);
    assert i >= 0 ==> RowOk(rows[i]);
  }

  lemma AcceptedRowIsOk(c: Cart, catalog: Catalog, inv: Inventory, v: VariantId, quantity: int,
                        isSelected: Option<bool>)
    requires RowsOk(c.rows) && AddRefusal(c, catalog, inv, v, quantity).None?
    ensures RowOk(AddedRow(catalog, inv, v, OldQuantity(c.rows, v) + quantity, isSelected))
    ensures Find(c.rows, v, false) >= 0 || |Live(c.rows)| < MAX_ITEMS_PER_CART
  {
    OldQuantityIsNatural(c.rows, v);
  }

  lemma AddedCart(c: Cart, catalog: Catalog, inv: Inventory, v: VariantId, quantity: int, isSelected: Option<bool>)
    requires AddRefusal(c, catalog, inv, v, quantity).None?
    ensures AddItem(c, catalog, inv, v, quantity, isSelected).cart ==
      Recomputed(c, Upsert(c.rows, AddedRow(catalog, inv, v, OldQuantity(c.rows, v) + quantity, isSelected)))
  {
  }

  lemma AddKeepsOrder(c: Cart, catalog: Catalog, inv: Inventory, v: VariantId, quantity: int, isSelected: Option<bool>)
    requires CartOk(c)
    ensures CartOk(AddItem(c, catalog, inv, v, quantity, isSelected).cart)
  {
    if AddRefusal(c, catalog, inv, v, quantity).None? {
      var row := AddedRow(catalog, inv, v, OldQuantity(c.rows, v) + quantity, isSelected);
      AcceptedRowIsOk(c, catalog, inv, v, quantity, isSelected);
      AddedCart(c, catalog, inv, v, quantity, isSelected);
      UpsertKeepsCart(c, row);
    }
  }

  /** A successful add changes the line of `v` alone. */
  lemma AddItemEffect(c: Cart, catalog: Catalog, inv: Inventory, v: VariantId, quantity: int, isSelected: Option<bool>,
                      w: VariantId)
    requires Distinct(c.rows) && AddRefusal(c, catalog, inv, v, quantity).None?
    ensures LineOf(AddItem(c, catalog, inv, v, quantity, isSelected).cart.rows, w) ==
      if w != v then LineOf(c.rows, w)
      else Some(AddedRow(catalog, inv, v, OldQuantity(c.rows, v) + quantity, isSelected))
  {
    AddedCart(c, catalog, inv, v, quantity, isSelected);
    LineOfUpsert(c.rows, AddedRow(catalog, inv, v, OldQuantity(c.rows, v) + quantity, isSelected), w);
  }

  // ---------- updating and removing one item ----------

  lemma LineOfUpdate(rows: seq<Row>, item: nat, row: Row, w: VariantId)
    requires Distinct(rows) && item < |rows| && row.variant == rows[item].variant
    ensures Distinct(rows[item := row])
    ensures LineOf(rows[item := row], w) ==
      if w != row.variant then LineOf(rows, w) else if row.deleted then None else Some(row)
  {
    LineOfFrame(rows, rows[item := row], item, w);
  }

  lemma UpdateKeepsRows(rows: seq<Row>, item: nat, row: Row)
    requires RowsOk(rows) && RowOk(row) && item < |rows|
    ensures RowsOk(rows[item := row])
  {
  }

  /** A row replaced by a sound one of the same variant: the cart stays in order and no other line moves. */
  lemma ReplaceRow(c: Cart, item: nat, row: Row, w: VariantId)
    requires CartOk(c) && HasItem(c, item) && row.variant == c.rows[item].variant && RowOk(row)
    ensures CartOk(Recomputed(c, c.rows[item := row]))
    ensures LineOf(c.rows[item := row], w) ==
      if w != row.variant then LineOf(c.rows, w) else if row.deleted then None else Some(row)
  {
    LiveOfUpdate(c.rows, item, row);
    LineOfUpdate(c.rows, item, row, w);
    UpdateKeepsRows(c.rows, item, row);
    RecomputedIsOk(c, c.rows[item := row]);
  }

  lemma UpdateItemEffect(c: Cart, catalog: Catalog, inv: Inventory, item: nat, quantity: int, isSelected: Option<bool>,
                         w: VariantId)
    requires CartOk(c) && UpdateItem(c, catalog, inv, item, quantity, isSelected).error.None?
    ensures var row := c.rows[item];
      var after := UpdateItem(c, catalog, inv, item, quantity, isSelected).cart;
      && CartOk(after)
      && LineOf(after.rows, w) ==
        if w != row.variant then LineOf(c.rows, w)
        else Some(Row(w, quantity, row.unitPrice, row.unitPrice * quantity,
                      Chosen(isSelected, row.isSelected), StockOf(inv, w), false))
  {
    var row := c.rows[item];
    var updated := Row(row.variant, quantity, row.unitPrice, row.unitPrice * quantity,
                       Chosen(isSelected, row.isSelected), StockOf(inv, row.variant), false);
    assert UpdateItem(c, catalog, inv, item, quantity, isSelected).cart == Recomputed(c, c.rows[item := updated]);
    ReplaceRow(c, item, updated, w);
  }

  lemma RemoveItemLaw(c: Cart, item: nat, w: VariantId)
    requires CartOk(c)
    ensures var out := RemoveItem(c, item);
      && CartOk(out.cart)
      && (out.error.None? <==> HasItem(c, item))
      && (out.error.Some? ==> out.cart == c)
      && (out.error.None? ==>
            LineOf(out.cart.rows, w) == if w == c.rows[item].variant then None else LineOf(c.rows, w))
  {
    if HasItem(c, item) {
      assert RowOk(c.rows[item]);
      ReplaceRow(c, item, c.rows[item].(deleted := true), w);
    }
  }

  // ---------- bulk statements ----------

  /** A line goes exactly when its row is targeted; all others stay as they were. */
  lemma LineOfTombstoned(rows: seq<Row>, items: Option<set<nat>>, v: VariantId)
    requires Distinct(rows)
    ensures LineOf(Tombstoned(rows, items), v) ==
      if LineOf(rows, v).Some? && Targets(items, Find(rows, v, false)) then None else LineOf(rows, v)
  {
    var after := Tombstoned(rows, items);
    var i, j := Find(rows, v, false), Find(after, v, false);
    if j >= 0 {
      FindIsUnique(rows, j);
    }
    if i >= 0 {
      FindIsUnique(after, i);
    }
  }

  lemma LineOfFlagged(rows: seq<Row>, items: Option<set<nat>>, flag: bool, v: VariantId)
    requires Distinct(rows)
    ensures LineOf(Flagged(rows, items, flag), v) ==
      if LineOf(rows, v).Some? && Targets(items, Find(rows, v, false))
      then Some(LineOf(rows, v).value.(isSelected := flag)) else LineOf(rows, v)
  {
    var after := Flagged(rows, items, flag);
    var i, j := Find(rows, v, false), Find(after, v, false);
    if j >= 0 {
      FindIsUnique(rows, j);
    }
    if i >= 0 {
      FindIsUnique(after, i);
    }
  }

  lemma BulkKeepsCart(c: Cart, after: seq<Row>)
    requires CartOk(c) && |after| == |c.rows| && RowsOk(after)
    requires forall i :: 0 <= i < |after| ==> after[i].variant == c.rows[i].variant
    requires forall i :: 0 <= i < |after| && c.rows[i].deleted ==> after[i].deleted
    ensures CartOk(Recomputed(c, after))
  {
    LiveOfFlags(c.rows, after);
  }

  /** Bulk removal takes away exactly the listed lines. */
  lemma BulkRemoveLaw(c: Cart, items: set<nat>, w: VariantId)
    requires CartOk(c)
    ensures CartOk(BulkRemoveItems(c, items))
    ensures LineOf(BulkRemoveItems(c, items).rows, w) ==
      if LineOf(c.rows, w).Some? && Find(c.rows, w, false) in items then None else LineOf(c.rows, w)
  {
    BulkKeepsCart(c, Tombstoned(c.rows, Some(items)));
    LineOfTombstoned(c.rows, Some(items), w);
  }

  /** Clearing leaves no line, and totals that are zero because nothing is left to add up. */
  lemma ClearLaw(c: Cart, w: VariantId)
    requires CartOk(c)
    ensures CartOk(ClearCart(c))
    ensures LineOf(ClearCart(c).rows, w) == None && Live(ClearCart(c).rows) == []
  {
    LiveOfFlags(c.rows, Tombstoned(c.rows, None));
    LineOfTombstoned(c.rows, None, w);
  }

  /** Selecting sets the flag of the listed lines, or of all of them when the list is absent or empty. */
  lemma SelectLaw(c: Cart, items: Option<set<nat>>, flag: bool, w: VariantId)
    requires CartOk(c)
    ensures CartOk(SelectItems(c, items, flag))
    ensures LineOf(SelectItems(c, items, flag).rows, w) ==
      if LineOf(c.rows, w).Some? && (items.None? || items.value == {} || Find(c.rows, w, false) in items.value)
      then Some(LineOf(c.rows, w).value.(isSelected := flag))
      else LineOf(c.rows, w)
  {
    var ids := if items.Some? && items.value != {} then items else None;
    BulkKeepsCart(c, Flagged(c.rows, ids, flag));
    LineOfFlagged(c.rows, ids, flag, w);
    assert SelectItems(c, items, flag).rows == Flagged(c.rows, ids, flag);
  }
}
