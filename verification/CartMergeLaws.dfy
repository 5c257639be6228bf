/** Merging does not ask whether a product is published or a variant active; adding and checking out do. */
module CartMergeLaws {
  import opened Outcomes
  import opened Lines
  import opened Catalog
  import opened Stock
  import opened Carts
  import opened CartMerge
  import opened Checkout
  import opened ShopLaws

  /** Refused for what the catalog says of the variant, not for quantity, slots or stock. */
  predicate NotForSale(error: Option<CartError>) {
    error in {Some(CartError.VariantUnavailable), Some(ProductInactive), Some(VariantInactive)}
  }

  lemma UnsellableIff(catalog: Catalog, v: VariantId)
    ensures Unsellable(catalog, v).Some? <==> !Sellable(catalog, v)
    ensures Unsellable(catalog, v).Some? ==> NotForSale(Unsellable(catalog, v))
  {
  }

  /** The live line of a variant that the merge updates or admits. */
  lemma MergedLine(rows: seq<Row>, catalog: Catalog, inv: Inventory, lines: seq<MergeLine>, v: VariantId)
    requires Distinct(rows) && Mergeable(rows, catalog, inv, lines)
    requires Find(rows, v, false) >= 0 || v in Admitted(rows, catalog, inv, lines)
    ensures LineOf(MergedRows(rows, catalog, inv, lines), v).Some?
  {
    var r, adm := MergedRows(rows, catalog, inv, lines), Admitted(rows, catalog, inv, lines);
    MergedExtends(rows, catalog, inv, lines);
    ExtendedIsDistinct(rows, adm, r);
    if Find(rows, v, false) >= 0 {
      ExtendedFindOld(rows, adm, r, Find(rows, v, false));
    } else {
      var k :| 0 <= k < |adm| && adm[k] == v;
      ExtendedFindNew(rows, adm, r, k);
    }
  }

  /**
   * A variant a merge takes in, into its line or as a newcomer, is one that adding would refuse for what the catalog
   * says of it exactly when its product is missing, deleted or unpublished or the variant itself inactive.
   */
  lemma MergedIsRefusedIff(c: Cart, catalog: Catalog, inv: Inventory, lines: seq<MergeLine>, v: VariantId,
                           quantity: int)
    requires Distinct(c.rows) && Mergeable(c.rows, catalog, inv, lines) && InBounds(quantity)
    requires Purchasable(catalog, inv, v) && NamesVariant(lines, v)
    requires Find(c.rows, v, false) >= 0 || v in Admitted(c.rows, catalog, inv, lines)
    ensures LineOf(MergedRows(c.rows, catalog, inv, lines), v).Some?
    ensures NotForSale(AddRefusal(c, catalog, inv, v, quantity)) <==> !Sellable(catalog, v)
  {
    MergedLine(c.rows, catalog, inv, lines, v);
    UnsellableIff(catalog, v);
  }

  // ---------- the rows of a merge, in the figures of the tables ----------

  /** The last word the lines have on whether `v` is selected: `flag`, or nothing when `flag` is None. */
  ghost predicate LastWord(lines: seq<MergeLine>, v: VariantId, flag: Option<bool>) {
    if flag.None? then forall i :: 0 <= i < |lines| && lines[i].line.variant == v ==> lines[i].isSelected == None
    else exists i :: SaysLast(lines, v, flag, i)
  }

  ghost predicate SaysLast(lines: seq<MergeLine>, v: VariantId, flag: Option<bool>, i: int) {
    && 0 <= i < |lines| && lines[i].line.variant == v && lines[i].isSelected == flag
    && forall j :: i < j < |lines| && lines[j].line.variant == v ==> lines[j].isSelected == None
  }

  lemma {:induction false} LastChoiceLaw(lines: seq<MergeLine>, v: VariantId, default: bool)
      returns (flag: Option<bool>)
    ensures LastWord(lines, v, flag)
    ensures LastChoice(lines, v, default) == match flag { case None => default case Some(b) => b }
  {
    flag := None;
    if |lines| > 0 {
      var front, last := lines[..|lines| - 1], lines[|lines| - 1];
      flag := LastChoiceLaw(front, v, default);
      if last.line.variant == v && last.isSelected.Some? {
        flag := last.isSelected;
        assert SaysLast(lines, v, flag, |lines| - 1);
      } else if flag.Some? {
        var i :| SaysLast(front, v, flag, i);
        assert forall j :: 0 <= j < |front| ==> lines[j] == front[j];
        assert SaysLast(lines, v, flag, i);
      } else {
        assert forall j :: 0 <= j < |front| ==> lines[j] == front[j];
      }
    }
  }

  /** What a line of `v` holds after the merge: everything asked on top of `held`, at most the stock and 999. */
  ghost predicate MergedTo(inv: Inventory, lines: seq<MergeLine>, row: Row, price: Money, held: int, default: bool) {
    var v := row.variant;
    && v in inv
    && row.unitPrice == price
    && row.quantity == Min(held + Demand(Plain(lines), v), Min(inv[v].available, 999))
    && row.subtotal == price * row.quantity
    && row.stockAtAdd == Min(inv[v].available, 999)
    && exists flag :: LastWord(lines, v, flag) && row.isSelected == (if flag.Some? then flag.value else default)
  }

  /** A line takes part in the merge when its variant exists, is not deleted and has stock. */
  ghost predicate TakesPart(catalog: Catalog, inv: Inventory, lines: seq<MergeLine>, v: VariantId) {
    && v in catalog && !catalog[v].deleted && v in inv && inv[v].available > 0
    && exists i :: 0 <= i < |lines| && lines[i].line.variant == v
  }

  /** A row that was there keeps its place and its own price, and a row that takes no part is left as it was. */
  lemma MergeKeepsPrices(rows: seq<Row>, catalog: Catalog, inv: Inventory, lines: seq<MergeLine>, i: nat)
    requires Distinct(rows) && RowsOk(rows) && MergeAll(rows, catalog, inv, lines).Ok? && i < |rows|
    ensures var after := MergeAll(rows, catalog, inv, lines).value.rows;
      && i < |after|
      && if !rows[i].deleted && TakesPart(catalog, inv, lines, rows[i].variant) then
           && after[i].variant == rows[i].variant && !after[i].deleted
           && MergedTo(inv, lines, after[i], rows[i].unitPrice, rows[i].quantity, rows[i].isSelected)
         else after[i] == rows[i]
  {
    MergeClosedForm(rows, catalog, inv, lines);
    var flag := LastChoiceLaw(lines, rows[i].variant, rows[i].isSelected);
  }

  /**
    * A row that is new belongs to a variant that takes part and had no live line, at the price of the catalog; and the
    * cart has such a row for every one of these variants, or is full.
    */
  lemma MergeTakesInAtCatalogPrice(rows: seq<Row>, catalog: Catalog, inv: Inventory, lines: seq<MergeLine>, k: nat)
    requires Distinct(rows) && RowsOk(rows) && MergeAll(rows, catalog, inv, lines).Ok?
    requires |rows| <= k < |MergeAll(rows, catalog, inv, lines).value.rows|
    ensures var row := MergeAll(rows, catalog, inv, lines).value.rows[k];
      && !row.deleted && TakesPart(catalog, inv, lines, row.variant) && LineOf(rows, row.variant).None?
      && MergedTo(inv, lines, row, catalog[row.variant].price, 0, true)
  {
    MergeClosedForm(rows, catalog, inv, lines);
    var adm := Admitted(rows, catalog, inv, lines);
    var v := adm[k - |rows|];
    assert v in adm;
    AdmittedAreNewcomers(rows, catalog, inv, lines, v);
    var flag := LastChoiceLaw(lines, v, true);
  }

  lemma MergeFillsTheCart(rows: seq<Row>, catalog: Catalog, inv: Inventory, lines: seq<MergeLine>, v: VariantId)
    requires Distinct(rows) && RowsOk(rows) && MergeAll(rows, catalog, inv, lines).Ok?
    requires TakesPart(catalog, inv, lines, v)
    ensures var after := MergeAll(rows, catalog, inv, lines).value.rows;
      && (LineOf(after, v).Some? || |Live(after)| >= 100)
      && |Live(after)| <= Max(|Live(rows)|, 100)
  {
    MergeClosedForm(rows, catalog, inv, lines);
    var adm := Admitted(rows, catalog, inv, lines);
    MergedExtends(rows, catalog, inv, lines);
    ExtendedLive(rows, adm, MergedRows(rows, catalog, inv, lines));
    NewcomersLaw(rows, catalog, inv, lines);
    if Find(rows, v, false) >= 0 || v in adm {
      MergedLine(rows, catalog, inv, lines, v);
    } else if |adm| < FreeSlots(rows) {
      FirstNaming(rows, catalog, inv, lines, v);
    }
  }

  // ---------- what checkout then says ----------

  lemma {:induction false} LiveHolds(rows: seq<Row>, i: nat)
    requires i < |rows| && !rows[i].deleted
    ensures rows[i] in Live(rows)
  {
    if i < |rows| - 1 {
      LiveHolds(rows[..|rows| - 1], i);
    }
  }

  lemma {:induction false} SelectedHolds(rows: seq<Row>, row: Row)
    requires row in rows && row.isSelected
    ensures row in Selected(rows)
  {
    var front, last := rows[..|rows| - 1], rows[|rows| - 1];
    assert rows == front + [last];
    if row != last {
      SelectedHolds(front, row);
    }
  }

  /** A cart with a selected line that is not for sale cannot be checked out, however the line got there. */
  lemma UnsellableLineBlocksCheckout(s: Shop, userId: UserId, key: Option<string>, catalog: Catalog, now: int,
                                     v: VariantId)
    requires ReplayOf(s, userId, key).None? && userId in s.carts && !Sellable(catalog, v)
    requires LineOf(s.carts[userId].rows, v).Some? && LineOf(s.carts[userId].rows, v).value.isSelected
    ensures CreateCheckout(s, userId, key, catalog, now).result.Err?
  {
    var rows := s.carts[userId].rows;
    LiveHolds(rows, Find(rows, v, false));
    SelectedHolds(Live(rows), LineOf(rows, v).value);
    CreateSucceedsIff(s, userId, key, catalog, now);
    var picked := Selected(Live(rows));
    var i :| 0 <= i < |picked| && picked[i] == LineOf(rows, v).value;
    assert !Sellable(catalog, picked[i].variant);
  }

  /** An unpublished product with stock, merged into a cart without rows: taken in, though adding it is refused. */
  lemma UnpublishedSlipsIn(c: Cart, catalog: Catalog, inv: Inventory, v: VariantId, quantity: int)
    requires c.rows == [] && InBounds(quantity) && Purchasable(catalog, inv, v)
    requires catalog[v].product.Some? && !catalog[v].product.value.deleted && !catalog[v].product.value.published
    ensures var out := MergeCart(c, catalog, inv, [MergeLine(Line(v, quantity), None)]);
            && out.error.None? && LineOf(out.cart.rows, v).Some? && LineOf(out.cart.rows, v).value.isSelected
            && AddItem(c, catalog, inv, v, quantity, None).error == Some(ProductInactive)
  {
    var l := MergeLine(Line(v, quantity), None);
    var row := NewRow(catalog, inv, l, Min(quantity, StockOf(inv, v)));
    MergeOfOne(c.rows, catalog, inv, l);
    assert MergeOne(Progress(c.rows, 0, 0, 0), catalog, inv, l) == Ok(Progress(c.rows + [row], 1, 0, 0));
    FindIsUnique([row], 0);
    assert c.rows + [row] == [row];
  }
}
