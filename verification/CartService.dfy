/** The cart service as it runs: loops and updates in place on the database. */
module CartServices {
  import opened Outcomes
  import opened Lines
  import opened Catalog
  import opened Stock
  import opened Carts
  import opened CartMerge
  import opened CartOps
  import opened Checkout
  import opened ShopSteps
  import opened Databases

  class CartService {
    const db: Database

    constructor (db: Database)
      ensures this.db == db
    {
      this.db := db;
    }

    /** The loop over the live items that adds up what the cart caches. */
    static method AddUp(items: seq<Row>) returns (subtotal: Money, total: nat, selected: nat)
      ensures subtotal == SubtotalSum(items)
      ensures total == |items| && selected == |Selected(items)|
    {
      subtotal, total, selected := 0, 0, 0;
      for i := 0 to |items|
        invariant subtotal == SubtotalSum(items[..i])
        invariant total == i && selected == |Selected(items[..i])|
      {
        assert items[..i + 1][..i] == items[..i];
        subtotal := subtotal + items[i].subtotal;
        total := total + 1;
        if items[i].isSelected {
          selected := selected + 1;
        }
      }
      assert items[..|items|] == items;
    }

    static method RecomputeTotals(cart: Cart, rows: seq<Row>) returns (updated: Cart)
      ensures updated == Recomputed(cart, rows)
    {
      var subtotal, total, selected := AddUp(Live(rows));
      var estimatedShipping := 0;
      updated := cart.(
        rows := rows, subtotal := subtotal, itemCount := total, selectedItemCount := selected,
        estimatedShipping := estimatedShipping,
        grandTotal := subtotal + estimatedShipping + cart.shippingTotal + cart.taxTotal - cart.discountTotal);
    }

    /** The guards of adding, in the order in which they throw. */
    static method GuardAdd(cart: Cart, catalog: Catalog, inv: Inventory, v: VariantId, quantity: int)
        returns (error: Option<CartError>, target: int)
      requires InBounds(quantity)
      ensures error == AddRefusal(cart, catalog, inv, v, quantity)
      ensures target == OldQuantity(cart.rows, v) + quantity
    {
      var existing := Find(cart.rows, v, false);
      target := if existing >= 0 then cart.rows[existing].quantity + quantity else quantity;
      error := Unsellable(catalog, v);
      if error.None? {
        var count := |Live(cart.rows)|;
        if existing >= 0 && count > MAX_ITEMS_PER_CART {
          error := Some(MaxItemsReached);
        } else if existing < 0 && count + 1 > MAX_ITEMS_PER_CART {
          error := Some(MaxItemsReached);
        } else if target > StockOf(inv, v) {
          error := Some(ExceedsStock);
        } else if target > MAX_QUANTITY_PER_ITEM {
          error := Some(InvalidQuantity);
        }
      }
    }

    /** The body of adding, once the active cart is known. */
    static method AddTo(cart: Cart, catalog: Catalog, inv: Inventory, v: VariantId, quantity: int, choice: Option<bool>)
        returns (updated: Cart, error: Option<CartError>)
      requires InBounds(quantity)
      ensures CartOutcome(updated, error) == Carts.AddItem(cart, catalog, inv, v, quantity, choice)
    {
      var target;
      updated := cart;
      error, target := GuardAdd(cart, catalog, inv, v, quantity);
      if error.None? {
        var price := catalog[v].price;
        var selected := if choice.Some? then choice.value else true;
        var row := Row(v, target, price, price * target, selected, StockOf(inv, v), false);
        updated := RecomputeTotals(cart, Upsert(cart.rows, row));
      }
    }

    /** Writes the user's cart row. */
    method Persist(userId: UserId, cart: Cart)
      modifies db`carts
      ensures db.Contents() == WithCart(old(db.Contents()), userId, Some(cart))
    {
      db.carts := db.carts[userId := cart];
    }

    method AddItem(userId: UserId, catalog: Catalog, v: VariantId, quantity: int, choice: Option<bool>)
        returns (error: Option<CartError>)
      modifies db`carts
      ensures db.Contents() == CartCall(old(db.Contents()), userId, Add(v, quantity, choice), catalog)
      ensures error ==
        if !InBounds(quantity) then Some(InvalidQuantity)
        else
          var cart := Opened(userId, CartOf(old(db.Contents()), userId));
          Carts.AddItem(cart, catalog, db.inventory, v, quantity, choice).error
    {
      if !InBounds(quantity) {
        SameCart(db.Contents(), userId);
        return Some(InvalidQuantity);
      }
      if userId !in db.carts {
        Persist(userId, FreshCart(userId));
      }
      assert db.carts == old(db.carts)[userId := Opened(userId, CartOf(old(db.Contents()), userId))];
      var cart;
      cart, error := AddTo(db.carts[userId], catalog, db.inventory, v, quantity, choice);
      Persist(userId, cart);
      assert db.carts == old(db.carts)[userId := cart];
      AddCall(old(db.Contents()), userId, catalog, v, quantity, choice);
    }

    static lemma AddCall(s: Shop, userId: UserId, catalog: Catalog, v: VariantId, quantity: int, choice: Option<bool>)
      requires InBounds(quantity)
      ensures CartCall(s, userId, Add(v, quantity, choice), catalog) ==
        s.(carts := s.carts[userId :=
          Carts.AddItem(Opened(userId, CartOf(s, userId)), catalog, s.inventory, v, quantity, choice).cart])
    {
    }

    static method UpdateIn(cart: Cart, catalog: Catalog, inv: Inventory, item: nat, quantity: int, choice: Option<bool>)
        returns (updated: Cart, error: Option<CartError>)
      requires InBounds(quantity)
      ensures CartOutcome(updated, error) == Carts.UpdateItem(cart, catalog, inv, item, quantity, choice)
    {
      updated := cart;
      if item >= |cart.rows| || cart.rows[item].deleted {
        return cart, Some(ItemNotFound);
      }
      var row := cart.rows[item];
      error := Unsellable(catalog, row.variant);
      if error.None? {
        var stock := StockOf(inv, row.variant);
        if quantity > stock {
          return cart, Some(ExceedsStock);
        }
        var selected := if choice.Some? then choice.value else row.isSelected;
        row := row.(quantity := quantity, subtotal := row.unitPrice * quantity, isSelected := selected,
                    stockAtAdd := stock);
        updated := RecomputeTotals(cart, cart.rows[item := row]);
      }
    }

    method UpdateItem(userId: UserId, catalog: Catalog, item: nat, quantity: int, choice: Option<bool>)
        returns (error: Option<CartError>)
      modifies db`carts
      ensures db.Contents() == CartCall(old(db.Contents()), userId, Update(item, quantity, choice), catalog)
      ensures error ==
        if !InBounds(quantity) then Some(InvalidQuantity)
        else if old(userId !in db.carts) then Some(CartEmpty)
        else Carts.UpdateItem(old(db.carts)[userId], catalog, db.inventory, item, quantity, choice).error
    {
      SameCart(db.Contents(), userId);
      if !InBounds(quantity) {
        return Some(InvalidQuantity);
      }
      if userId !in db.carts {
        return Some(CartEmpty);
      }
      var cart;
      cart, error := UpdateIn(db.carts[userId], catalog, db.inventory, item, quantity, choice);
      Persist(userId, cart);
    }

    method RemoveItem(userId: UserId, catalog: Catalog, item: nat) returns (error: Option<CartError>)
      modifies db`carts
      ensures db.Contents() == CartCall(old(db.Contents()), userId, Remove(item), catalog)
      ensures error == if old(userId !in db.carts) then Some(CartEmpty)
                       else if HasItem(old(db.carts)[userId], item) then None else Some(ItemNotFound)
    {
      SameCart(db.Contents(), userId);
      if userId !in db.carts {
        return Some(CartEmpty);
      }
      var cart := db.carts[userId];
      if item >= |cart.rows| || cart.rows[item].deleted {
        return Some(ItemNotFound);
      }
      cart := RecomputeTotals(cart, cart.rows[item := cart.rows[item].(deleted := true)]);
      Persist(userId, cart);
      error := None;
    }

    method BulkRemoveItems(userId: UserId, catalog: Catalog, items: set<nat>) returns (error: Option<CartError>)
      modifies db`carts
      ensures db.Contents() == CartCall(old(db.Contents()), userId, BulkRemove(items), catalog)
      ensures error == if old(userId in db.carts) then None else Some(CartEmpty)
    {
      SameCart(db.Contents(), userId);
      if userId !in db.carts {
        return Some(CartEmpty);
      }
      var cart := db.carts[userId];
      cart := RecomputeTotals(cart, Tombstoned(cart.rows, Some(items)));
      Persist(userId, cart);
      error := None;
    }

    method ClearCart(userId: UserId, catalog: Catalog) returns (error: Option<CartError>)
      modifies db`carts
      ensures db.Contents() == CartCall(old(db.Contents()), userId, Clear, catalog)
      ensures error == if old(userId in db.carts) then None else Some(CartEmpty)
    {
      SameCart(db.Contents(), userId);
      if userId !in db.carts {
        return Some(CartEmpty);
      }
      var cart := db.carts[userId];
      cart := cart.(rows := Tombstoned(cart.rows, None), subtotal := 0, discountTotal := 0, taxTotal := 0,
                    shippingTotal := 0, estimatedShipping := 0, grandTotal := 0,
                    itemCount := 0, selectedItemCount := 0);
      Persist(userId, cart);
      error := None;
    }

    method SelectItems(userId: UserId, catalog: Catalog, items: Option<set<nat>>, flag: bool)
        returns (error: Option<CartError>)
      modifies db`carts
      ensures db.Contents() == CartCall(old(db.Contents()), userId, Select(items, flag), catalog)
      ensures error == if old(userId in db.carts) then None else Some(CartEmpty)
    {
      SameCart(db.Contents(), userId);
      if userId !in db.carts {
        return Some(CartEmpty);
      }
      var cart := db.carts[userId];
      var ids := if items.Some? && items.value != {} then items else None;
      cart := RecomputeTotals(cart, Flagged(cart.rows, ids, flag));
      Persist(userId, cart);
      error := None;
    }

    /** The merge loop with its three counters. */
    static method MergeLines(start: seq<Row>, catalog: Catalog, inv: Inventory, lines: seq<MergeLine>)
        returns (r: Result<Progress, CartError>)
      ensures r == MergeAll(start, catalog, inv, lines)
    {
      var rows, merged, keptSeparate, skipped := start, 0, 0, 0;
      for n := 0 to |lines|
        invariant MergeAll(start, catalog, inv, lines[..n]) == Ok(Progress(rows, merged, keptSeparate, skipped))
      {
        var l := lines[n];
        assert lines[..n + 1][..n] == lines[..n];
        MergeStops(start, catalog, inv, lines, n + 1);
        if !InBounds(l.line.quantity) {
          return Err(InvalidQuantity);
        }
        if !Purchasable(catalog, inv, l.line.variant) {
          skipped := skipped + 1;
          continue;
        }
        var stock := StockOf(inv, l.line.variant);
        var existing := Find(rows, l.line.variant, false);
        if existing >= 0 {
          var row := rows[existing];
          var target := row.quantity + l.line.quantity;
          if target > stock {
            target := stock;
          }
          target := ClampToBounds(target);
          if target <= 0 {
            skipped := skipped + 1;
            continue;
          }
          var selected := if l.isSelected.Some? then l.isSelected.value else row.isSelected;
          rows := rows[existing := row.(quantity := target, subtotal := row.unitPrice * target,
                                        isSelected := selected, stockAtAdd := stock)];
          merged := merged + 1;
        } else {
          if |Live(rows)| + 1 > MAX_ITEMS_PER_CART {
            keptSeparate := keptSeparate + 1;
            continue;
          }
          var target := l.line.quantity;
          if target > stock {
            target := stock;
          }
          target := ClampToBounds(target);
          if target <= 0 {
            skipped := skipped + 1;
            continue;
          }
          if Find(rows, l.line.variant, true) >= 0 {
            return Err(UniqueViolation);
          }
          rows := rows + [NewRow(catalog, inv, l, target)];
          merged := merged + 1;
        }
      }
      assert lines[..|lines|] == lines;
      r := Ok(Progress(rows, merged, keptSeparate, skipped));
    }

    /** An exception in the middle of the loop is the exception of the whole merge. */
    static lemma {:induction false} MergeStops(start: seq<Row>, catalog: Catalog, inv: Inventory,
                                               lines: seq<MergeLine>, n: nat)
      requires n <= |lines|
      ensures MergeAll(start, catalog, inv, lines[..n]).Err? ==>
        MergeAll(start, catalog, inv, lines) == MergeAll(start, catalog, inv, lines[..n])
    {
      if n == |lines| {
        assert lines[..n] == lines;
      } else {
        MergeStops(start, catalog, inv, lines[..|lines| - 1], n);
        assert lines[..|lines| - 1][..n] == lines[..n];
      }
    }

    method MergeCart(userId: UserId, catalog: Catalog, lines: seq<MergeLine>)
        returns (report: Option<Progress>, error: Option<CartError>)
      modifies db`carts
      ensures db.Contents() == CartCall(old(db.Contents()), userId, Merge(lines), catalog)
      ensures old(userId in db.carts) ==>
        match MergeAll(old(db.carts)[userId].rows, catalog, db.inventory, lines)
        case Ok(p) => report == Some(p) && error.None?
        case Err(e) => report.None? && error == Some(e)
      ensures old(userId !in db.carts) ==> report.None? && error == Some(CartEmpty)
    {
      SameCart(db.Contents(), userId);
      if userId !in db.carts {
        return None, Some(CartEmpty);
      }
      var cart := db.carts[userId];
      var r := MergeLines(cart.rows, catalog, db.inventory, lines);
      match r
      case Err(e) => return None, Some(e);
      case Ok(p) =>
        cart := RecomputeTotals(cart, p.rows);
        Persist(userId, cart);
        report, error := Some(p), None;
    }

    method DeleteCart(userId: UserId, catalog: Catalog)
      modifies db`carts
      ensures db.Contents() == CartCall(old(db.Contents()), userId, Drop, catalog)
    {
      db.carts := db.carts - {userId};
    }

    method GetOrCreateActiveCart(userId: UserId, catalog: Catalog) returns (cart: Cart)
      modifies db`carts
      ensures db.Contents() == CartCall(old(db.Contents()), userId, Open, catalog)
      ensures cart == Opened(userId, CartOf(old(db.Contents()), userId))
    {
      if userId !in db.carts {
        Persist(userId, FreshCart(userId));
      } else {
        SameCart(db.Contents(), userId);
      }
      cart := db.carts[userId];
    }

    static lemma SameCart(s: Shop, userId: UserId)
      ensures WithCart(s, userId, CartOf(s, userId)) == s
    {
      if userId in s.carts {
        assert s.carts[userId := s.carts[userId]] == s.carts;
      } else {
        assert s.carts - {userId} == s.carts;
      }
    }
  }
}
