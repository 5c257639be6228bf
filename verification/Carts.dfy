/**
  * A cart: its row table with soft-deleted rows, its cached totals, and the operations of the cart service
  * as functions from the cart before to the cart after. The position of a row is its item id; rows are never
  * physically removed, and at most one row exists per variant, deleted or not.
  */
module Carts {
  import opened Outcomes
  import opened Lines
  import opened Catalog
  import opened Stock

  const MAX_ITEMS_PER_CART: nat := 100
  const MAX_QUANTITY_PER_ITEM: nat := 999
  const MIN_QUANTITY_PER_ITEM: nat := 1

  type Money = int

  datatype Row = Row(variant: VariantId, quantity: int, unitPrice: Money, subtotal: Money,
                     isSelected: bool, stockAtAdd: int, deleted: bool)

  type UserId = nat

  datatype Cart = Cart(userId: UserId, rows: seq<Row>,
                       subtotal: Money, discountTotal: Money, taxTotal: Money, shippingTotal: Money,
                       estimatedShipping: Money, grandTotal: Money, itemCount: nat, selectedItemCount: nat)

  datatype CartError =
    | InvalidQuantity | VariantUnavailable | ProductInactive | VariantInactive
    | MaxItemsReached | ExceedsStock | CartEmpty | ItemNotFound | UniqueViolation

  /** The cart a call leaves behind and the exception it raised, if any. */
  datatype CartOutcome = CartOutcome(cart: Cart, error: Option<CartError>)

  // ---------- rows ----------

  function Live(rows: seq<Row>): seq<Row> {
    if |rows| == 0 then []
    else Live(rows[..|rows| - 1]) + (if rows[|rows| - 1].deleted then [] else [rows[|rows| - 1]])
  }

  function Selected(rows: seq<Row>): seq<Row> {
    if |rows| == 0 then []
    else Selected(rows[..|rows| - 1]) + (if rows[|rows| - 1].isSelected then [rows[|rows| - 1]] else [])
  }

  function SubtotalSum(rows: seq<Row>): Money {
    if |rows| == 0 then 0 else SubtotalSum(rows[..|rows| - 1]) + rows[|rows| - 1].subtotal
  }

  ghost predicate Distinct(rows: seq<Row>) {
    forall i, j :: 0 <= i < j < |rows| ==> rows[i].variant != rows[j].variant
  }

  predicate RowOk(row: Row) {
    && row.subtotal == row.unitPrice * row.quantity
    && 1 <= row.quantity <= MAX_QUANTITY_PER_ITEM
  }

  ghost predicate RowsOk(rows: seq<Row>) {
    forall i :: 0 <= i < |rows| ==> RowOk(rows[i])
  }

  /** The first row of variant `v` whose tombstone flag is `deleted`, or -1. */
  function Find(rows: seq<Row>, v: VariantId, deleted: bool): (i: int)
    ensures -1 <= i < |rows|
    ensures i >= 0 ==> rows[i].variant == v && rows[i].deleted == deleted
    ensures i < 0 ==> forall j :: 0 <= j < |rows| ==> !(rows[j].variant == v && rows[j].deleted == deleted)
  {
    if |rows| == 0 then -1
    else
      var i := Find(rows[..|rows| - 1], v, deleted);
      var last := rows[|rows| - 1];
      if i >= 0 then i
      else if last.variant == v && last.deleted == deleted then |rows| - 1
      else -1
  }

  // ---------- quantities and stock ----------

  predicate InBounds(quantity: int) {
    MIN_QUANTITY_PER_ITEM <= quantity <= MAX_QUANTITY_PER_ITEM
  }

  function ClampToBounds(quantity: int): int {
    if quantity < MIN_QUANTITY_PER_ITEM then 0
    else if quantity > MAX_QUANTITY_PER_ITEM then MAX_QUANTITY_PER_ITEM
    else quantity
  }

  function AvailableStock(stock: int): int {
    if stock < 0 then 0 else Min(stock, MAX_QUANTITY_PER_ITEM)
  }

  function StockOf(inv: Inventory, v: VariantId): int {
    AvailableStock(Available(inv, v))
  }

  /** The guard chain shared by adding and updating: the first reason why `v` cannot be put in a cart. */
  function Unsellable(catalog: Catalog, v: VariantId): Option<CartError> {
    if v !in catalog || catalog[v].deleted then Some(VariantUnavailable)
    else if catalog[v].product.None? || catalog[v].product.value.deleted then Some(VariantUnavailable)
    else if !catalog[v].product.value.published then Some(ProductInactive)
    else if !catalog[v].active then Some(VariantInactive)
    else None
  }

  // ---------- totals ----------

  function FreshCart(userId: UserId): Cart {
    Cart(userId, [], 0, 0, 0, 0, 0, 0, 0, 0)
  }

  /** `cart` with its rows replaced and every cached total recomputed from the live ones. */
  function Recomputed(cart: Cart, rows: seq<Row>): Cart {
    var live := Live(rows);
    var subtotal := SubtotalSum(live);
    cart.(rows := rows, subtotal := subtotal, itemCount := |live|, selectedItemCount := |Selected(live)|,
          estimatedShipping := 0,
          grandTotal := subtotal + cart.shippingTotal + cart.taxTotal - cart.discountTotal)
  }

  ghost predicate CachesAgree(cart: Cart) {
    && cart.subtotal == SubtotalSum(Live(cart.rows))
    && cart.itemCount == |Live(cart.rows)|
    && cart.selectedItemCount == |Selected(Live(cart.rows))|
    && cart.grandTotal ==
       cart.subtotal + cart.estimatedShipping + cart.shippingTotal + cart.taxTotal - cart.discountTotal
  }

  /** What every cart in the table satisfies between calls. */
  ghost predicate CartOk(cart: Cart) {
    && Distinct(cart.rows)
    && RowsOk(cart.rows)
    && |Live(cart.rows)| <= MAX_ITEMS_PER_CART
    && CachesAgree(cart)
  }

  // ---------- operations ----------

  /** The insert-or-update of one cart line: update the live row, else revive the tombstone, else append. */
  function Upsert(rows: seq<Row>, row: Row): seq<Row> {
    var live := Find(rows, row.variant, false);
    var dead := Find(rows, row.variant, true);
    if live >= 0 then rows[live := row]
    else if dead >= 0 then rows[dead := row]
    else rows + [row]
  }

  function OldQuantity(rows: seq<Row>, v: VariantId): int {
    var i := Find(rows, v, false);
    if i >= 0 then rows[i].quantity else 0
  }

  function AddItem(c: Cart, catalog: Catalog, inv: Inventory,
                   v: VariantId, quantity: int, isSelected: Option<bool>): CartOutcome
  {
    var refused := AddRefusal(c, catalog, inv, v, quantity);
    if refused.Some? then CartOutcome(c, refused)
    else
      var row := AddedRow(catalog, inv, v, OldQuantity(c.rows, v) + quantity, isSelected);
      CartOutcome(Recomputed(c, Upsert(c.rows, row)), None)
  }

  function AddRefusal(c: Cart, catalog: Catalog, inv: Inventory, v: VariantId, quantity: int): (e: Option<CartError>)
    ensures e.None? ==> v in catalog
  {
    var blocked := Unsellable(catalog, v);
    var target := OldQuantity(c.rows, v) + quantity;
    var count := |Live(c.rows)| + (if Find(c.rows, v, false) >= 0 then 0 else 1);
    if !InBounds(quantity) then Some(InvalidQuantity)
    else if blocked.Some? then blocked
    else if count > MAX_ITEMS_PER_CART then Some(MaxItemsReached)
    else if target > StockOf(inv, v) then Some(ExceedsStock)
    else if target > MAX_QUANTITY_PER_ITEM then Some(InvalidQuantity)
    else None
  }

  function AddedRow(catalog: Catalog, inv: Inventory, v: VariantId, target: int, isSelected: Option<bool>): Row
    requires v in catalog
  {
    Row(v, target, catalog[v].price, catalog[v].price * target, Chosen(isSelected, true), StockOf(inv, v), false)
  }

  predicate HasItem(c: Cart, item: nat) {
    item < |c.rows| && !c.rows[item].deleted
  }

  function UpdateItem(c: Cart, catalog: Catalog, inv: Inventory,
                      item: nat, quantity: int, isSelected: Option<bool>): CartOutcome
  {
    if !InBounds(quantity) then CartOutcome(c, Some(InvalidQuantity))
    else if !HasItem(c, item) then CartOutcome(c, Some(ItemNotFound))
    else
      var row := c.rows[item];
      var blocked := Unsellable(catalog, row.variant);
      if blocked.Some? then CartOutcome(c, blocked)
      else if quantity > StockOf(inv, row.variant) then CartOutcome(c, Some(ExceedsStock))
      else
        var updated := row.(quantity := quantity, subtotal := row.unitPrice * quantity,
                            isSelected := Chosen(isSelected, row.isSelected), stockAtAdd := StockOf(inv, row.variant));
        CartOutcome(Recomputed(c, c.rows[item := updated]), None)
  }

  function Chosen(choice: Option<bool>, default: bool): bool {
    if choice.Some? then choice.value else default
  }

  function RemoveItem(c: Cart, item: nat): CartOutcome {
    if !HasItem(c, item) then CartOutcome(c, Some(ItemNotFound))
    else CartOutcome(Recomputed(c, c.rows[item := c.rows[item].(deleted := true)]), None)
  }

  /** An id filter as a bulk statement applies it: no list means every row. */
  predicate Targets(items: Option<set<nat>>, i: nat) {
    items.None? || i in items.value
  }

  /** Soft-deletes the targeted rows. */
  function Tombstoned(rows: seq<Row>, items: Option<set<nat>>): (r: seq<Row>)
    ensures |r| == |rows|
    ensures forall i :: 0 <= i < |rows| ==> r[i] == rows[i].(deleted := rows[i].deleted || Targets(items, i))
  {
    seq(|rows|, i requires 0 <= i < |rows| => rows[i].(deleted := rows[i].deleted || Targets(items, i)))
  }

  function BulkRemoveItems(c: Cart, items: set<nat>): Cart {
    Recomputed(c, Tombstoned(c.rows, Some(items)))
  }

  function ClearCart(c: Cart): Cart {
    FreshCart(c.userId).(rows := Tombstoned(c.rows, None))
  }

  /** Sets the selection flag of the targeted live rows. */
  function Flagged(rows: seq<Row>, items: Option<set<nat>>, flag: bool): (r: seq<Row>)
    ensures |r| == |rows|
    ensures forall i :: 0 <= i < |rows| ==>
      r[i] == if Targets(items, i) && !rows[i].deleted then rows[i].(isSelected := flag) else rows[i]
  {
    seq(|rows|, i requires 0 <= i < |rows| =>
      if Targets(items, i) && !rows[i].deleted then rows[i].(isSelected := flag) else rows[i])
  }

  /** An absent or empty id list selects every item. */
  function SelectItems(c: Cart, items: Option<set<nat>>, flag: bool): Cart {
    var ids := if items.Some? && items.value != {} then items else None;
    Recomputed(c, Flagged(c.rows, ids, flag))
  }

  // ---------- the live line of a variant, tombstones and positions forgotten ----------

  ghost function LiveVariants(rows: seq<Row>): set<VariantId> {
    set i | 0 <= i < |rows| && !rows[i].deleted :: rows[i].variant
  }

  function LineOf(rows: seq<Row>, v: VariantId): Option<Row> {
    var i := Find(rows, v, false);
    if i >= 0 then Some(rows[i]) else None
  }

  lemma FindIsUnique(rows: seq<Row>, i: nat)
    requires Distinct(rows) && i < |rows|
    ensures Find(rows, rows[i].variant, rows[i].deleted) == i
    ensures Find(rows, rows[i].variant, !rows[i].deleted) == -1
  {
  }

  /** A table that agrees with `rows` except at position `k` shows the same lines for every other variant. */
  lemma LineOfFrame(rows: seq<Row>, after: seq<Row>, k: nat, v: VariantId)
    requires Distinct(rows) && Distinct(after) && |rows| <= |after| && k < |after|
    requires forall i :: 0 <= i < |after| && i != k ==> i < |rows| && after[i] == rows[i]
    requires k < |rows| ==> rows[k].variant == after[k].variant
    ensures LineOf(after, v) ==
      if v != after[k].variant then LineOf(rows, v) else if after[k].deleted then None else Some(after[k])
  {
    FindIsUnique(after, k);
    var i := Find(rows, v, false);
    if v != after[k].variant && i >= 0 {
      assert after[i] == rows[i];
      FindIsUnique(after, i);
    }
  }

  lemma LineOfUpsert(rows: seq<Row>, row: Row, v: VariantId)
    requires Distinct(rows) && !row.deleted
    ensures Distinct(Upsert(rows, row))
    ensures LineOf(Upsert(rows, row), v) == if v == row.variant then Some(row) else LineOf(rows, v)
  {
    var live, dead := Find(rows, row.variant, false), Find(rows, row.variant, true);
    LineOfFrame(rows, Upsert(rows, row), if live >= 0 then live else if dead >= 0 then dead else |rows|, v);
  }
}
