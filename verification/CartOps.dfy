/** Every way the cart service changes a user's active cart, as one step. */
module CartOps {
  import opened Outcomes
  import opened Lines
  import opened Catalog
  import opened Stock
  import opened Carts
  import opened CartLaws
  import opened CartMerge

  datatype CartOp =
    | Open
    | Add(variant: VariantId, quantity: int, choice: Option<bool>)
    | Update(item: nat, newQuantity: int, newChoice: Option<bool>)
    | Remove(removed: nat)
    | BulkRemove(items: set<nat>)
    | Clear
    | Select(targets: Option<set<nat>>, flag: bool)
    | Merge(lines: seq<MergeLine>)
    | Drop

  function OnActive(cart: Option<Cart>, op: CartOp, catalog: Catalog, inv: Inventory): Option<Cart> {
    if cart.None? then None
    else
      var c := cart.value;
      match op
      case Update(item, quantity, choice) => Some(UpdateItem(c, catalog, inv, item, quantity, choice).cart)
      case Remove(item) => Some(RemoveItem(c, item).cart)
      case BulkRemove(items) => Some(BulkRemoveItems(c, items))
      case Clear => Some(ClearCart(c))
      case Select(items, flag) => Some(SelectItems(c, items, flag))
      case Merge(lines) => Some(MergeCart(c, catalog, inv, lines).cart)
      case _ => cart
  }

  /** An absent cart is opened on demand. */
  function Opened(userId: UserId, cart: Option<Cart>): Cart {
    if cart.Some? then cart.value else FreshCart(userId)
  }

  /** The user's active cart after `op`; None while the user has none. */
  function Apply(userId: UserId, cart: Option<Cart>, op: CartOp, catalog: Catalog, inv: Inventory): Option<Cart> {
    match op
    case Open => Some(Opened(userId, cart))
    case Add(v, quantity, choice) =>
      // The quantity is checked before the cart is opened; everything else after.
      if !InBounds(quantity) then cart else Some(AddItem(Opened(userId, cart), catalog, inv, v, quantity, choice).cart)
    case Drop => None
    case _ => OnActive(cart, op, catalog, inv)
  }

  ghost predicate SlotOk(cart: Option<Cart>) {
    cart.Some? ==> CartOk(cart.value)
  }

  lemma OpenedIsOk(userId: UserId, cart: Option<Cart>)
    requires SlotOk(cart)
    ensures CartOk(Opened(userId, cart))
  {
    if cart.None? {
      FreshIsOk(userId);
    }
  }

  lemma OnActiveKeepsOrder(c: Cart, op: CartOp, catalog: Catalog, inv: Inventory)
    requires CartOk(c)
    ensures SlotOk(OnActive(Some(c), op, catalog, inv))
  {
    match op
    case Update(item, quantity, choice) =>
      if UpdateItem(c, catalog, inv, item, quantity, choice).error.None? {
        UpdateItemEffect(c, catalog, inv, item, quantity, choice, 0);
      }
    case Remove(item) => RemoveItemLaw(c, item, 0);
    case BulkRemove(items) => BulkRemoveLaw(c, items, 0);
    case Clear => ClearLaw(c, 0);
    case Select(items, flag) => SelectLaw(c, items, flag, 0);
    case Merge(lines) =>
      MergeClosedForm(c.rows, catalog, inv, lines);
      if Mergeable(c.rows, catalog, inv, lines) {
        MergedRowsAreOk(c, catalog, inv, lines);
      }
    case _ =>
  }

  /**
    * No cart operation, successful or refused, ever leaves a cart whose caches disagree with its rows, whose lines
    * are mispriced or out of bounds, or which has two lines for a variant or too many of them.
    */
  lemma ApplyKeepsOrder(userId: UserId, cart: Option<Cart>, op: CartOp, catalog: Catalog, inv: Inventory)
    requires SlotOk(cart)
    ensures SlotOk(Apply(userId, cart, op, catalog, inv))
  {
    if op.Add? {
      AddOnDemandKeepsOrder(userId, cart, op, catalog, inv);
    } else if op.Open? {
      OpenedIsOk(userId, cart);
    } else if cart.Some? && !op.Drop? {
      OnActiveKeepsOrder(cart.value, op, catalog, inv);
    }
  }

  lemma AddOnDemandKeepsOrder(userId: UserId, cart: Option<Cart>, op: CartOp, catalog: Catalog, inv: Inventory)
    requires SlotOk(cart) && op.Add?
    ensures SlotOk(Apply(userId, cart, op, catalog, inv))
  {
    var c := Opened(userId, cart);
    OpenedIsOk(userId, cart);
    var after := AddItem(c, catalog, inv, op.variant, op.quantity, op.choice).cart;
    AddKeepsOrder(c, catalog, inv, op.variant, op.quantity, op.choice);
    if InBounds(op.quantity) {
      assert Apply(userId, cart, op, catalog, inv) == Some(after);
    } else {
      assert Apply(userId, cart, op, catalog, inv) == cart;
    }
  }
}
