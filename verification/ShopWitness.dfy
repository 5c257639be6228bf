/** A run from fresh stock that ends oversold, and which stock can be driven there. */
module ShopWitness {
  import opened Outcomes
  import opened Lines
  import opened Catalog
  import opened Stock
  import opened Carts
  import opened CartOps
  import opened Checkout
  import opened ShopSteps
  import opened ShopInvariant
  import opened ShopRuns
  import opened ShopLaws

  /** Some adjustment of a variant can dig into reserved stock exactly while some of it is reserved. */
  lemma CanDigIff(s: Shop, v: VariantId)
    requires ShopOk(s) && NoneNegative(s.inventory) && v in s.inventory
    ensures (exists delta :: DigsIntoReserved(s, AdjustStep(v, delta))) <==> s.inventory[v].reserved > 0
  {
    if s.inventory[v].reserved > 0 {
      assert DigsIntoReserved(s, AdjustStep(v, -s.inventory[v].available - 1));
    }
  }

  function Fresh(v: VariantId, stock: nat): Shop {
    Shop(map[], map[v := Level(stock, stock, 0)], [], multiset{})
  }

  function OnSale(v: VariantId): Catalog {
    map[v := VariantInfo(1, false, true, Some(ProductInfo(0, false, true)))]
  }

  /** Put all of the stock in a cart, check it out, reserve it, and write one unit off. */
  function WriteOffRun(u: UserId, v: VariantId, stock: nat): seq<Step> {
    [CartStep(u, Add(v, stock, None), OnSale(v)), CreateStep(u, None, OnSale(v), 0), ReserveStep(0, u, OnSale(v), 0),
     AdjustStep(v, -1)]
  }

  function FullRow(v: VariantId, stock: nat): Row {
    Row(v, stock, 1, stock, true, stock, false)
  }

  function FullCart(u: UserId, v: VariantId, stock: nat): Cart {
    AddItem(FreshCart(u), OnSale(v), Fresh(v, stock).inventory, v, stock, None).cart
  }

  function Bought(u: UserId, v: VariantId, stock: nat): Session {
    Session(u, Created, [CheckoutItem(v, stock, 1, stock)], stock, stock, SESSION_TTL, None, None, None)
  }

  function OnHold(u: UserId, v: VariantId, stock: nat): Session {
    Bought(u, v, stock).(status := Reserved, reservation := Some(Reservation(Active, [Line(v, stock)])))
  }

  // ---------- one row, one line, one item ----------

  lemma UpsertIntoNothing(rows: seq<Row>, row: Row)
    requires |rows| == 0
    ensures Live(rows) == [] && OldQuantity(rows, row.variant) == 0
    ensures Find(rows, row.variant, false) == -1 && Upsert(rows, row) == [row]
  {
  }

  lemma OneRow(row: Row)
    ensures Live([row]) == if row.deleted then [] else [row]
    ensures Selected([row]) == if row.isSelected then [row] else []
  {
    assert [row][..0] == [];
  }

  lemma OneRefusal(catalog: Catalog, inv: Inventory, row: Row)
    ensures FirstRefusal(catalog, inv, [row]) == CreateRefusal(catalog, inv, row.variant, row.quantity)
  {
    assert [row][..0] == [];
  }

  lemma OneItem(item: CheckoutItem)
    ensures ItemTotal([item]) == item.lineSubtotal
  {
    assert [item][..0] == [];
  }

  lemma OneLine(catalog: Catalog, inv: Inventory, line: Line)
    ensures ReserveLines(catalog, inv, [line]) == ReserveLine(catalog, inv, inv, line)
  {
    assert [line][..0] == [];
    assert ReserveLines(catalog, inv, [line][..0]) == Ok(inv);
  }

  // ---------- step by step ----------

  lemma AllIsAccepted(c: Cart, v: VariantId, stock: nat)
    requires 1 <= stock <= MAX_QUANTITY_PER_ITEM && |c.rows| == 0
    ensures AddRefusal(c, OnSale(v), Fresh(v, stock).inventory, v, stock) == None
  {
    UpsertIntoNothing(c.rows, FullRow(v, stock));
  }

  lemma FullCartHasOneRow(u: UserId, v: VariantId, stock: nat)
    requires 1 <= stock <= MAX_QUANTITY_PER_ITEM
    ensures FullCart(u, v, stock).rows == [FullRow(v, stock)]
  {
    AllIsAccepted(FreshCart(u), v, stock);
    UpsertIntoNothing(FreshCart(u).rows, FullRow(v, stock));
  }

  lemma AddFills(u: UserId, v: VariantId, stock: nat)
    requires 1 <= stock <= MAX_QUANTITY_PER_ITEM
    ensures Next(Fresh(v, stock), WriteOffRun(u, v, stock)[0]) ==
      Fresh(v, stock).(carts := map[u := FullCart(u, v, stock)])
  {
    assert Apply(u, None, Add(v, stock, None), OnSale(v), Fresh(v, stock).inventory) == Some(FullCart(u, v, stock));
    PutFirst(u, FullCart(u, v, stock));
  }

  lemma PutFirst(u: UserId, cart: Cart)
    ensures map[][u := cart] == map[u := cart]
  {
  }

  /** A cart of one selected row becomes a session of one item. */
  lemma CreateFromOne(s: Shop, u: UserId, row: Row, catalog: Catalog, now: int)
    requires u in s.carts && s.carts[u].rows == [row] && row.isSelected && !row.deleted
    requires CreateRefusal(catalog, s.inventory, row.variant, row.quantity).None?
    ensures CreateCheckout(s, u, None, catalog, now).shop ==
      s.(sessions := s.sessions + [NewSession(u, [row], None, now)])
  {
    OneRow(row);
    OneRefusal(catalog, s.inventory, row);
  }

  lemma CreateSnapshots(u: UserId, v: VariantId, stock: nat, s: Shop)
    requires 1 <= stock && u in s.carts && s.carts[u].rows == [FullRow(v, stock)]
    requires s.sessions == [] && s.inventory == Fresh(v, stock).inventory
    ensures Next(s, WriteOffRun(u, v, stock)[1]) == s.(sessions := [Bought(u, v, stock)])
  {
    var row, item := FullRow(v, stock), CheckoutItem(v, stock, 1, stock);
    CreateFromOne(s, u, row, OnSale(v), 0);
    OneItem(item);
    assert Snapshot([row]) == [item];
  }

  lemma ReserveTakesAll(u: UserId, v: VariantId, stock: nat, s: Shop)
    requires 1 <= stock && s.sessions == [Bought(u, v, stock)] && s.inventory == Fresh(v, stock).inventory
    ensures Next(s, WriteOffRun(u, v, stock)[2]).inventory == map[v := Level(stock, 0, stock)]
    ensures Next(s, WriteOffRun(u, v, stock)[2]).sessions == [OnHold(u, v, stock)]
  {
    var line := Line(v, stock);
    assert LinesOf(Bought(u, v, stock).items) == [line];
    OneLine(OnSale(v), s.inventory, line);
    assert ReserveRefusal(OnSale(v), s.inventory, v, stock) == None;
    assert s.inventory[v := Level(stock, 0, stock)] == map[v := Level(stock, 0, stock)];
    assert TakeOne(s.inventory, line) == Some(map[v := Level(stock, 0, stock)]);
  }

  lemma RunOfOneMore(s: Shop, steps: seq<Step>, k: nat)
    requires k < |steps|
    ensures Run(s, steps[..k + 1]) == Next(Run(s, steps[..k]), steps[k])
    ensures Run(s, steps[..0]) == s
  {
    assert steps[..k + 1][..k] == steps[..k];
  }

  lemma RunFillsCart(u: UserId, v: VariantId, stock: nat)
    requires 1 <= stock <= MAX_QUANTITY_PER_ITEM
    ensures var s := Run(Fresh(v, stock), WriteOffRun(u, v, stock)[..1]);
            && u in s.carts && s.carts[u].rows == [FullRow(v, stock)]
            && s.sessions == [] && s.inventory == Fresh(v, stock).inventory
  {
    AddFills(u, v, stock);
    FullCartHasOneRow(u, v, stock);
    RunOfOneMore(Fresh(v, stock), WriteOffRun(u, v, stock), 0);
  }

  /** The first three steps reserve everything there is. */
  lemma RunReservesAll(u: UserId, v: VariantId, stock: nat)
    requires 1 <= stock <= MAX_QUANTITY_PER_ITEM
    ensures var s := Run(Fresh(v, stock), WriteOffRun(u, v, stock)[..3]);
            s.inventory == map[v := Level(stock, 0, stock)] && s.sessions == [OnHold(u, v, stock)]
  {
    var s, steps := Fresh(v, stock), WriteOffRun(u, v, stock);
    RunFillsCart(u, v, stock);
    CreateSnapshots(u, v, stock, Run(s, steps[..1]));
    RunOfOneMore(s, steps, 1);
    ReserveTakesAll(u, v, stock, Run(s, steps[..2]));
    RunOfOneMore(s, steps, 2);
  }

  lemma RunStaysInOrder(v: VariantId, stock: nat, steps: seq<Step>)
    ensures Initial(Fresh(v, stock)) && ShopOk(Run(Fresh(v, stock), steps))
  {
    InitialIsOk(Fresh(v, stock));
    RunKeepsOrder(Fresh(v, stock), steps);
  }

  lemma WriteOffDigs(v: VariantId, stock: nat, s: Shop)
    requires 1 <= stock && s.inventory == map[v := Level(stock, 0, stock)]
    ensures NoneNegative(s.inventory) && DigsIntoReserved(s, AdjustStep(v, -1))
    ensures Next(s, AdjustStep(v, -1)).inventory == map[v := Level(stock - 1, -1, stock)]
  {
    assert s.inventory[v := Level(stock - 1, -1, stock)] == map[v := Level(stock - 1, -1, stock)];
  }

  /**
   * From fresh stock of any size a cart line can hold, the last step is guarded by `onHand` alone, is accepted, and
   * oversells.
   */
  lemma WriteOffOversells(u: UserId, v: VariantId, stock: nat)
    requires 1 <= stock <= MAX_QUANTITY_PER_ITEM
    ensures var before := Run(Fresh(v, stock), WriteOffRun(u, v, stock)[..3]);
            && Initial(Fresh(v, stock)) && ShopOk(before) && NoneNegative(before.inventory)
            && DigsIntoReserved(before, WriteOffRun(u, v, stock)[3])
            && Next(before, WriteOffRun(u, v, stock)[3]).inventory == map[v := Level(stock - 1, -1, stock)]
  {
    RunReservesAll(u, v, stock);
    RunStaysInOrder(v, stock, WriteOffRun(u, v, stock)[..3]);
    WriteOffDigs(v, stock, Run(Fresh(v, stock), WriteOffRun(u, v, stock)[..3]));
  }

  // ---------- a completed session that is overwritten ----------

  /** A sweeper looks at the reserved session, and then the order is placed. */
  lemma OrderUnderSweep(u: UserId, v: VariantId, stock: nat, s: Shop)
    requires s.sessions == [OnHold(u, v, stock)]
    ensures var after := Next(Next(s, BeginExpireStep(0)), OrderStep(0, u));
            && after.inventory == s.inventory && |after.sessions| == 1
            && after.sessions[0].status == Completed && 0 in after.sweeping
            && after.sessions[0].userId == u && !HasActive(after.sessions[0])
  {
  }

  /**
   * From fresh stock: reserve, let a sweeper look, place the order. The session is completed; the sweeper's transaction
   * then makes it expired, or its owner cancels it, and neither moves the stock.
   */
  lemma CompletedIsOverwritten(u: UserId, v: VariantId, stock: nat)
    requires 1 <= stock <= MAX_QUANTITY_PER_ITEM
    ensures var steps := WriteOffRun(u, v, stock)[..3];
            var ordered := Next(Next(Run(Fresh(v, stock), steps), BeginExpireStep(0)), OrderStep(0, u));
            var expired, cancelled := Next(ordered, FinishExpireStep(0)), Next(ordered, CancelStep(0, u));
            && Initial(Fresh(v, stock)) && |ordered.sessions| == 1 && ordered.sessions[0].status == Completed
            && expired.inventory == ordered.inventory && expired.sessions ==
                 [ordered.sessions[0].(status := Expired)]
            && cancelled.inventory == ordered.inventory && cancelled.sessions ==
                 [ordered.sessions[0].(status := Cancelled)]
  {
    RunReservesAll(u, v, stock);
    RunStaysInOrder(v, stock, []);
    var s := Run(Fresh(v, stock), WriteOffRun(u, v, stock)[..3]);
    OrderUnderSweep(u, v, stock, s);
    var ordered := Next(Next(s, BeginExpireStep(0)), OrderStep(0, u));
    CloseSettled(ordered, 0, Expired, Lapsed);
    CloseSettled(ordered, 0, Cancelled, Released);
  }
}
