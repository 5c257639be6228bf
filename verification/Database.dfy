/** The tables both services work on. */
module Databases {
  import opened Stock
  import opened Carts
  import opened Checkout
  import opened ShopSteps
  import opened ShopInvariant

  class Database {
    var carts: map<UserId, Cart>
    var inventory: Inventory
    var sessions: seq<Session>
    var sweeping: multiset<SessionId>

    constructor (stock: Inventory)
      requires forall v :: v in stock ==>
        stock[v].onHand >= 0 && stock[v].available == stock[v].onHand && stock[v].reserved == 0
      ensures Valid() && Initial(Contents()) && inventory == stock
    {
      carts, inventory, sessions, sweeping := map[], stock, [], multiset{};
      new;
      InitialIsOk(Contents());
    }

    ghost function Contents(): Shop
      reads this
    {
      Shop(carts, inventory, sessions, sweeping)
    }

    ghost predicate Valid()
      reads this
    {
      ShopOk(Contents())
    }
  }
}
