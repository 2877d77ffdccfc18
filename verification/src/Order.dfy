/** include/Order.h: one mutable object, shared by a level list, the id index and the caller. */
module Orders {
  import opened Types

  class Order {
    const id: OrderId
    const side: BuySell
    const otype: OrderType
    const session: SessionId
    var price: Price
    var quantity: Quantity
    var status: OrderStatus
    ghost var stamp: nat  // arrival in the book; see Types.Ord

    constructor (price: Price, quantity: Quantity, id: OrderId, otype: OrderType, side: BuySell, status: OrderStatus,
                 session: SessionId)
      ensures View() == Ord(id, side, otype, price, quantity, status, session, 0)
    {
      this.price, this.quantity, this.status := price, quantity, status;
      this.id, this.otype, this.side, this.session := id, otype, side, session;
      stamp := 0;
    }

    ghost function View(): Ord
      reads this
    {
      Ord(id, side, otype, price, quantity, status, session, stamp)
    }

    method ReduceQuantity(delta: Quantity) returns (executed: Quantity)
      modifies this`quantity
      ensures executed == Min(old(quantity), delta)
      ensures quantity == old(quantity) - executed
    {
      executed := if quantity < delta then quantity else delta;
      quantity := quantity - executed;
    }

    predicate IsFilled()
      reads this
    {
      quantity == 0
    }
  }
}
