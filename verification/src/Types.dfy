/** Value types of include/define.h, include/Usings.h and include/Orderbook.h. */
module Types {

  const TWO_32 := 0x1_0000_0000
  const TWO_64 := 0x1_0000_0000_0000_0000

  type Price = p: int | -0x8000_0000 <= p < 0x8000_0000
  type Quantity = q: int | 0 <= q < TWO_32
  type OrderId = i: int | 0 <= i < TWO_64
  type SessionId = s: int | 0 <= s < TWO_32

  /** NoSide is the DEFAULT enumerator; only a caller that skips validation can pass it. */
  datatype BuySell = NoSide | Buy | Sell

  datatype OrderType = NoType | Limit | Ioc | Market | StopLoss

  datatype OrderStatus = NoStatus | New | Modified | Traded | Cancelled

  datatype TradeType = Partial | Full

  datatype Trade = Trade(price: Price, quantity: Quantity, tradeType: TradeType, buyId: OrderId, sellId: OrderId)

  /** Totals are 32 bits wide, the count is a 64-bit size_t. */
  datatype LevelData = LevelData(price: Price, total: Quantity, count: OrderId)

  type Cache = map<Price, LevelData>

  /** The value of an order at one moment. `stamp` orders arrivals in the book: it is
      drawn from the book's clock each time an order is pushed to the back of a level. */
  datatype Ord = Ord(
    id: OrderId,
    side: BuySell,
    otype: OrderType,
    price: Price,
    qty: Quantity,
    status: OrderStatus,
    session: SessionId,
    stamp: nat)

  predicate Aggressive(t: OrderType) {
    t == Market || t == Ioc
  }

  function Opposite(side: BuySell): BuySell {
    match side
    case Buy => Sell
    case Sell => Buy
    case NoSide => NoSide
  }

  /** p is served strictly before r on the given side of the book. */
  predicate Better(side: BuySell, p: Price, r: Price) {
    if side == Buy then p > r else p < r
  }

  /** Unsigned arithmetic of the two widths. */
  function Wrap32(x: nat): Quantity {
    x % 0x1_0000_0000
  }

  function Wrap64(x: nat): OrderId {
    x % 0x1_0000_0000_0000_0000
  }

  function Min(a: int, b: int): int {
    if a < b then a else b
  }
}
