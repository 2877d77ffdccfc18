/** MatchingEngine on values: the handlers, what they send, and the tracking maps. */
module Engine {
  import opened Types
  import opened Matching
  import opened Book
  import opened BookLaws

  type ClientOrderId = c: int | 0 <= c < TWO_64
  type Byte = b: int | 0 <= b < 0x100

  /** DUMMY_SESSION_ID may cancel and modify orders of any session. */
  const DUMMY_SESSION: SessionId := 0xFFFF_FFFF

  datatype Inbound =
    | NewOrder(session: SessionId, clientId: ClientOrderId, sideByte: Byte, typeByte: Byte, price: Price, qty: Quantity)
    | CancelOrder(session: SessionId, clientId: ClientOrderId, orderId: OrderId)
    | ModifyOrder(session: SessionId, clientId: ClientOrderId, orderId: OrderId, newPrice: Price, newQty: Quantity)
    | OtherMessage

  datatype Reason = InvalidPrice | InvalidQuantity | InvalidSide | InvalidOrderType | OrderNotFound

  datatype Outbound =
    | OrderAck(session: SessionId, clientId: ClientOrderId, orderId: OrderId, status: OrderStatus)
    | OrderReject(session: SessionId, clientId: ClientOrderId, reason: Reason)
    | ExecutionReport(session: SessionId, orderId: OrderId, tradeId: OrderId, price: Price, qty: Quantity,
                      leaves: Quantity, side: BuySell)
    | CancelAck(session: SessionId, clientId: ClientOrderId, orderId: OrderId)
    | CancelReject(session: SessionId, clientId: ClientOrderId, orderId: OrderId, reason: Reason)
    | ModifyAck(session: SessionId, clientId: ClientOrderId, orderId: OrderId, newPrice: Price, newQty: Quantity)
    | ModifyReject(session: SessionId, clientId: ClientOrderId, orderId: OrderId, reason: Reason)

  datatype MarketData =
    | TradeUpdate(tradeId: OrderId, price: Price, qty: Quantity, aggressor: BuySell)
    | Tick(lastPrice: Price, lastQty: Quantity, bidPrice: Price, askPrice: Price, bidQty: Quantity, askQty: Quantity)

  /** `sent` and `feed` are all messages pushed so far to the outbound and the feed queue. */
  datatype Engine = Engine(
    book: Book,
    nextOrderId: OrderId,
    nextTradeId: OrderId,
    sessionOrders: map<SessionId, set<OrderId>>,
    orderToSession: map<OrderId, SessionId>,
    orderToClient: map<OrderId, ClientOrderId>,
    lastPrice: Price,
    lastQty: Quantity,
    ordersProcessed: OrderId,
    tradesExecuted: OrderId,
    sent: seq<Outbound>,
    feed: seq<MarketData>)

  // ---------------------------------------------------------------- sending

  function SideOf(b: Byte): BuySell {
    if b == 1 then Buy else if b == 2 then Sell else NoSide
  }

  function TypeOf(b: Byte): OrderType {
    if b == 1 then Limit else if b == 2 then Ioc else if b == 3 then Market else if b == 4 then StopLoss else NoType
  }

  function Send(e: Engine, m: Outbound): Engine {
    e.(sent := e.sent + [m])
  }

  /** sendExecutionReport: every report draws a trade id of its own. */
  function Report(e: Engine, session: SessionId, id: OrderId, t: Trade, leaves: Quantity, side: BuySell): Engine {
    Send(e, ExecutionReport(session, id, e.nextTradeId, t.price, t.quantity, leaves, side)).(
      nextTradeId := Wrap64(e.nextTradeId + 1))
  }

  function PublishTrade(e: Engine, t: Trade, aggressor: BuySell): Engine {
    e.(tradesExecuted := Wrap64(e.tradesExecuted + 1), lastPrice := t.price, lastQty := t.quantity,
       feed := e.feed + [TradeUpdate(e.nextTradeId, t.price, t.quantity, aggressor)])
  }

  /** publishTickUpdate */
  function PublishTick(e: Engine): Engine {
    var bid, ask := Shown(e.book.bids), Shown(e.book.asks);
    e.(feed := e.feed + [Tick(e.lastPrice, e.lastQty, bid.price, ask.price, bid.qty, ask.qty)])
  }

  // ---------------------------------------------------------------- tracking maps

  function SessionIds(m: map<SessionId, set<OrderId>>, s: SessionId): set<OrderId> {
    if s in m then m[s] else {}
  }

  function Track(e: Engine, s: SessionId, id: OrderId, c: ClientOrderId): Engine {
    e.(sessionOrders := e.sessionOrders[s := SessionIds(e.sessionOrders, s) + {id}],
       orderToSession := e.orderToSession[id := s],
       orderToClient := e.orderToClient[id := c])
  }

  /** operator[] then erase: the session keeps a possibly empty entry. */
  function Untrack(e: Engine, s: SessionId, id: OrderId): Engine {
    e.(sessionOrders := e.sessionOrders[s := SessionIds(e.sessionOrders, s) - {id}],
       orderToSession := e.orderToSession - {id},
       orderToClient := e.orderToClient - {id})
  }

  // ---------------------------------------------------------------- handlers

  /** The body of the trade loop of handleNewOrder. */
  function ReportTrade(e: Engine, o: Ord, t: Trade): Engine {
    var e1 := Report(PublishTrade(e, t, o.side), o.session, o.id, t, o.qty, o.side);
    var passive := Passive(o, t);
    if passive in e1.orderToSession
    then Report(e1, e1.orderToSession[passive], passive, t, 0, Opposite(o.side))
    else e1
  }

  /** `o` is the incoming order as matching left it. */
  function ReportTrades(e: Engine, o: Ord, ts: seq<Trade>): Engine
    decreases |ts|
  {
    if ts == [] then e else ReportTrades(ReportTrade(e, o, ts[0]), o, ts[1..])
  }

  function Refusal(side: BuySell, otype: OrderType, price: Price, qty: Quantity): Option<Reason> {
    if side == NoSide then Some(InvalidSide)
    else if otype != Limit && otype != Market && otype != Ioc then Some(InvalidOrderType)
    else if qty == 0 then Some(InvalidQuantity)
    else if otype == Limit && price <= 0 then Some(InvalidPrice)
    else None
  }

  /** Id handed out, order tracked and added to the book. */
  ghost function Booked(e: Engine, c: ClientOrderId, o: Ord): Engine {
    Track(e.(nextOrderId := Wrap64(e.nextOrderId + 1)), o.session, o.id, c).(book := Add(e.book, o))
  }

  predicate Finished(done: Ord) {
    done.qty == 0 || done.status == Cancelled
  }

  ghost function Accept(e: Engine, c: ClientOrderId, o: Ord): Engine {
    var e1, done := Booked(e, c, o), Outcome(e.book, o);
    var e2 := ReportTrades(e1, done, e1.book.trades);
    var e3 := Send(e2, OrderAck(o.session, c, o.id, done.status));
    PublishTick(if Finished(done) then Untrack(e3, o.session, o.id) else e3)
  }

  /** The order a request becomes. */
  function OrderOf(e: Engine, m: Inbound): Ord
    requires m.NewOrder?
  {
    Ord(e.nextOrderId, SideOf(m.sideByte), TypeOf(m.typeByte), m.price, m.qty, New, m.session, 0)
  }

  ghost function HandleNew(e: Engine, m: Inbound): Engine
    requires m.NewOrder?
  {
    var e0 := e.(ordersProcessed := Wrap64(e.ordersProcessed + 1));
    match Refusal(SideOf(m.sideByte), TypeOf(m.typeByte), m.price, m.qty)
    case Some(reason) => Send(e0, OrderReject(m.session, m.clientId, reason))
    case None => Accept(e0, m.clientId, OrderOf(e, m))
  }

  predicate MayTouch(e: Engine, session: SessionId, id: OrderId) {
    id in e.orderToSession && (e.orderToSession[id] == session || session == DUMMY_SESSION)
  }

  function HandleCancel(e: Engine, m: Inbound): Engine
    requires m.CancelOrder?
  {
    if !MayTouch(e, m.session, m.orderId) then Send(e, CancelReject(m.session, m.clientId, m.orderId, OrderNotFound))
    else
      var e1 := Untrack(e.(book := Cancel(e.book, m.orderId)), e.orderToSession[m.orderId], m.orderId);
      PublishTick(Send(e1, CancelAck(m.session, m.clientId, m.orderId)))
  }

  function RepublishTrades(e: Engine, id: OrderId, ts: seq<Trade>): Engine
    decreases |ts|
  {
    if ts == [] then e
    else RepublishTrades(PublishTrade(e, ts[0], if ts[0].buyId == id then Buy else Sell), id, ts[1..])
  }

  ghost function HandleModify(e: Engine, m: Inbound): Engine
    requires m.ModifyOrder?
  {
    if !MayTouch(e, m.session, m.orderId) then Send(e, ModifyReject(m.session, m.clientId, m.orderId, OrderNotFound))
    else if m.newPrice <= 0 then Send(e, ModifyReject(m.session, m.clientId, m.orderId, InvalidPrice))
    else if m.newQty == 0 then Send(e, ModifyReject(m.session, m.clientId, m.orderId, InvalidQuantity))
    else
      var after := Modify(e.book, m.orderId, m.newPrice, m.newQty);
      var e1 := RepublishTrades(e.(book := after), m.orderId, after.trades);
      PublishTick(Send(e1, ModifyAck(m.session, m.clientId, m.orderId, m.newPrice, m.newQty)))
  }

  ghost function Process(e: Engine, m: Inbound): Engine {
    match m
    case NewOrder(_, _, _, _, _, _) => HandleNew(e, m)
    case CancelOrder(_, _, _) => HandleCancel(e, m)
    case ModifyOrder(_, _, _, _, _) => HandleModify(e, m)
    case OtherMessage => e
  }

  /** One turn of the loop of cancelSessionOrders. */
  function DropOrder(e: Engine, id: OrderId): Engine {
    e.(book := Cancel(e.book, id), orderToSession := e.orderToSession - {id}, orderToClient := e.orderToClient - {id})
  }

  /** The loop, in the order the hash set yields its ids. */
  function DropOrders(e: Engine, ids: seq<OrderId>): Engine
    decreases |ids|
  {
    if ids == [] then e else DropOrders(DropOrder(e, ids[0]), ids[1..])
  }

  function CancelSession(e: Engine, session: SessionId, ids: seq<OrderId>): Engine {
    var e1 := DropOrders(e, ids);
    var e2 := e1.(sessionOrders := e1.sessionOrders - {session});
    if ids == [] then e2 else PublishTick(e2)
  }
}
