/** src/MatchingEngine.cpp with its state in place: the inbound queue, the order book object,
    the three tracking maps and the counters. Every method is proved against the functions of
    module Engine. */
module MatchingEngines {
  import opened Types
  import opened Orders
  import opened Book
  import opened BookLaws
  import opened Engine
  import E = Engine
  import opened EngineRuns
  import opened EngineMessages
  import opened Orderbooks
  import opened RingQueue
  import R = Spsc

  lemma {:induction false} DropOneMore(e: Engine, ids: seq<OrderId>, id: OrderId)
    ensures DropOrders(e, ids + [id]) == E.DropOrder(DropOrders(e, ids), id)
    decreases |ids|
  {
    if ids == [] {
      assert ids + [id] == [id] && [id][1..] == [];
    } else {
      assert (ids + [id])[0] == ids[0] && (ids + [id])[1..] == ids[1..] + [id];
      DropOneMore(E.DropOrder(e, ids[0]), ids[1..], id);
    }
  }

  class MatchingEngine {
    const inbound: Queue<Inbound>
    const book: Orderbook
    var nextOrderId: OrderId
    var nextTradeId: OrderId
    var sessionOrders: map<SessionId, set<OrderId>>
    var orderToSession: map<OrderId, SessionId>
    var orderToClient: map<OrderId, ClientOrderId>
    var lastPrice: Price
    var lastQty: Quantity
    var ordersProcessed: OrderId
    var tradesExecuted: OrderId
    var sent: seq<Outbound>
    var feed: seq<MarketData>

    ghost function View(): Engine
      reads this, book
    {
      Engine(book.View(), nextOrderId, nextTradeId, sessionOrders, orderToSession, orderToClient,
             lastPrice, lastQty, ordersProcessed, tradesExecuted, sent, feed)
    }

    ghost predicate Valid()
      reads this, book, Objects(book.bids), Objects(book.asks)
    {
      book.Valid() && EngineInv(View())
    }

    constructor (inbound: Queue<Inbound>)
      ensures Valid() && IsNewEngine(View()) && fresh(book) && book.Live() == {} && this.inbound == inbound
    {
      this.inbound := inbound;
      book := new Orderbook();
      nextOrderId, nextTradeId := 1, 1;
      sessionOrders, orderToSession, orderToClient := map[], map[], map[];
      lastPrice, lastQty, ordersProcessed, tradesExecuted := 0, 0, 0, 0;
      sent, feed := [], [];
      new;
      NewEngineInv(View());
    }

    // -------------------------------------------------------------- sending

    /** The send methods, up to the message each builds. */
    method Push(m: Outbound)
      modifies this`sent
      ensures View() == Send(old(View()), m)
    {
      sent := sent + [m];
    }

    method SendExecutionReport(session: SessionId, orderId: OrderId, trade: Trade, leaves: Quantity, side: BuySell)
      modifies this`sent, this`nextTradeId
      ensures View() == Report(old(View()), session, orderId, trade, leaves, side)
    {
      var tradeId := nextTradeId;
      nextTradeId := Wrap64(nextTradeId + 1);
      Push(ExecutionReport(session, orderId, tradeId, trade.price, trade.quantity, leaves, side));
    }

    /** One trade counted, remembered as the last one, and put on the feed. */
    method PublishTradeUpdate(trade: Trade, aggressor: BuySell)
      modifies this`tradesExecuted, this`lastPrice, this`lastQty, this`feed
      ensures View() == PublishTrade(old(View()), trade, aggressor)
    {
      tradesExecuted := Wrap64(tradesExecuted + 1);
      lastPrice := trade.price;
      lastQty := trade.quantity;
      feed := feed + [TradeUpdate(nextTradeId, trade.price, trade.quantity, aggressor)];
    }

    method PublishTickUpdate()
      requires book.Valid()
      modifies this`feed
      ensures View() == PublishTick(old(View()))
    {
      var _, bidPrice, bidQty, askPrice, askQty := book.GetBestBidAsk();
      feed := feed + [Tick(lastPrice, lastQty, bidPrice, askPrice, bidQty, askQty)];
    }

    // -------------------------------------------------------------- new orders

    /** The trade loop's body, for the incoming order as matching left it. */
    method ReportOne(order: Order, trade: Trade)
      modifies this`tradesExecuted, this`lastPrice, this`lastQty, this`feed, this`sent, this`nextTradeId
      ensures View() == ReportTrade(old(View()), order.View(), trade)
    {
      PublishTradeUpdate(trade, order.side);
      SendExecutionReport(order.session, order.id, trade, order.quantity, order.side);
      var passive := if order.side == Buy then trade.sellId else trade.buyId;
      if passive in orderToSession {
        SendExecutionReport(orderToSession[passive], passive, trade, 0, Opposite(order.side));
      }
    }

    method ReportAll(order: Order)
      modifies this`tradesExecuted, this`lastPrice, this`lastQty, this`feed, this`sent, this`nextTradeId
      ensures View() == ReportTrades(old(View()), order.View(), book.trades)
    {
      hide ReportTrade;
      ghost var o, e, ts := order.View(), View(), book.trades;
      assert ts[0..] == ts;
      var i := 0;
      while i < |book.trades|
        invariant 0 <= i <= |book.trades| && book.trades == ts && order.View() == o
        invariant ReportTrades(View(), o, ts[i..]) == ReportTrades(e, o, ts)
      {
        assert ts[i..][0] == ts[i] && ts[i..][1..] == ts[i + 1..];
        ReportOne(order, book.trades[i]);
        i := i + 1;
      }
    }

    method TrackOrder(session: SessionId, orderId: OrderId, clientId: ClientOrderId)
      modifies this`sessionOrders, this`orderToSession, this`orderToClient
      ensures View() == Track(old(View()), session, orderId, clientId)
    {
      if session !in sessionOrders {
        sessionOrders := sessionOrders[session := {}];
      }
      sessionOrders := sessionOrders[session := sessionOrders[session] + {orderId}];
      orderToSession := orderToSession[orderId := session];
      orderToClient := orderToClient[orderId := clientId];
    }

    method UntrackOrder(session: SessionId, orderId: OrderId)
      modifies this`sessionOrders, this`orderToSession, this`orderToClient
      ensures View() == Untrack(old(View()), session, orderId)
    {
      if session !in sessionOrders {
        sessionOrders := sessionOrders[session := {}];
      }
      sessionOrders := sessionOrders[session := sessionOrders[session] - {orderId}];
      orderToSession := orderToSession - {orderId};
      orderToClient := orderToClient - {orderId};
    }

    /** The id is drawn, the order tracked and added to the book. */
    method BookOrder(order: Order, clientId: ClientOrderId)
      requires Valid() && order !in book.Live() && order.id == nextOrderId && nextOrderId + 1 < TWO_64
      requires Refusal(order.side, order.otype, order.price, order.quantity).None?
      modifies this`nextOrderId, this`sessionOrders, this`orderToSession, this`orderToClient, book, book.Live(), order
      ensures Valid() && View() == Booked(old(View()), clientId, old(order.View()))
      ensures order.View() == Outcome(old(book.View()), old(order.View()))
      ensures forall o :: o in book.Live() ==> o in old(book.Live()) || o == order
    {
      hide EngineInv, Add, Outcome, Track, Represents, NoEmptyLevel, Indexed, Inv;
      BookedInv(View(), clientId, order.View());
      nextOrderId := Wrap64(nextOrderId + 1);
      TrackOrder(order.session, order.id, clientId);
      book.AddOrder(order);
    }

    /** Reports and acknowledgement. */
    method ReportAndAck(order: Order, clientId: ClientOrderId)
      requires book.Valid()
      modifies this`tradesExecuted, this`lastPrice, this`lastQty, this`feed, this`sent, this`nextTradeId
      ensures book.Valid()
      ensures var o := order.View();
        View() == Send(ReportTrades(old(View()), o, book.trades), OrderAck(o.session, clientId, o.id, o.status))
    {
      hide ReportTrades, NoEmptyLevel, Indexed, Inv;
      ReportAll(order);
      Push(OrderAck(order.session, clientId, order.id, order.status));
    }

    /** Tracking of an order that came to an end. */
    method UntrackFinished(order: Order)
      requires book.Valid()
      modifies this`sessionOrders, this`orderToSession, this`orderToClient
      ensures book.Valid()
      ensures var o, e := order.View(), old(View());
        View() == if Finished(o) then Untrack(e, o.session, o.id) else e
    {
      hide Untrack, NoEmptyLevel, Indexed, Inv;
      if order.IsFilled() || order.status == Cancelled {
        UntrackOrder(order.session, order.id);
      }
    }

    /** Reports, acknowledgement, tracking of an order that came to an end, and the tick. */
    method AnswerOrder(order: Order, clientId: ClientOrderId)
      requires book.Valid()
      modifies this
      ensures book.Valid()
      ensures var o, e2 := order.View(), ReportTrades(old(View()), order.View(), book.trades);
        var e3 := Send(e2, OrderAck(o.session, clientId, o.id, o.status));
        View() == PublishTick(if Finished(o) then Untrack(e3, o.session, o.id) else e3)
    {
      hide ReportTrades, Send, Untrack, PublishTick, NoEmptyLevel, Indexed, Inv;
      ReportAndAck(order, clientId);
      UntrackFinished(order);
      PublishTickUpdate();
    }

    /** Everything handleNewOrder does once the request is known to be good. */
    method AcceptOrder(session: SessionId, clientId: ClientOrderId, side: BuySell, otype: OrderType,
                       price: Price, quantity: Quantity)
      requires Valid() && nextOrderId + 1 < TWO_64 && Refusal(side, otype, price, quantity).None?
      modifies this, book, book.Live()
      ensures Valid() && fresh(book.Live() - old(book.Live()))
      ensures var o := Ord(old(nextOrderId), side, otype, price, quantity, New, session, 0);
        View() == Accept(old(View()), clientId, o)
    {
      hide EngineInv, Outcome, ReportTrades, Booked, Untrack, PublishTick, Represents, NoEmptyLevel, Indexed, Inv;
      var order := new Order(price, quantity, nextOrderId, otype, side, New, session);
      AcceptInv(View(), clientId, order.View());
      BookOrder(order, clientId);
      AnswerOrder(order, clientId);
    }

    method CountOrder()
      requires Valid()
      modifies this`ordersProcessed
      ensures Valid() && View() == old(View()).(ordersProcessed := Wrap64(old(ordersProcessed) + 1))
    {
      hide EngineInv, NoEmptyLevel, Indexed, Inv;
      SameBooksInv(View(), View().(ordersProcessed := Wrap64(ordersProcessed + 1)));
      ordersProcessed := Wrap64(ordersProcessed + 1);
    }

    method SendOrderReject(session: SessionId, clientId: ClientOrderId, reason: Reason)
      requires Valid()
      modifies this`sent
      ensures Valid() && View() == Send(old(View()), OrderReject(session, clientId, reason))
    {
      hide EngineInv, NoEmptyLevel, Indexed, Inv;
      SameBooksInv(View(), Send(View(), OrderReject(session, clientId, reason)));
      Push(OrderReject(session, clientId, reason));
    }

    method HandleNewOrder(request: Inbound)
      requires Valid() && nextOrderId + 1 < TWO_64 && request.NewOrder?
      modifies this, book, book.Live()
      ensures Valid() && fresh(book.Live() - old(book.Live()))
      ensures View() == HandleNew(old(View()), request)
    {
      hide EngineInv, Accept, Represents, NoEmptyLevel, Indexed, Inv;
      CountOrder();
      var side := SideOf(request.sideByte);
      var otype := TypeOf(request.typeByte);
      if side != Buy && side != Sell {
        SendOrderReject(request.session, request.clientId, InvalidSide);
        return;
      }
      if otype != Limit && otype != Market && otype != Ioc {
        SendOrderReject(request.session, request.clientId, InvalidOrderType);
        return;
      }
      if request.qty == 0 {
        SendOrderReject(request.session, request.clientId, InvalidQuantity);
        return;
      }
      if otype == Limit && request.price <= 0 {
        SendOrderReject(request.session, request.clientId, InvalidPrice);
        return;
      }
      AcceptOrder(request.session, request.clientId, side, otype, request.price, request.qty);
    }

    // -------------------------------------------------------------- cancel and modify

    method HandleCancelOrder(request: Inbound)
      requires Valid() && request.CancelOrder?
      modifies this, book, book.Live()
      ensures Valid() && book.Live() <= old(book.Live())
      ensures View() == HandleCancel(old(View()), request)
    {
      hide EngineInv, Untrack, PublishTick, Cancel, Represents, NoEmptyLevel, Indexed, Inv;
      ghost var e := View();
      CancelHandlerInv(e, request);
      var id := request.orderId;
      if id !in orderToSession {
        Push(CancelReject(request.session, request.clientId, id, OrderNotFound));
        return;
      }
      if orderToSession[id] != request.session && request.session != DUMMY_SESSION {
        Push(CancelReject(request.session, request.clientId, id, OrderNotFound));
        return;
      }
      book.CancelOrder(id);
      UntrackOrder(orderToSession[id], id);
      Push(CancelAck(request.session, request.clientId, id));
      PublishTickUpdate();
    }

    /** The trade loop of handleModifyOrder. */
    method RepublishAll(orderId: OrderId)
      modifies this`tradesExecuted, this`lastPrice, this`lastQty, this`feed
      ensures View() == RepublishTrades(old(View()), orderId, book.trades)
    {
      hide PublishTrade;
      ghost var e, ts := View(), book.trades;
      assert ts[0..] == ts;
      var i := 0;
      while i < |book.trades|
        invariant 0 <= i <= |book.trades| && book.trades == ts
        invariant RepublishTrades(View(), orderId, ts[i..]) == RepublishTrades(e, orderId, ts)
      {
        assert ts[i..][0] == ts[i] && ts[i..][1..] == ts[i + 1..];
        PublishTradeUpdate(book.trades[i], if book.trades[i].buyId == orderId then Buy else Sell);
        i := i + 1;
      }
    }

    method HandleModifyOrder(request: Inbound)
      requires Valid() && request.ModifyOrder?
      modifies this, book, book.Live()
      ensures Valid() && book.Live() <= old(book.Live())
      ensures View() == HandleModify(old(View()), request)
    {
      hide EngineInv, RepublishTrades, PublishTick, Modify, Represents, NoEmptyLevel, Indexed, Inv;
      ModifyHandlerInv(View(), request);
      var id := request.orderId;
      if id !in orderToSession {
        Push(ModifyReject(request.session, request.clientId, id, OrderNotFound));
        return;
      }
      if orderToSession[id] != request.session && request.session != DUMMY_SESSION {
        Push(ModifyReject(request.session, request.clientId, id, OrderNotFound));
        return;
      }
      if request.newPrice <= 0 {
        Push(ModifyReject(request.session, request.clientId, id, InvalidPrice));
        return;
      }
      if request.newQty == 0 {
        Push(ModifyReject(request.session, request.clientId, id, InvalidQuantity));
        return;
      }
      CarryOut(request);
    }

    /** An accepted modify. */
    method CarryOut(request: Inbound)
      requires book.Valid() && request.ModifyOrder? && request.newQty > 0
      modifies this, book, book.Live()
      ensures book.Valid() && book.Live() <= old(book.Live())
      ensures var after := Modify(old(View()).book, request.orderId, request.newPrice, request.newQty);
        var e1 := RepublishTrades(old(View()).(book := after), request.orderId, after.trades);
        var ack := ModifyAck(request.session, request.clientId, request.orderId, request.newPrice, request.newQty);
        View() == PublishTick(Send(e1, ack))
    {
      hide RepublishTrades, PublishTick, Modify, Represents, NoEmptyLevel, Indexed, Inv;
      book.ModifyOrder(request.orderId, request.newPrice, request.newQty);
      RepublishAll(request.orderId);
      Push(ModifyAck(request.session, request.clientId, request.orderId, request.newPrice, request.newQty));
      PublishTickUpdate();
    }

    // -------------------------------------------------------------- sessions

    /** One order of a disconnected session. */
    method DropOrder(orderId: OrderId)
      requires book.Valid()
      modifies this`orderToSession, this`orderToClient, book, book.Live()
      ensures book.Valid() && book.Live() <= old(book.Live())
      ensures View() == E.DropOrder(old(View()), orderId)
    {
      hide Represents, NoEmptyLevel, Indexed, Inv, Cancel;
      book.CancelOrder(orderId);
      orderToSession := orderToSession - {orderId};
      orderToClient := orderToClient - {orderId};
    }

    /** cancelSessionOrders for any set of ids: the engine is the session cancel in whatever
        order the set is written down, since the order of the visit does not matter. It stays
        sound exactly when the set holds, of the tracked orders, the session's own. */
    method CancelSessionOrders(session: SessionId, orderIds: set<OrderId>)
      requires Valid()
      modifies this, book, book.Live()
      ensures book.Valid() && book.Live() <= old(book.Live())
      ensures forall ids :: SetOf(ids) == orderIds ==> View() == CancelSession(old(View()), session, ids)
      ensures Valid() <==> ExactlySessions(old(View()), session, orderIds)
    {
      hide EngineInv, CancelSession, SetOf, Represents, NoEmptyLevel, Indexed, Inv;
      ghost var e := View();
      ghost var order := VisitSession(session, orderIds);
      CancelSessionInvIff(e, session, order);
      forall ids | SetOf(ids) == orderIds ensures View() == CancelSession(e, session, ids) {
        CancelSessionAnyOrder(e, session, ids, order);
      }
    }

    /** The loop; `order` records the visit. */
    method DropAll(orderIds: set<OrderId>) returns (ghost order: seq<OrderId>)
      requires book.Valid()
      modifies this`orderToSession, this`orderToClient, book, book.Live()
      ensures SetOf(order) == orderIds
      ensures book.Valid() && book.Live() <= old(book.Live())
      ensures View() == DropOrders(old(View()), order)
    {
      hide E.DropOrder, Represents, NoEmptyLevel, Indexed, Inv;
      ghost var e := View();
      var left := orderIds;
      order := [];
      while left != {}
        invariant left <= orderIds && SetOf(order) == orderIds - left
        invariant book.Valid() && book.Live() <= old(book.Live())
        invariant View() == DropOrders(e, order)
      {
        var orderId :| orderId in left;
        left := left - {orderId};
        DropOneMore(e, order, orderId);
        assert SetOf(order + [orderId]) == SetOf(order) + {orderId};
        order := order + [orderId];
        DropOrder(orderId);
      }
    }

    /** The loop, the session's entry and the tick. */
    method VisitSession(session: SessionId, orderIds: set<OrderId>) returns (ghost order: seq<OrderId>)
      requires book.Valid()
      modifies this, book, book.Live()
      ensures SetOf(order) == orderIds
      ensures book.Valid() && book.Live() <= old(book.Live())
      ensures View() == CancelSession(old(View()), session, order)
    {
      hide DropOrders, PublishTick, Represents, NoEmptyLevel, Indexed, Inv;
      order := DropAll(orderIds);
      sessionOrders := sessionOrders - {session};
      assert order != [] ==> order[0] in SetOf(order);
      if orderIds != {} {
        PublishTickUpdate();
      }
    }

    // -------------------------------------------------------------- the loop

    method ProcessInboundMessage(msg: Inbound)
      requires Valid() && nextOrderId + 1 < TWO_64
      modifies this, book, book.Live()
      ensures Valid() && fresh(book.Live() - old(book.Live()))
      ensures View() == Process(old(View()), msg)
    {
      hide EngineInv, HandleNew, HandleCancel, HandleModify;
      match msg
      case NewOrder(_, _, _, _, _, _) => HandleNewOrder(msg);
      case CancelOrder(_, _, _) => HandleCancelOrder(msg);
      case ModifyOrder(_, _, _, _, _) => HandleModifyOrder(msg);
      case OtherMessage =>
    }

    /** The pop loop of matchingLoop: the queue is emptied, and the engine is the fold of
        processInboundMessage over what it held, first in, first out. */
    method Drain()
      requires Valid() && inbound.Valid() && nextOrderId + |inbound.Contents()| < TWO_64
      modifies this, book, book.Live(), inbound
      ensures Valid() && inbound.Valid() && inbound.Contents() == []
      ensures View() == ProcessAll(old(View()), old(inbound.Contents()))
    {
      hide EngineInv, Process, Represents, NoEmptyLevel, Indexed, Inv, R.Inv;
      ghost var e, ms := View(), inbound.Contents();
      while true
        invariant Valid() && inbound.Valid() && fresh(book.Live() - old(book.Live()))
        invariant nextOrderId + |inbound.Contents()| < TWO_64
        invariant ProcessAll(View(), inbound.Contents()) == ProcessAll(e, ms)
        decreases |inbound.Contents()|
      {
        ghost var rest := inbound.Contents();
        var next := inbound.Pop();
        if next.None? {
          break;
        }
        ProcessInv(View(), next.value);
        ProcessInboundMessage(next.value);
      }
    }
  }
}
