/** What each message does to the whole engine, read off the message and the engine before it:
    the encodings on the wire, every refusal with its reason, and everything that stays. */
module EngineAnswers {
  import opened Types
  import opened OrderQueue
  import opened Matching
  import opened Book
  import opened BookRuns
  import opened BookLaws
  import opened Engine
  import opened EngineRuns
  import opened EngineMessages

  // ---------------------------------------------------------------- status after an add

  /** The status an order is left with, and acknowledged with, from the volume it can reach. */
  function StatusFor(o: Ord, reach: nat): OrderStatus {
    if o.qty <= reach then Traded
    else if o.otype == Market || o.otype == Ioc then Cancelled
    else if reach > 0 || o.status == Modified then Modified
    else New
  }

  lemma StatusAfterAdd(s: Book, o: Ord)
    requires Inv(s.(index := s.index - {o.id})) && o.side != NoSide && o.qty > 0
    ensures Outcome(s, o).status == StatusFor(o, CrossableVolume(o, Contra(s, o.side)))
    ensures Outcome(s, o).qty == if StatusFor(o, CrossableVolume(o, Contra(s, o.side))) == Traded || Aggressive(o.otype)
                                 then 0 else o.qty - CrossableVolume(o, Contra(s, o.side))
  {
    hide Match, CrossableVolume;
    var q := Contra(s, o.side);
    InvSided(s.(index := s.index - {o.id}), o.side);
    MatchConserves(o, q, o.qty);
    MatchVolume(Opposite(o.side), o, q, o.qty);
  }

  /** An effective modify leaves the order, if any of it rests, MODIFIED at the new price, with
      the new quantity less the volume it could reach. */
  lemma ModifiedOrder(s: Book, id: OrderId, p: Price, x: Quantity, o: Ord, b: Ord)
    requires Inv(s) && Lookup(s, id) == Some(o) && x > 0 && !(o.price == p && o.qty == x)
    requires RestsIn(Modify(s, id, p, x), b) && b.id == id
    ensures var reach := CrossableVolume(o.(price := p, qty := x), Contra(s, o.side));
      && reach < x
      && b == o.(price := p, qty := x - reach, status := Modified, stamp := s.clock)
  {
    hide Add, Match, CrossableVolume, Take;
    LookupIn(s, id);
    WithdrawInv(s, o);
    var w, n := Withdraw(s, o), o.(price := p, qty := x, status := Modified);
    assert w.clock == s.clock && Contra(w, o.side) == Contra(s, o.side);
    ModifyInvIff(s, id, p, x);
    StatusAfterAdd(w, n);
    SameReach(n, o.(price := p, qty := x), Contra(s, o.side));
    RestsWhole(w, n, b);
  }

  lemma {:induction false} SameReach(a: Ord, b: Ord, q: seq<Ord>)
    requires a.side == b.side && a.otype == b.otype && a.price == b.price
    ensures CrossableVolume(a, q) == CrossableVolume(b, q)
  {
    if q != [] {
      SameReach(a, b, q[1..]);
    }
  }

  /** Whatever rests under the incoming id is the order itself as matching left it. */
  lemma RestsWhole(s: Book, o: Ord, b: Ord)
    requires Inv(s.(index := s.index - {o.id})) && o.side != NoSide && !Aggressive(o.otype)
    requires o.id !in Ids(s.bids) + Ids(s.asks) && RestsIn(Add(s, o), b) && b.id == o.id
    ensures b == Outcome(s, o) && Rests(o, Outcome(s, o).qty) && Outcome(s, o).stamp == s.clock
  {
    hide Add, SideOk;
    InvSided(s.(index := s.index - {o.id}), o.side);
    AddSides(s, o);
    MatchConserves(o, Contra(s, o.side), o.qty);
    MatchKeepsSide(Opposite(o.side), o, Contra(s, o.side), o.qty, s.clock);
    InsertMembers(Own(s, o.side), Outcome(s, o));
    var rest := Match(o, Contra(s, o.side), o.qty).rest;
    assert b in rest ==> b.id in Ids(rest);
    assert b in Own(s, o.side) ==> b.id in Ids(Own(s, o.side));
  }

  // ---------------------------------------------------------------- new orders

  /** The request is one the engine takes, on its bytes: 1 buys, 2 sells; 1 is LIMIT, 2 IOC,
      3 MARKET. */
  predicate Acceptable(sideByte: Byte, typeByte: Byte, price: Price, qty: Quantity) {
    (sideByte == 1 || sideByte == 2) && 1 <= typeByte <= 3 && qty > 0 && (typeByte == 1 ==> price > 0)
  }

  /** The first check that fails. */
  function FirstFault(sideByte: Byte, typeByte: Byte, qty: Quantity): Reason {
    if sideByte != 1 && sideByte != 2 then InvalidSide
    else if typeByte < 1 || typeByte > 3 then InvalidOrderType
    else if qty == 0 then InvalidQuantity
    else InvalidPrice
  }

  /** A request becomes an order, or is answered with one reject and changes nothing else. */
  lemma RequestDecided(e: Engine, m: Inbound)
    requires m.NewOrder?
    ensures var f := Process(e, m);
      var counted := e.(ordersProcessed := (e.ordersProcessed + 1) % 0x1_0000_0000_0000_0000);
      if Acceptable(m.sideByte, m.typeByte, m.price, m.qty) then
        var o := Ord(e.nextOrderId, if m.sideByte == 1 then Buy else Sell,
                     if m.typeByte == 1 then Limit else if m.typeByte == 2 then Ioc else Market,
                     m.price, m.qty, New, m.session, 0);
        f == Accept(counted, m.clientId, o) && f.book == Add(e.book, o)
      else
        f == counted.(sent := e.sent + [OrderReject(m.session, m.clientId, FirstFault(m.sideByte, m.typeByte, m.qty))])
  {
    hide Accept, Add;
    if Acceptable(m.sideByte, m.typeByte, m.price, m.qty) {
      var counted := e.(ordersProcessed := Wrap64(e.ordersProcessed + 1));
      NewOrderTick(counted, m.clientId, OrderOf(e, m));
    }
  }

  /** The acknowledgement of an accepted request: its new id, and the status told by the volume
      it can reach. */
  lemma RequestAcknowledged(e: Engine, m: Inbound)
    requires EngineInv(e) && e.nextOrderId + 1 < TWO_64 && m.NewOrder?
    requires Acceptable(m.sideByte, m.typeByte, m.price, m.qty)
    ensures var f := Process(e, m);
      var o := Ord(e.nextOrderId, if m.sideByte == 1 then Buy else Sell,
                   if m.typeByte == 1 then Limit else if m.typeByte == 2 then Ioc else Market,
                   m.price, m.qty, New, m.session, 0);
      var reach := CrossableVolume(o, if m.sideByte == 1 then e.book.asks else e.book.bids);
      && f.nextOrderId == e.nextOrderId + 1
      && f.sent != [] && f.sent[|f.sent| - 1] == OrderAck(m.session, m.clientId, e.nextOrderId, StatusFor(o, reach))
  {
    hide EngineInv, Accept, Add, Outcome, CrossableVolume, Process;
    RequestDecided(e, m);
    var counted := e.(ordersProcessed := (e.ordersProcessed + 1) % 0x1_0000_0000_0000_0000);
    var o := Ord(e.nextOrderId, if m.sideByte == 1 then Buy else Sell,
                 if m.typeByte == 1 then Limit else if m.typeByte == 2 then Ioc else Market,
                 m.price, m.qty, New, m.session, 0);
    SameBooksInv(e, counted);
    AcceptInv(counted, m.clientId, o);
    NewOrderReports(counted, m.clientId, o);
    FreshBook(e);
    StatusAfterAdd(e.book, o);
  }

  lemma FreshBook(e: Engine)
    requires EngineInv(e)
    ensures Inv(e.book.(index := e.book.index - {e.nextOrderId}))
  {
    RestingIndexed(e.book, e.orderToSession);
    assert e.book.index - {e.nextOrderId} == e.book.index;
  }

  // ---------------------------------------------------------------- the tick of a book

  ghost function TickOf(e: Engine, b: Book): MarketData {
    Tick(e.lastPrice, e.lastQty, Shown(b.bids).price, Shown(b.asks).price, Shown(b.bids).qty, Shown(b.asks).qty)
  }

  /** The session owns the tracked order, or is the dummy session. */
  predicate Allowed(e: Engine, session: SessionId, id: OrderId) {
    id in e.orderToSession && (e.orderToSession[id] == session || session == 4294967295)
  }

  // ---------------------------------------------------------------- cancels

  /** A cancel: refused, it adds one reject and changes nothing else; allowed, the order leaves
      the book and all three maps, every other entry stays, and acknowledgement and one tick of
      the new book follow. */
  lemma CancelAnswered(e: Engine, m: Inbound)
    requires m.CancelOrder?
    ensures var f, id := Process(e, m), m.orderId;
      if !Allowed(e, m.session, id) then
        f == e.(sent := e.sent + [CancelReject(m.session, m.clientId, id, OrderNotFound)])
      else
        var owner := e.orderToSession[id];
        && f == e.(book := f.book, sessionOrders := f.sessionOrders, orderToSession := f.orderToSession,
                   orderToClient := f.orderToClient, sent := f.sent, feed := f.feed)
        && f.book == Cancel(e.book, id)
        && id !in f.orderToSession && id !in f.orderToClient && id !in SessionIds(f.sessionOrders, owner)
        && (forall i :: i != id ==> (i in f.orderToSession <==> i in e.orderToSession))
        && (forall i :: i in f.orderToSession ==> f.orderToSession[i] == e.orderToSession[i])
        && (forall i :: i != id ==> (i in f.orderToClient <==> i in e.orderToClient))
        && (forall i :: i in f.orderToClient ==> f.orderToClient[i] == e.orderToClient[i])
        && (forall s, i :: i != id || s != owner ==>
              (i in SessionIds(f.sessionOrders, s) <==> i in SessionIds(e.sessionOrders, s)))
        && f.sent == e.sent + [CancelAck(m.session, m.clientId, id)]
        && f.feed == e.feed + [TickOf(e, f.book)]
  {
    hide Cancel, Shown;
  }

  /** The same cancel again is refused. */
  lemma CancelAgain(e: Engine, m: Inbound)
    requires m.CancelOrder? && Allowed(e, m.session, m.orderId)
    ensures var f := Process(e, m);
      Process(f, m) == f.(sent := f.sent + [CancelReject(m.session, m.clientId, m.orderId, OrderNotFound)])
  {
    hide Process, Cancel, Shown;
    CancelAnswered(e, m);
    CancelAnswered(Process(e, m), m);
  }

  // ---------------------------------------------------------------- modifies

  /** The last trade remembered after republishing a log. */
  lemma {:induction false} RepublishLast(e: Engine, id: OrderId, ts: seq<Trade>)
    ensures var f := RepublishTrades(e, id, ts);
      if ts == [] then f.lastPrice == e.lastPrice && f.lastQty == e.lastQty
      else f.lastPrice == ts[|ts| - 1].price && f.lastQty == ts[|ts| - 1].quantity
    ensures RepublishTrades(e, id, ts).ordersProcessed == e.ordersProcessed
    decreases |ts|
  {
    if ts != [] {
      RepublishLast(PublishTrade(e, ts[0], if ts[0].buyId == id then Buy else Sell), id, ts[1..]);
    }
  }

  /** The reason a modify is refused for, if it is: checks in order. */
  function ModifyFault(e: Engine, session: SessionId, id: OrderId, p: Price, x: Quantity): Option<Reason> {
    if !Allowed(e, session, id) then Some(OrderNotFound)
    else if p <= 0 then Some(InvalidPrice)
    else if x == 0 then Some(InvalidQuantity)
    else None
  }

  /** A modify: refused, it adds one reject and changes nothing else; accepted, the book is
      modified, ids and tracking stay, the last trade of the log is remembered, and after one
      update per logged trade comes the tick of the new book. */
  lemma ModifyAnswered(e: Engine, m: Inbound)
    requires m.ModifyOrder?
    ensures var f, fault := Process(e, m), ModifyFault(e, m.session, m.orderId, m.newPrice, m.newQty);
      match fault
      case Some(reason) => f == e.(sent := e.sent + [ModifyReject(m.session, m.clientId, m.orderId, reason)])
      case None =>
        var ts := f.book.trades;
        && f.book == Modify(e.book, m.orderId, m.newPrice, m.newQty)
        && f == e.(book := f.book, lastPrice := f.lastPrice, lastQty := f.lastQty,
                   tradesExecuted := f.tradesExecuted, sent := f.sent, feed := f.feed)
        && (ts == [] ==> f.lastPrice == e.lastPrice && f.lastQty == e.lastQty)
        && (ts != [] ==> f.lastPrice == ts[|ts| - 1].price && f.lastQty == ts[|ts| - 1].quantity)
        && f.sent == e.sent + [ModifyAck(m.session, m.clientId, m.orderId, m.newPrice, m.newQty)]
        && |f.feed| == |e.feed| + |ts| + 1 && f.feed[|f.feed| - 1] == TickOf(f, f.book)
  {
    hide Modify, Shown, RepublishTrades, PublishTrade;
    if ModifyFault(e, m.session, m.orderId, m.newPrice, m.newQty).None? {
      var after := Modify(e.book, m.orderId, m.newPrice, m.newQty);
      var e1 := e.(book := after);
      RepublishLast(e1, m.orderId, after.trades);
      RepublishFrame(e1, m.orderId, after.trades);
      RepublishAll(e1, m.orderId, after.trades);
    }
  }

  /** So the tick after a modify that trades shows its own last trade. */
  lemma ModifyTickShowsItsTrade(e: Engine, m: Inbound)
    requires Modifies(e, m) && NewTrades(e, m) != []
    ensures var f, ts := Process(e, m), NewTrades(e, m);
      && f.feed != [] && f.feed[|f.feed| - 1].Tick?
      && f.feed[|f.feed| - 1].lastPrice == ts[|ts| - 1].price && f.feed[|f.feed| - 1].lastQty == ts[|ts| - 1].quantity
  {
    hide Process, Modify, Shown;
    ModifyAnswered(e, m);
  }

  // ---------------------------------------------------------------- disconnects and the rest

  /** A session cancel sends nothing to anybody; for a set that is not empty it publishes one
      tick of the new book. Nothing but book, tracking and feed changes. */
  lemma DisconnectAnswered(e: Engine, session: SessionId, ids: seq<OrderId>)
    ensures var f := CancelSession(e, session, ids);
      && f == e.(book := f.book, sessionOrders := f.sessionOrders, orderToSession := f.orderToSession,
                 orderToClient := f.orderToClient, feed := f.feed)
      && f.book == CancelAll(e.book, ids) && f.sessionOrders == e.sessionOrders - {session}
      && f.orderToSession == e.orderToSession - SetOf(ids) && f.orderToClient == e.orderToClient - SetOf(ids)
      && f.feed == if ids == [] then e.feed else e.feed + [TickOf(e, f.book)]
  {
    hide DropOrders, CancelAll, Shown;
    DropOrdersIs(e, ids);
  }

  lemma OtherIgnored(e: Engine)
    ensures Process(e, OtherMessage) == e
  {
  }

  // ---------------------------------------------------------------- requests counted

  lemma {:induction false} ReportingCountsNoRequest(e: Engine, o: Ord, ts: seq<Trade>)
    ensures ReportTrades(e, o, ts).ordersProcessed == e.ordersProcessed
    decreases |ts|
  {
    if ts != [] {
      ReportingCountsNoRequest(ReportTrade(e, o, ts[0]), o, ts[1..]);
    }
  }

  /** ordersProcessed counts the requests for new orders, refused ones included, and nothing else. */
  lemma RequestsCounted(e: Engine, m: Inbound)
    ensures Process(e, m).ordersProcessed == if m.NewOrder? then Wrap64(e.ordersProcessed + 1) else e.ordersProcessed
  {
    hide Add, Modify, Cancel, Outcome, ReportTrades, Shown, Process, Accept;
    match m
    case NewOrder(_, _, _, _, _, _) =>
      RequestDecided(e, m);
      if Acceptable(m.sideByte, m.typeByte, m.price, m.qty) {
        var counted := e.(ordersProcessed := Wrap64(e.ordersProcessed + 1));
        var side := if m.sideByte == 1 then Buy else Sell;
        var otype := if m.typeByte == 1 then Limit else if m.typeByte == 2 then Ioc else Market;
        AcceptCountsNoRequest(counted, m.clientId, Ord(e.nextOrderId, side, otype, m.price, m.qty, New, m.session, 0));
      }
    case CancelOrder(_, _, _) => CancelAnswered(e, m);
    case ModifyOrder(_, _, _, _, _) => ModifyAnswered(e, m);
    case OtherMessage => OtherIgnored(e);
  }

  lemma AcceptCountsNoRequest(e: Engine, c: ClientOrderId, o: Ord)
    ensures Accept(e, c, o).ordersProcessed == e.ordersProcessed
  {
    hide Add, Outcome, ReportTrades, Shown;
    ReportingCountsNoRequest(Booked(e, c, o), Outcome(e.book, o), Booked(e, c, o).book.trades);
  }
}
