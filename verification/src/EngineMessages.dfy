/** What the handlers send: execution reports, trade updates and ticks. */
module EngineMessages {
  import opened Types
  import opened OrderQueue
  import opened Matching
  import opened LevelCache
  import opened Book
  import opened BookRuns
  import opened BookLaws
  import opened Engine
  import opened EngineRuns

  // ---------------------------------------------------------------- new orders

  lemma WrapTwice(n: OrderId, a: nat, b: nat)
    ensures Wrap64(Wrap64(n + a) + b) == Wrap64(n + a + b) && Wrap64(n) == n
  {
  }

  /** The two reports and the update of the i-th trade. */
  ghost predicate ReportedAt(e: Engine, f: Engine, o: Ord, t: Trade, i: nat)
    requires Passive(o, t) in e.orderToSession
  {
    var n, k := |e.sent| + 2 * i, |e.feed| + i;
    var first, second := Wrap64(e.nextTradeId + 2 * i), Wrap64(e.nextTradeId + 2 * i + 1);
    && n + 1 < |f.sent| && k < |f.feed|
    && f.sent[n] == ExecutionReport(o.session, o.id, first, t.price, t.quantity, o.qty, o.side)
    && f.sent[n + 1] == ExecutionReport(e.orderToSession[Passive(o, t)], Passive(o, t), second,
                                        t.price, t.quantity, 0, Opposite(o.side))
    && f.feed[k] == TradeUpdate(first, t.price, t.quantity, o.side)
  }

  ghost predicate Extends(e: Engine, f: Engine) {
    e.sent <= f.sent && e.feed <= f.feed
  }

  lemma {:induction false} ReportTradesAll(e: Engine, o: Ord, ts: seq<Trade>)
    requires forall i :: 0 <= i < |ts| ==> Passive(o, ts[i]) in e.orderToSession
    ensures var f := ReportTrades(e, o, ts);
      && Extends(e, f)
      && |f.sent| == |e.sent| + 2 * |ts| && |f.feed| == |e.feed| + |ts|
      && f.nextTradeId == Wrap64(e.nextTradeId + 2 * |ts|)
      && f.tradesExecuted == Wrap64(e.tradesExecuted + |ts|)
      && (forall i :: 0 <= i < |ts| ==> ReportedAt(e, f, o, ts[i], i))
    decreases |ts|
  {
    hide ReportTrade, ReportedAt, Wrap64, Passive;
    WrapTwice(e.nextTradeId, 0, 0);
    WrapTwice(e.tradesExecuted, 0, 0);
    if ts != [] {
      var g, f := ReportTrade(e, o, ts[0]), ReportTrades(e, o, ts);
      OneTrade(e, o, ts[0]);
      ReportTradesAll(g, o, ts[1..]);
      WrapTwice(e.nextTradeId, 2, 2 * |ts[1..]|);
      WrapTwice(e.tradesExecuted, 1, |ts[1..]|);
      FirstReported(e, g, f, o, ts[0]);
      forall i | 0 < i < |ts| ensures ReportedAt(e, f, o, ts[i], i) {
        assert ts[i] == ts[1..][i - 1];
        LaterReported(e, g, f, o, ts[i], i);
      }
    }
  }

  ghost predicate OneReported(e: Engine, g: Engine) {
    && |g.sent| == |e.sent| + 2 && |g.feed| == |e.feed| + 1
    && g.nextTradeId == Wrap64(e.nextTradeId + 2) && g.tradesExecuted == Wrap64(e.tradesExecuted + 1)
    && g.orderToSession == e.orderToSession
  }

  lemma OneTrade(e: Engine, o: Ord, t: Trade)
    requires Passive(o, t) in e.orderToSession
    ensures OneReported(e, ReportTrade(e, o, t)) && Extends(e, ReportTrade(e, o, t))
  {
    WrapTwice(e.nextTradeId, 1, 1);
  }

  lemma FirstReported(e: Engine, g: Engine, f: Engine, o: Ord, t: Trade)
    requires Passive(o, t) in e.orderToSession && g == ReportTrade(e, o, t) && Extends(g, f)
    ensures ReportedAt(e, f, o, t, 0) && Extends(e, f)
  {
  }

  lemma LaterReported(e: Engine, g: Engine, f: Engine, o: Ord, t: Trade, i: nat)
    requires OneReported(e, g) && i > 0 && Passive(o, t) in e.orderToSession && ReportedAt(g, f, o, t, i - 1)
    ensures ReportedAt(e, f, o, t, i)
  {
    WrapTwice(e.nextTradeId, 2, 2 * (i - 1));
    WrapTwice(e.nextTradeId, 2, 2 * (i - 1) + 1);
  }

  /** Every trade of a pass meets an order that rests on the contra side. */
  lemma TradesMeetResting(s: Book, o: Ord, i: nat) returns (x: Ord)
    requires o.side != NoSide && i < |Add(s, o).trades|
    ensures x in Contra(s, o.side) && Passive(o, Add(s, o).trades[i]) == x.id
  {
    MatchAt(o, Contra(s, o.side), o.qty, i);
    x := Contra(s, o.side)[i];
  }

  /** Each trade of an accepted order finds the session of its passive side and sends exactly
      two reports, of opposite sides and equal price and quantity, with consecutive trade
      ids; the trade update carries the aggressor's id. The acknowledgement comes last. */
  lemma NewOrderReports(e: Engine, c: ClientOrderId, o: Ord)
    requires EngineInv(e) && o.id == e.nextOrderId && o.id + 1 < TWO_64
    requires Refusal(o.side, o.otype, o.price, o.qty).None?
    ensures var f, ts, done := Accept(e, c, o), Add(e.book, o).trades, Outcome(e.book, o);
      && e.sent <= f.sent && |f.sent| == |e.sent| + 2 * |ts| + 1
      && e.feed <= f.feed && |f.feed| == |e.feed| + |ts| + 1
      && f.sent[|f.sent| - 1] == OrderAck(o.session, c, o.id, done.status)
      && (forall i :: 0 <= i < |ts| ==>
            && Passive(o, ts[i]) in e.orderToSession
            && ReportedAt(e, f, done, ts[i], i)
            && (exists x :: x in Contra(e.book, o.side) && x.id == Passive(o, ts[i])
                            && e.orderToSession[x.id] == x.session))
  {
    hide EngineInv, Add, ReportTrades, Shown, Match, Wrap64;
    var e1, done, ts := Booked(e, c, o), Outcome(e.book, o), Add(e.book, o).trades;
    BookedInv(e, c, o);
    forall i | 0 <= i < |ts|
      ensures Passive(o, ts[i]) in e.orderToSession && Passive(o, ts[i]) != o.id
      ensures exists x ::
        x in Contra(e.book, o.side) && x.id == Passive(o, ts[i]) && e.orderToSession[x.id] == x.session
    {
      var x := TradeOwner(e, o, i);
    }
    ReportTradesAll(e1, done, ts);
    var e2 := ReportTrades(e1, done, ts);
    var f := Accept(e, c, o);
    assert e2.sent <= f.sent && e2.feed <= f.feed;
    forall i | 0 <= i < |ts| ensures ReportedAt(e, f, done, ts[i], i) {
      assert ReportedAt(e1, e2, done, ts[i], i);
    }
  }

  lemma TradeOwner(e: Engine, o: Ord, i: nat) returns (x: Ord)
    requires EngineInv(e) && o.id == e.nextOrderId && o.side != NoSide && i < |Add(e.book, o).trades|
    ensures x in Contra(e.book, o.side) && Passive(o, Add(e.book, o).trades[i]) == x.id != o.id
    ensures x.id in e.orderToSession && e.orderToSession[x.id] == x.session
  {
    x := TradesMeetResting(e.book, o, i);
    assert RestsIn(e.book, x);
  }

  /** The last trade of the loop is the one remembered. */
  lemma {:induction false} ReportTradesLast(e: Engine, o: Ord, ts: seq<Trade>)
    ensures var f := ReportTrades(e, o, ts);
      if ts == [] then f.lastPrice == e.lastPrice && f.lastQty == e.lastQty
      else f.lastPrice == ts[|ts| - 1].price && f.lastQty == ts[|ts| - 1].quantity
    decreases |ts|
  {
    if ts != [] {
      ReportTradesLast(ReportTrade(e, o, ts[0]), o, ts[1..]);
    }
  }

  /** The one tick of an accepted order comes after all its trades and shows the last of them
      and the book as the order left it. */
  lemma NewOrderTick(e: Engine, c: ClientOrderId, o: Ord)
    ensures var f, ts := Accept(e, c, o), Add(e.book, o).trades;
      && f.book == Add(e.book, o)
      && f.feed != [] && f.feed[|f.feed| - 1] == PublishTick(f).feed[|f.feed|]
      && (ts == [] ==> f.lastPrice == e.lastPrice && f.lastQty == e.lastQty)
      && (ts != [] ==> f.lastPrice == ts[|ts| - 1].price && f.lastQty == ts[|ts| - 1].quantity)
  {
    hide Add, Outcome, ReportTrades, Shown;
    var e1, done := Booked(e, c, o), Outcome(e.book, o);
    ReportTradesFrame(e1, done, e1.book.trades);
    ReportTradesLast(e1, done, e1.book.trades);
  }

  /** After acceptance the order is tracked, with its client id, exactly when it rests; the
      maps say of every other order what they said before. */
  lemma AcceptTracksIffRests(e: Engine, c: ClientOrderId, o: Ord)
    requires EngineInv(e) && o.id == e.nextOrderId && o.id + 1 < TWO_64
    requires Refusal(o.side, o.otype, o.price, o.qty).None?
    ensures var f := Accept(e, c, o);
      && (o.id in f.orderToSession <==> o.id in f.book.index)
      && f.orderToSession == (if o.id in f.book.index then e.orderToSession[o.id := o.session] else e.orderToSession)
      && f.orderToClient == (if o.id in f.book.index then e.orderToClient[o.id := c] else e.orderToClient)
  {
    hide EngineInv, Add, Outcome, ReportTrades, Refusal, Shown, Inv;
    var e1, done := Booked(e, c, o), Outcome(e.book, o);
    ReportTradesFrame(e1, done, e1.book.trades);
    NewOrderTick(e, c, o);
    NotYetTracked(e);
    FinishedIffGone(e, c, o);
  }

  lemma NotYetTracked(e: Engine)
    requires EngineInv(e)
    ensures e.nextOrderId !in e.orderToSession && e.nextOrderId !in e.orderToClient
    ensures e.nextOrderId !in e.book.index
  {
    RestingIndexed(e.book, e.orderToSession);
    assert e.orderToClient.Keys == e.orderToSession.Keys;
  }

  lemma FinishedIffGone(e: Engine, c: ClientOrderId, o: Ord)
    requires EngineInv(e) && o.id == e.nextOrderId && o.id + 1 < TWO_64
    requires Refusal(o.side, o.otype, o.price, o.qty).None?
    ensures Finished(Outcome(e.book, o)) <==> o.id !in Add(e.book, o).index
  {
    hide Tracking, Inv, RestingOk;
    MatchConserves(o, Contra(e.book, o.side), o.qty);
    if Finished(Outcome(e.book, o)) {
      FinishedIsUntrackable(e, c, o);
    }
  }

  // ---------------------------------------------------------------- modifies

  lemma {:induction false} RepublishAll(e: Engine, id: OrderId, ts: seq<Trade>)
    ensures var f := RepublishTrades(e, id, ts);
      && e.feed <= f.feed && |f.feed| == |e.feed| + |ts|
      && f.tradesExecuted == Wrap64(e.tradesExecuted + |ts|) && f.nextTradeId == e.nextTradeId
      && (forall i :: 0 <= i < |ts| ==>
            f.feed[|e.feed| + i]
            == TradeUpdate(e.nextTradeId, ts[i].price, ts[i].quantity, if ts[i].buyId == id then Buy else Sell))
    decreases |ts|
  {
    if ts != [] {
      var g := PublishTrade(e, ts[0], if ts[0].buyId == id then Buy else Sell);
      RepublishAll(g, id, ts[1..]);
      WrapTwice(e.tradesExecuted, 1, |ts[1..]|);
      var f := RepublishTrades(e, id, ts);
      assert g.feed <= f.feed;
      forall i | 0 <= i < |ts|
        ensures f.feed[|e.feed| + i]
             == TradeUpdate(e.nextTradeId, ts[i].price, ts[i].quantity, if ts[i].buyId == id then Buy else Sell)
      {
        if i == 0 {
          assert f.feed[|e.feed|] == g.feed[|e.feed|];
        } else {
          assert ts[i] == ts[1..][i - 1];
          assert f.feed[|g.feed| + (i - 1)] == f.feed[|e.feed| + i];
        }
      }
    }
  }

  ghost predicate Modifies(e: Engine, m: Inbound) {
    m.ModifyOrder? && MayTouch(e, m.session, m.orderId) && m.newPrice > 0 && m.newQty > 0
  }

  /** The trades that this modify makes, as opposed to those it finds in the log. */
  ghost function NewTrades(e: Engine, m: Inbound): seq<Trade>
    requires m.ModifyOrder?
  {
    if Incoming(e.book, ModifyOp(m.orderId, m.newPrice, m.newQty)).Some?
    then Modify(e.book, m.orderId, m.newPrice, m.newQty).trades
    else []
  }

  lemma ModifyFeed(e: Engine, m: Inbound)
    requires Modifies(e, m)
    ensures var f, ts := HandleModify(e, m), Modify(e.book, m.orderId, m.newPrice, m.newQty).trades;
      && e.feed <= f.feed && |f.feed| == |e.feed| + |ts| + 1
      && f.tradesExecuted == Wrap64(e.tradesExecuted + |ts|)
      && f.sent == e.sent + [ModifyAck(m.session, m.clientId, m.orderId, m.newPrice, m.newQty)]
      && (forall i :: 0 <= i < |ts| ==>
            f.feed[|e.feed| + i]
            == TradeUpdate(e.nextTradeId, ts[i].price, ts[i].quantity, if ts[i].buyId == m.orderId then Buy else Sell))
  {
    hide Modify, RepublishTrades;
    var after := Modify(e.book, m.orderId, m.newPrice, m.newQty);
    var e1 := e.(book := after);
    RepublishAll(e1, m.orderId, after.trades);
    RepublishFrame(e1, m.orderId, after.trades);
    assert RepublishTrades(e1, m.orderId, after.trades).feed <= HandleModify(e, m).feed;
  }

  /** An accepted modify publishes one update per trade it makes exactly when it takes effect
      or the trade log happens to be empty: ModifyOrder returns without clearing the log when
      the order no longer rests or nothing changes, and the engine then publishes and counts
      the trades of an earlier message again. */
  lemma ModifyPublishesOnceIff(e: Engine, m: Inbound)
    requires Modifies(e, m)
    ensures |HandleModify(e, m).feed| == |e.feed| + |NewTrades(e, m)| + 1
      <==> Incoming(e.book, ModifyOp(m.orderId, m.newPrice, m.newQty)).Some? || e.book.trades == []
  {
    ModifyFeed(e, m);
    StepIncoming(e.book, ModifyOp(m.orderId, m.newPrice, m.newQty));
  }

  /** When the modify takes effect the aggressor side it publishes is the order's own side. */
  lemma ModifyAggressor(e: Engine, m: Inbound, i: nat)
    requires EngineInv(e) && Modifies(e, m) && i < |NewTrades(e, m)|
    ensures Lookup(e.book, m.orderId).Some?
    ensures (if NewTrades(e, m)[i].buyId == m.orderId then Buy else Sell) == Lookup(e.book, m.orderId).value.side
  {
    LookupIn(e.book, m.orderId);
    var o := Lookup(e.book, m.orderId).value;
    WithdrawInv(e.book, o);
    var w, n := Withdraw(e.book, o), o.(price := m.newPrice, qty := m.newQty, status := Modified);
    var x := TradesMeetResting(w, n, i);
    assert x.id in Ids(Contra(w, n.side));
    MatchAt(n, Contra(w, n.side), n.qty, i);
  }

  function Reports(ms: seq<Outbound>): nat {
    if ms == [] then 0 else Reports(ms[..|ms| - 1]) + if ms[|ms| - 1].ExecutionReport? then 1 else 0
  }

  /** The modify leaves the order out of reach of the other side: it no longer rests, nothing
      changes, the other side is empty, or the other side's best price is not crossed. */
  ghost predicate MeetsNobody(s: Book, id: OrderId, p: Price, x: Quantity) {
    match Lookup(s, id)
    case None => true
    case Some(o) =>
      || (o.price == p && o.qty == x)
      || Contra(s, o.side) == []
      || !Crosses(o.(price := p, qty := x), Contra(s, o.side)[0].price)
  }

  lemma NewTradesIff(e: Engine, m: Inbound)
    requires EngineInv(e) && Modifies(e, m)
    ensures NewTrades(e, m) == [] <==> MeetsNobody(e.book, m.orderId, m.newPrice, m.newQty)
  {
    hide Tracking, RestingOk, Add, SidesOk, Find;
    LookupIn(e.book, m.orderId);
    var op := ModifyOp(m.orderId, m.newPrice, m.newQty);
    if Incoming(e.book, op).Some? {
      var o := Lookup(e.book, m.orderId).value;
      StepIncoming(e.book, op);
      StepTrades(Withdraw(e.book, o), Incoming(e.book, op).value.1);
    }
  }

  /** A modify sends no execution report at all, so the two reports per trade that a new order
      gets are sent exactly when the modified order meets nobody. */
  lemma ModifyReportsIff(e: Engine, m: Inbound)
    requires EngineInv(e) && Modifies(e, m)
    ensures Reports(HandleModify(e, m).sent) == Reports(e.sent)
    ensures Reports(HandleModify(e, m).sent) == Reports(e.sent) + 2 * |NewTrades(e, m)|
      <==> MeetsNobody(e.book, m.orderId, m.newPrice, m.newQty)
  {
    hide EngineInv, MeetsNobody, HandleModify;
    NewTradesIff(e, m);
    ModifyFeed(e, m);
    var f := HandleModify(e, m);
    assert f.sent[..|f.sent| - 1] == e.sent;
  }

  // ---------------------------------------------------------------- ids that outlive their order

  /** Only the ids of finished incoming orders and of cancels leave the tracking maps: a
      resting order filled by a later one stays tracked. */
  lemma NewOrderKeepsTracked(e: Engine, m: Inbound, id: OrderId)
    requires EngineInv(e) && m.NewOrder? && e.nextOrderId + 1 < TWO_64 && id in e.orderToSession
    ensures id in HandleNew(e, m).orderToSession
  {
    hide EngineInv, Tracking, Add, Outcome, ReportTrades, Refusal;
    if Refusal(SideOf(m.sideByte), TypeOf(m.typeByte), m.price, m.qty).None? {
      var e0, o := e.(ordersProcessed := Wrap64(e.ordersProcessed + 1)), OrderOf(e, m);
      var e1, done := Booked(e0, m.clientId, o), Outcome(e0.book, o);
      ReportTradesFrame(e1, done, e1.book.trades);
      TrackedBelow(e, id);
    }
  }

  lemma TrackedBelow(e: Engine, id: OrderId)
    requires EngineInv(e) && id in e.orderToSession
    ensures id < e.nextOrderId
  {
  }

  /** So a cancel of a tracked id is always acknowledged, and cancels nothing exactly when the
      order no longer rests. */
  lemma CancelDoesNothingIff(e: Engine, m: Inbound)
    requires EngineInv(e) && m.CancelOrder? && MayTouch(e, m.session, m.orderId)
    ensures HandleCancel(e, m).sent == e.sent + [CancelAck(m.session, m.clientId, m.orderId)]
    ensures HandleCancel(e, m).book == e.book <==> m.orderId !in e.book.index
  {
    LookupIn(e.book, m.orderId);
    CancelInv(e.book, m.orderId);
  }

  // ---------------------------------------------------------------- ticks

  /** With both sides quoted the bid is below the ask; a side without a price has no quantity. */
  predicate TickOk(d: MarketData) {
    d.Tick? ==>
      && (d.bidPrice > 0 && d.askPrice > 0 ==> d.bidPrice < d.askPrice)
      && 0 <= d.bidPrice && 0 <= d.askPrice
      && (d.bidPrice == 0 <==> d.bidQty == 0) && (d.askPrice == 0 <==> d.askQty == 0)
  }

  ghost predicate TicksOk(feed: seq<MarketData>) {
    forall d :: d in feed ==> TickOk(d)
  }

  /** What one side of a tick says of its queue: the best price with the whole quantity
      there, and nothing exactly for an empty side. */
  ghost predicate SideQuoted(price: Price, qty: Quantity, q: seq<Ord>) {
    if q == [] then price == qty == 0
    else price == q[0].price > 0 && qty == Sum(AtPrice(q, price)) > 0
  }

  /** The tick shows the last trade and the book it is published from: an uncrossed pair of
      prices in any case, and, while no level reaches 2^32, what each side holds at its best. */
  lemma TickDescribesBook(e: Engine)
    requires EngineInv(e)
    ensures |PublishTick(e).feed| == |e.feed| + 1
    ensures var d := PublishTick(e).feed[|e.feed|];
      && d.Tick? && TickOk(d) && d.lastPrice == e.lastPrice && d.lastQty == e.lastQty
      && (Fits(e.book.bids, e.book.asks) ==>
            SideQuoted(d.bidPrice, d.bidQty, e.book.bids) && SideQuoted(d.askPrice, d.askQty, e.book.asks))
  {
    hide Sorted, DistinctIds, Tracking, AtPrice, Sum, Shown;
    var bids, asks := e.book.bids, e.book.asks;
    QuotesUncrossed(e.book);
    SideShown(Buy, bids, asks, e.book.clock);
    SideShown(Sell, asks, bids, e.book.clock);
    assert bids != [] ==> RestsIn(e.book, bids[0]);
    assert asks != [] ==> RestsIn(e.book, asks[0]);
    if Fits(bids, asks) {
      FitsEither(bids, asks);
    }
  }

  lemma SideShown(side: BuySell, q: seq<Ord>, other: seq<Ord>, clock: nat)
    requires SideOk(side, q, clock)
    ensures Shown(q).has <==> Shown(q).qty > 0
    ensures if Shown(q).has then q != [] && Shown(q).price == q[0].price else Shown(q).price == 0
    ensures q == [] ==> Shown(q) == Quote(false, 0, 0)
    ensures q != [] && Fits(q, other) && q[0].price > 0 ==> SideQuoted(Shown(q).price, Shown(q).qty, q)
  {
    hide AtPrice, Sum, SideOk;
    ShownIff(side, q, clock);
    if q != [] && Fits(q, other) {
      assert TotalAt(q, other, q[0].price) < TWO_32;
    }
  }

  lemma FitsEither(a: seq<Ord>, b: seq<Ord>)
    requires Fits(a, b)
    ensures Fits(b, a)
  {
    forall p: Price ensures TotalAt(b, a, p) < TWO_32 {
      assert TotalAt(a, b, p) < TWO_32;
    }
  }

  /** Whatever a message adds to the feed is trade updates and at most one tick, taken from
      the book the message leaves. */
  ghost predicate FeedGrows(e: Engine, f: Engine) {
    forall d :: d in f.feed ==> d in e.feed || d.TradeUpdate? || d == PublishTick(f).feed[|f.feed|]
  }

  lemma TickIsOfBook(e: Engine)
    ensures PublishTick(PublishTick(e)).feed[|e.feed| + 1] == PublishTick(e).feed[|e.feed|]
    ensures PublishTick(e).feed == e.feed + [PublishTick(e).feed[|e.feed|]]
  {
  }

  lemma {:induction false} ReportTradesFeed(e: Engine, o: Ord, ts: seq<Trade>)
    ensures forall d :: d in ReportTrades(e, o, ts).feed ==> d in e.feed || d.TradeUpdate?
    decreases |ts|
  {
    if ts != [] {
      ReportTradesFeed(ReportTrade(e, o, ts[0]), o, ts[1..]);
    }
  }

  lemma AcceptFeed(e: Engine, c: ClientOrderId, o: Ord)
    ensures FeedGrows(e, Accept(e, c, o))
  {
    hide Add, Outcome, ReportTrades, Shown;
    var e1, done := Booked(e, c, o), Outcome(e.book, o);
    ReportTradesFeed(e1, done, e1.book.trades);
    var e2 := ReportTrades(e1, done, e1.book.trades);
    var e3 := Send(e2, OrderAck(o.session, c, o.id, done.status));
    TickIsOfBook(if Finished(done) then Untrack(e3, o.session, o.id) else e3);
  }

  lemma ModifyFeedGrows(e: Engine, m: Inbound)
    requires m.ModifyOrder?
    ensures FeedGrows(e, HandleModify(e, m))
  {
    hide Modify, RepublishTrades, Shown;
    if Modifies(e, m) {
      var after := Modify(e.book, m.orderId, m.newPrice, m.newQty);
      var e1 := RepublishTrades(e.(book := after), m.orderId, after.trades);
      RepublishAll(e.(book := after), m.orderId, after.trades);
      forall d | d in e1.feed ensures d in e.feed || d.TradeUpdate? {
        var k :| 0 <= k < |e1.feed| && e1.feed[k] == d;
        if k >= |e.feed| {
          var t := after.trades[k - |e.feed|];
          assert e1.feed[|e.feed| + (k - |e.feed|)]
              == TradeUpdate(e.nextTradeId, t.price, t.quantity, if t.buyId == m.orderId then Buy else Sell);
        }
      }
      TickIsOfBook(Send(e1, ModifyAck(m.session, m.clientId, m.orderId, m.newPrice, m.newQty)));
    }
  }

  lemma ProcessFeed(e: Engine, m: Inbound)
    ensures FeedGrows(e, Process(e, m))
  {
    hide HandleModify, Accept, Shown;
    match m
    case NewOrder(_, _, _, _, _, _) =>
      if Refusal(SideOf(m.sideByte), TypeOf(m.typeByte), m.price, m.qty).None? {
        AcceptFeed(e.(ordersProcessed := Wrap64(e.ordersProcessed + 1)), m.clientId, OrderOf(e, m));
      }
    case CancelOrder(_, _, _) =>
      if MayTouch(e, m.session, m.orderId) {
        var e1 := Untrack(e.(book := Cancel(e.book, m.orderId)), e.orderToSession[m.orderId], m.orderId);
        TickIsOfBook(Send(e1, CancelAck(m.session, m.clientId, m.orderId)));
      }
    case ModifyOrder(_, _, _, _, _) => ModifyFeedGrows(e, m);
    case OtherMessage =>
  }

  /** On every run every tick published is uncrossed. */
  lemma {:induction false} RunTicksOk(e: Engine, ms: seq<Inbound>)
    requires EngineInv(e) && TicksOk(e.feed) && e.nextOrderId + |ms| < TWO_64
    ensures TicksOk(ProcessAll(e, ms).feed)
    decreases |ms|
  {
    if ms != [] {
      var f := Process(e, ms[0]);
      ProcessInv(e, ms[0]);
      ProcessFeed(e, ms[0]);
      TickDescribesBook(f);
      RunTicksOk(f, ms[1..]);
    }
  }

  // ---------------------------------------------------------------- session cancel

  lemma {:induction false} DropOrdersIs(e: Engine, ids: seq<OrderId>)
    ensures var t := DropOrders(e, ids);
      t == e.(book := CancelAll(e.book, ids),
              orderToSession := e.orderToSession - SetOf(ids),
              orderToClient := e.orderToClient - SetOf(ids))
    decreases |ids|
  {
    if ids == [] {
      assert SetOf(ids) == {};
    } else {
      assert SetOf(ids) == {ids[0]} + SetOf(ids[1..]);
      DropOrdersIs(DropOrder(e, ids[0]), ids[1..]);
      DropTwo(e.orderToSession, ids[0], SetOf(ids[1..]));
      DropTwo(e.orderToClient, ids[0], SetOf(ids[1..]));
    }
  }

  lemma DropTwo<V>(m: map<OrderId, V>, id: OrderId, ids: set<OrderId>)
    ensures m - {id} - ids == m - ({id} + ids)
  {
  }

  /** cancelSessionOrders leaves the same engine in whatever order the set of ids is visited,
      level cache included: those ids filtered from every level, dropped from index and
      tracking. */
  lemma CancelSessionAnyOrder(e: Engine, session: SessionId, ids: seq<OrderId>, other: seq<OrderId>)
    requires EngineInv(e) && SetOf(ids) == SetOf(other)
    ensures CancelSession(e, session, ids) == CancelSession(e, session, other)
    ensures var t := CancelSession(e, session, ids);
      && t.book.bids == Without(e.book.bids, SetOf(ids)) && t.book.asks == Without(e.book.asks, SetOf(ids))
      && t.book.index == e.book.index - SetOf(ids) && (InSync(e.book) ==> InSync(t.book))
      && t.orderToSession == e.orderToSession - SetOf(ids)
  {
    DropOrdersIs(e, ids);
    DropOrdersIs(e, other);
    CancelAllFilters(e.book, ids);
    CancelAllAnyOrder(e.book, ids, other);
    assert ids == [] <==> other == [] by {
      assert ids != [] ==> ids[0] in SetOf(other);
      assert other != [] ==> other[0] in SetOf(ids);
    }
  }

  /** Among tracked orders, the ids are exactly those of the session. */
  ghost predicate ExactlySessions(e: Engine, session: SessionId, ids: set<OrderId>) {
    forall id :: id in e.orderToSession ==> (id in ids <==> e.orderToSession[id] == session)
  }

  /** cancelSessionOrders keeps the tracking maps consistent exactly when it is given the
      session's own orders: it erases the session's entry whole, and other sessions' entries
      not at all. */
  lemma CancelSessionInvIff(e: Engine, session: SessionId, ids: seq<OrderId>)
    requires EngineInv(e)
    ensures EngineInv(CancelSession(e, session, ids)) <==> ExactlySessions(e, session, SetOf(ids))
  {
    hide Tracking, RestingOk, Inv, InSync, DropOrders;
    var t := DropOrders(e, ids).(sessionOrders := e.sessionOrders - {session});
    DropOrdersIs(e, ids);
    CancelAllFilters(e.book, ids);
    SameBooksInv(t, CancelSession(e, session, ids));
    DroppedRestingOk(e, ids);
    if ExactlySessions(e, session, SetOf(ids)) {
      DroppedTracking(e, session, ids, t);
    } else {
      DroppedNotTracking(e, session, ids, t);
    }
  }

  lemma DroppedNotTracking(e: Engine, session: SessionId, ids: seq<OrderId>, t: Engine)
    requires Tracking(e) && !ExactlySessions(e, session, SetOf(ids))
    requires t.sessionOrders == e.sessionOrders - {session} && t.orderToSession == e.orderToSession - SetOf(ids)
    ensures !Tracking(t)
  {
    var id :| id in e.orderToSession && !(id in SetOf(ids) <==> e.orderToSession[id] == session);
    assert id in SessionIds(e.sessionOrders, e.orderToSession[id]);
    if id in SetOf(ids) {
      assert id in t.sessionOrders[e.orderToSession[id]] && id !in t.orderToSession;
    } else {
      assert t.orderToSession[id] == session;
      assert SessionIds(t.sessionOrders, session) == {};
    }
  }

  lemma DroppedTracking(e: Engine, session: SessionId, ids: seq<OrderId>, t: Engine)
    requires Tracking(e) && ExactlySessions(e, session, SetOf(ids))
    requires t.sessionOrders == e.sessionOrders - {session} && t.nextOrderId == e.nextOrderId
    requires t.orderToSession == e.orderToSession - SetOf(ids) && t.orderToClient == e.orderToClient - SetOf(ids)
    ensures Tracking(t)
  {
    forall s, id | s in t.sessionOrders && id in t.sessionOrders[s]
      ensures id in t.orderToSession && t.orderToSession[id] == s
    {
      assert s in e.sessionOrders && id in e.sessionOrders[s];
    }
  }

  lemma {:induction false} WithoutMember(q: seq<Ord>, ids: set<OrderId>, b: Ord)
    ensures b in Without(q, ids) <==> b in q && b.id !in ids
  {
    if q != [] {
      WithoutMember(q[1..], ids, b);
      assert b in q <==> b == q[0] || b in q[1..];
    }
  }

  lemma DroppedRestingOk(e: Engine, ids: seq<OrderId>)
    requires EngineInv(e)
    ensures RestingOk(CancelAll(e.book, ids), e.orderToSession - SetOf(ids))
  {
    CancelAllFilters(e.book, ids);
    forall b | RestsIn(CancelAll(e.book, ids), b) ensures RestsIn(e.book, b) && b.id !in SetOf(ids) {
      WithoutMember(e.book.bids, SetOf(ids), b);
      WithoutMember(e.book.asks, SetOf(ids), b);
    }
  }
}
