/** Runs from a new engine on which it does what its documentation does not promise: a modify
    republishes an old trade or trades without an execution report, a cancel of a filled order
    is acknowledged, an execution report understates what is left. */
module Witnesses {
  import opened Types
  import opened OrderQueue
  import opened Matching
  import opened Book
  import opened BookRuns
  import opened BookLaws
  import opened Engine
  import opened EngineRuns
  import opened EngineBooks
  import opened EngineMessages
  import opened EngineFills
  import opened Isolation
  import opened EngineCounters

  /** A valid LIMIT request. */
  predicate LimitOrder(m: Inbound, side: BuySell, p: Price, x: Quantity) {
    && m.NewOrder? && side != NoSide && SideOf(m.sideByte) == side && TypeOf(m.typeByte) == Limit
    && m.price == p > 0 && m.qty == x > 0
  }

  /** What processing a valid request does to book and tracking. */
  lemma Entered(e: Engine, m: Inbound, side: BuySell, p: Price, x: Quantity)
    requires EngineInv(e) && e.nextOrderId + 1 < TWO_64 && LimitOrder(m, side, p, x)
    ensures var f, o := Process(e, m), OrderOf(e, m);
      && EngineInv(f) && f.nextOrderId == e.nextOrderId + 1 && o.id !in e.book.index
      && f.book == Add(e.book, o)
      && (o.id in f.book.index ==> f.orderToSession == e.orderToSession[o.id := m.session])
      && (o.id !in f.book.index ==> f.orderToSession == e.orderToSession)
  {
    hide EngineInv, Add, Accept;
    var e0 := e.(ordersProcessed := Wrap64(e.ordersProcessed + 1));
    SameBooksInv(e, e0);
    AcceptInv(e0, m.clientId, OrderOf(e0, m));
    AcceptBook(e0, m.clientId, OrderOf(e0, m));
    AcceptTracksIffRests(e0, m.clientId, OrderOf(e0, m));
    FreshId(e);
  }

  /** A first sell rests alone. */
  lemma SellRests(e: Engine, m: Inbound, p: Price, x: Quantity)
    requires IsNewEngine(e) && LimitOrder(m, Sell, p, x)
    ensures var f := Process(e, m);
      && EngineInv(f) && f.nextOrderId == 2 && f.orderToSession == map[1 := m.session]
      && f.book.bids == [] && |f.book.asks| == 1
      && f.book.asks[0].price == p && f.book.asks[0].qty == x && f.book.asks[0].id == 1
  {
    hide EngineInv, Process, Add, Outcome;
    NewEngineInv(e);
    Entered(e, m, Sell, p, x);
    RestsAlone(e.book, OrderOf(e, m));
  }

  lemma RestsAlone(s: Book, o: Ord)
    requires Contra(s, o.side) == Own(s, o.side) == [] && o.side != NoSide && Rests(o, o.qty)
    ensures var t := Add(s, o);
      && Contra(t, o.side) == [] && Own(t, o.side) == [Outcome(s, o)] && o.id in t.index
      && Outcome(s, o).price == o.price && Outcome(s, o).qty == o.qty && Outcome(s, o).id == o.id
  {
    AddWithoutCross(s, o);
  }

  /** A buy that does not reach the sell rests on its side. */
  lemma BuyRests(s: Book, o: Ord)
    requires s.bids == [] && |s.asks| == 1 && o.side == Buy && Rests(o, o.qty) && o.price < s.asks[0].price
    ensures var t := Add(s, o);
      && t.asks == s.asks && t.bids == [Outcome(s, o)] && o.id in t.index
      && Outcome(s, o) == o.(status := Outcome(s, o).status, stamp := Outcome(s, o).stamp)
  {
    assert forall b :: b in s.asks ==> b == s.asks[0];
    AddWithoutCross(s, o);
  }

  /** A sell at p; a buy of the same size at r below p; then the buy is modified to p. It trades
      with the sell and no execution report is sent to anyone. */
  lemma SilentTrade(e: Engine, sell: Inbound, buy: Inbound, m: Inbound, p: Price, r: Price, x: Quantity)
    requires IsNewEngine(e) && r < p && LimitOrder(sell, Sell, p, x) && LimitOrder(buy, Buy, r, x)
    requires m == ModifyOrder(buy.session, buy.clientId, 2, p, x)
    ensures var t := Process(Process(e, sell), buy);
      && Modifies(t, m) && NewTrades(t, m) != []
      && Reports(HandleModify(t, m).sent) == Reports(t.sent)
  {
    hide EngineInv, Process, Add, Outcome, HandleModify, NewTrades;
    var f := Process(e, sell);
    SellRests(e, sell, p, x);
    Entered(f, buy, Buy, r, x);
    BuyRests(f.book, OrderOf(f, buy));
    var t := Process(f, buy);
    FoundAmongBids(t.book, t.book.bids[0]);
    NewTradesIff(t, m);
    ModifyReportsIff(t, m);
  }

  lemma FoundAmongBids(s: Book, o: Ord)
    requires |s.bids| == 1 && s.bids[0] == o
    ensures Lookup(s, o.id) == Some(o)
  {
  }

  /** A buy of the same size at the sell's price leaves an empty book with one trade in the log. */
  lemma BuyFills(s: Book, o: Ord)
    requires s.bids == [] && |s.asks| == 1 && o.side == Buy && o.otype == Limit
    requires o.price == s.asks[0].price && o.qty == s.asks[0].qty > 0
    ensures Add(s, o).bids == Add(s, o).asks == [] && |Add(s, o).trades| == 1
  {
    var q := s.asks;
    assert q[1..] == [];
    assert Match(o, q[1..], 0) == Matched(q[1..], [], 0);
    AddSides(s, o);
    StepTrades(s, o);
    MatchConserves(o, q, o.qty);
  }

  /** After a sell and a buy that fills it the book is empty, one trade is logged and counted, and
      the sell's id is still its session's. */
  lemma SellFilled(e: Engine, sell: Inbound, buy: Inbound, p: Price, x: Quantity)
    requires IsNewEngine(e) && LimitOrder(sell, Sell, p, x) && LimitOrder(buy, Buy, p, x)
    ensures var t := Process(Process(e, sell), buy);
      && EngineInv(t) && t.book.bids == t.book.asks == [] && |t.book.trades| == 1
      && 1 in t.orderToSession && t.orderToSession[1] == sell.session
      && t.tradesExecuted == 1
  {
    hide EngineInv, Process, Add, Counted, OpOf;
    var f := Process(e, sell);
    SellRests(e, sell, p, x);
    Entered(f, buy, Buy, p, x);
    BuyFills(f.book, OrderOf(f, buy));
    NewEngineInv(e);
    FirstTradeCounted(e, sell, buy, p, x);
  }

  lemma FirstTradeCounted(e: Engine, sell: Inbound, buy: Inbound, p: Price, x: Quantity)
    requires IsNewEngine(e) && EngineInv(e) && LimitOrder(sell, Sell, p, x) && LimitOrder(buy, Buy, p, x)
    requires var f := Process(e, sell); EngineInv(f) && f.nextOrderId == 2 && |Add(f.book, OrderOf(f, buy)).trades| == 1
    ensures Process(Process(e, sell), buy).tradesExecuted == 1
  {
    hide EngineInv, Process, Add;
    MessageCounted(e, sell);
    SellTradesNothing(e, sell, p, x);
    MessageCounted(Process(e, sell), buy);
  }

  lemma SellTradesNothing(e: Engine, m: Inbound, p: Price, x: Quantity)
    requires IsNewEngine(e) && LimitOrder(m, Sell, p, x)
    ensures Add(e.book, OrderOf(e, m)).trades == []
  {
    AddWithoutCross(e.book, OrderOf(e, m));
  }

  /** A sell; a buy that fills it; then the sell, which no longer rests, is modified. Nothing
      trades, the feed carries the old trade a second time and the counter counts it again. */
  lemma OldTradeRepublished(e: Engine, sell: Inbound, buy: Inbound, m: Inbound, p: Price, x: Quantity)
    requires IsNewEngine(e) && LimitOrder(sell, Sell, p, x) && LimitOrder(buy, Buy, p, x)
    requires m.ModifyOrder? && m.session == sell.session && m.orderId == 1 && m.newPrice > 0 && m.newQty > 0
    ensures var t := Process(Process(e, sell), buy);
      && Modifies(t, m) && NewTrades(t, m) == [] && HandleModify(t, m).book == t.book
      && |HandleModify(t, m).feed| > |t.feed| + 1
      && t.tradesExecuted == 1 && HandleModify(t, m).tradesExecuted == 2
  {
    hide EngineInv, Process;
    SellFilled(e, sell, buy, p, x);
    var t := Process(Process(e, sell), buy);
    assert Lookup(t.book, 1) == None;
    ModifyFeed(t, m);
    RepublishFrame(t, m.orderId, t.book.trades);
  }

  /** The same modify a second time: two updates with one trade id. */
  lemma SameIdTwice(e: Engine, sell: Inbound, buy: Inbound, m: Inbound, p: Price, x: Quantity)
    requires IsNewEngine(e) && LimitOrder(sell, Sell, p, x) && LimitOrder(buy, Buy, p, x)
    requires m.ModifyOrder? && m.session == sell.session && m.orderId == 1 && m.newPrice > 0 && m.newQty > 0
    ensures var f := HandleModify(HandleModify(Process(Process(e, sell), buy), m), m);
      exists i, j :: 0 <= i < j < |f.feed| && IsUpdate(f.feed[i], f.nextTradeId) && IsUpdate(f.feed[j], f.nextTradeId)
  {
    hide EngineInv, Process, HandleModify;
    SellFilled(e, sell, buy, p, x);
    var t := Process(Process(e, sell), buy);
    var u := HandleModify(t, m);
    IdleAgain(t, m);
    IdleAgain(u, m);
    var f := HandleModify(u, m);
    assert f.feed[|t.feed|] == u.feed[|t.feed|];
    assert IsUpdate(f.feed[|t.feed|], f.nextTradeId) && IsUpdate(f.feed[|u.feed|], f.nextTradeId);
  }

  /** A modify of an order that does not rest, with one trade in the log. */
  lemma IdleAgain(t: Engine, m: Inbound)
    requires Modifies(t, m) && t.book.bids == t.book.asks == [] && |t.book.trades| == 1
    ensures var u := HandleModify(t, m);
      && u.book == t.book && u.orderToSession == t.orderToSession && u.nextTradeId == t.nextTradeId
      && t.feed <= u.feed && |u.feed| == |t.feed| + 2 && IsUpdate(u.feed[|t.feed|], t.nextTradeId)
  {
    assert Lookup(t.book, m.orderId) == None;
    var ts, u := t.book.trades, HandleModify(t, m);
    ModifyFeed(t, m);
    ModifyTail(t, m);
    RepublishFrame(t, m.orderId, ts);
    var side := if ts[0].buyId == m.orderId then Buy else Sell;
    assert u.feed[|t.feed| + 0] == TradeUpdate(t.nextTradeId, ts[0].price, ts[0].quantity, side);
  }

  /** A sell; a buy that fills it; then the sell, which no longer rests, is cancelled. The
      cancel is acknowledged and no book changes. */
  lemma FilledOrderCancelled(e: Engine, sell: Inbound, buy: Inbound, m: Inbound, p: Price, x: Quantity)
    requires IsNewEngine(e) && LimitOrder(sell, Sell, p, x) && LimitOrder(buy, Buy, p, x)
    requires m.CancelOrder? && m.session == sell.session && m.orderId == 1
    ensures var t := Process(Process(e, sell), buy);
      && EngineInv(t) && MayTouch(t, m.session, 1) && t.book.bids == t.book.asks == []
      && HandleCancel(t, m).book == t.book
      && HandleCancel(t, m).sent == t.sent + [CancelAck(m.session, m.clientId, 1)]
  {
    hide EngineInv, Process, HandleCancel;
    SellFilled(e, sell, buy, p, x);
    var t := Process(Process(e, sell), buy);
    EmptyIsUnindexed(t);
    CancelDoesNothingIff(t, m);
  }

  lemma EmptyIsUnindexed(e: Engine)
    requires EngineInv(e) && e.book.bids == e.book.asks == []
    ensures e.book.index == {}
  {
  }

  /** A sell of 2; a buy of 1 at its price. The seller is told that nothing is left, and 1 is. */
  lemma WrongLeaves(e: Engine, sell: Inbound, buy: Inbound, p: Price)
    requires IsNewEngine(e) && LimitOrder(sell, Sell, p, 2) && LimitOrder(buy, Buy, p, 1)
    ensures var f := Process(e, sell);
      var g := Accept(f, buy.clientId, OrderOf(f, buy));
      && |g.sent| >= |f.sent| + 2
      && g.sent[|f.sent| + 1].ExecutionReport? && g.sent[|f.sent| + 1].orderId == 1
      && g.sent[|f.sent| + 1].leaves != QtyOf(g.book, 1)
  {
    hide EngineInv, Process, Add, Accept, QtyOf;
    var f := Process(e, sell);
    SellRests(e, sell, p, 2);
    var o := OrderOf(f, buy);
    OneTradeOfOne(f.book, o);
    Entered(f, buy, Buy, p, 1);
    LeavesRightIff(f, buy.clientId, o, 0);
  }

  lemma OneTradeOfOne(s: Book, o: Ord)
    requires |s.asks| == 1 && s.asks[0].id == 1 && s.asks[0].qty == 2
    requires o.side == Buy && o.otype == Limit && o.price == s.asks[0].price && o.qty == 1
    ensures |Add(s, o).trades| == 1 && Passive(o, Add(s, o).trades[0]) == 1
    ensures Sum(Contra(s, o.side)[..1]) == 2
  {
    var q := s.asks;
    StepTrades(s, o);
    assert q[..1] == q && q[1..] == [];
  }
}
