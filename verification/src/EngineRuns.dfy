/** What the engine keeps over whole runs of messages, and what each message emits. */
module EngineRuns {
  import opened Types
  import opened OrderQueue
  import opened Matching
  import opened Book
  import opened BookRuns
  import opened BookLaws
  import opened Engine

  // ---------------------------------------------------------------- invariant

  /** sessionOrders_ and orderToSession_ are inverse, orderToClientOrderId_ has the same
      domain, and every tracked id has been handed out. */
  ghost predicate Tracking(e: Engine) {
    && (forall s, id :: s in e.sessionOrders && id in e.sessionOrders[s] ==>
          id in e.orderToSession && e.orderToSession[id] == s)
    && (forall id :: id in e.orderToSession ==> id in SessionIds(e.sessionOrders, e.orderToSession[id]))
    && e.orderToClient.Keys == e.orderToSession.Keys
    && (forall id :: id in e.orderToSession ==> 0 < id < e.nextOrderId)
  }

  /** Every resting order is a LIMIT order at a positive price, tracked to the session that
      sent it. */
  ghost predicate RestingOk(b: Book, orderToSession: map<OrderId, SessionId>) {
    forall a :: RestsIn(b, a) ==>
      a.otype == Limit && a.price > 0 && a.id in orderToSession && orderToSession[a.id] == a.session
  }

  ghost predicate EngineInv(e: Engine) {
    Inv(e.book) && Tracking(e) && RestingOk(e.book, e.orderToSession) && e.nextOrderId > 0
  }

  /** The engine as constructed. */
  ghost predicate IsNewEngine(e: Engine) {
    && IsNew(e.book) && e.nextOrderId == e.nextTradeId == 1
    && e.sessionOrders == map[] && e.orderToSession == map[] && e.orderToClient == map[]
    && e.lastPrice == 0 && e.lastQty == 0 && e.ordersProcessed == e.tradesExecuted == 0 && e.sent == [] && e.feed == []
  }

  lemma NewEngineInv(e: Engine)
    requires IsNewEngine(e)
    ensures EngineInv(e)
  {
    NewInv(e.book);
  }

  // ---------------------------------------------------------------- frames

  /** Sending changes neither the book nor the tracking. */
  ghost predicate SameBooks(e: Engine, f: Engine) {
    && e.book == f.book && e.nextOrderId == f.nextOrderId
    && e.sessionOrders == f.sessionOrders && e.orderToSession == f.orderToSession && e.orderToClient == f.orderToClient
  }

  lemma {:induction false} ReportTradesFrame(e: Engine, o: Ord, ts: seq<Trade>)
    ensures SameBooks(e, ReportTrades(e, o, ts))
    decreases |ts|
  {
    if ts != [] {
      ReportTradesFrame(ReportTrade(e, o, ts[0]), o, ts[1..]);
    }
  }

  lemma {:induction false} RepublishFrame(e: Engine, id: OrderId, ts: seq<Trade>)
    ensures SameBooks(e, RepublishTrades(e, id, ts)) && RepublishTrades(e, id, ts).sent == e.sent
    decreases |ts|
  {
    if ts != [] {
      RepublishFrame(PublishTrade(e, ts[0], if ts[0].buyId == id then Buy else Sell), id, ts[1..]);
    }
  }

  // ---------------------------------------------------------------- tracking

  lemma TrackKeeps(e: Engine, s: SessionId, id: OrderId, c: ClientOrderId)
    requires Tracking(e) && id == e.nextOrderId && 0 < id && id + 1 < TWO_64
    ensures Tracking(Track(e.(nextOrderId := Wrap64(id + 1)), s, id, c))
  {
    var t := Track(e.(nextOrderId := Wrap64(id + 1)), s, id, c);
    forall r, i | r in t.sessionOrders && i in t.sessionOrders[r]
      ensures i in t.orderToSession && t.orderToSession[i] == r
    {
      if !(i == id && r == s) {
        assert r in e.sessionOrders && i in e.sessionOrders[r];
        assert i in e.orderToSession && i < id;
      }
    }
  }

  lemma UntrackKeeps(e: Engine, s: SessionId, id: OrderId)
    requires Tracking(e) && id in e.orderToSession && e.orderToSession[id] == s
    ensures Tracking(Untrack(e, s, id))
  {
    var t := Untrack(e, s, id);
    forall r, i | r in t.sessionOrders && i in t.sessionOrders[r]
      ensures i in t.orderToSession && t.orderToSession[i] == r
    {
      assert r in e.sessionOrders || r == s;
      assert i in SessionIds(e.sessionOrders, r);
    }
    forall i | i in t.orderToSession ensures i in SessionIds(t.sessionOrders, t.orderToSession[i]) {
      assert i in e.orderToSession && i in SessionIds(e.sessionOrders, e.orderToSession[i]);
    }
  }

  // ---------------------------------------------------------------- where resting orders come from

  /** After an add, whatever rests is what rested before, less what it traded, or the order
      itself. */
  lemma AddOrigin(s: Book, o: Ord, b: Ord) returns (a: Ord)
    requires Inv(s.(index := s.index - {o.id})) && o.side != NoSide
    requires RestsIn(Add(s, o), b)
    ensures (b == Outcome(s, o) && Rests(o, b.qty)) || (RestsIn(s, a) && Remainder(b, a))
  {
    AddSides(s, o);
    InvSided(s.(index := s.index - {o.id}), o.side);
    InsertMembers(Own(s, o.side), Outcome(s, o));
    var q := Contra(s, o.side);
    a := b;
    if b in Match(o, q, o.qty).rest {
      MatchLeavesSuffix(o, q, o.qty);
      a := LeftoverFrom(Match(o, q, o.qty).rest, q, b);
    }
  }

  lemma AddRestingOk(s: Book, o: Ord, m: map<OrderId, SessionId>)
    requires Inv(s.(index := s.index - {o.id})) && o.side != NoSide && RestingOk(s, m)
    requires o.otype == Limit ==> o.price > 0
    requires Rests(o, o.qty) ==> o.otype == Limit && o.id in m && m[o.id] == o.session
    ensures RestingOk(Add(s, o), m)
  {
    forall b | RestsIn(Add(s, o), b)
      ensures b.otype == Limit && b.price > 0 && b.id in m && m[b.id] == b.session
    {
      var a := AddOrigin(s, o, b);
      MatchConserves(o, Contra(s, o.side), o.qty);
    }
  }

  lemma CancelRestingOk(s: Book, id: OrderId, m: map<OrderId, SessionId>)
    requires Inv(s) && RestingOk(s, m)
    ensures RestingOk(Cancel(s, id), m - {id})
  {
    LookupIn(s, id);
    forall b | RestsIn(Cancel(s, id), b) ensures RestsIn(s, b) && b.id != id {
      if Lookup(s, id).Some? {
        WithdrawMembers(s, Lookup(s, id).value, b);
      } else {
        assert b.id in Ids(s.bids) + Ids(s.asks);
      }
    }
  }

  lemma ModifyRestingOk(s: Book, id: OrderId, p: Price, x: Quantity, m: map<OrderId, SessionId>)
    requires Inv(s) && RestingOk(s, m) && p > 0
    ensures RestingOk(Modify(s, id, p, x), m)
  {
    LookupIn(s, id);
    if Lookup(s, id).Some? {
      var o := Lookup(s, id).value;
      WithdrawInv(s, o);
      assert RestsIn(s, o);
      forall b | RestsIn(Withdraw(s, o), b) ensures RestsIn(s, b) {
        WithdrawMembers(s, o, b);
      }
      if !(o.price == p && o.qty == x) {
        AddRestingOk(Withdraw(s, o), o.(price := p, qty := x, status := Modified), m);
      }
    }
  }

  lemma RestingIndexed(b: Book, m: map<OrderId, SessionId>)
    requires Inv(b) && RestingOk(b, m)
    ensures b.index <= m.Keys
  {
    forall id | id in b.index ensures id in m {
      LookupIn(b, id);
      assert RestsIn(b, Lookup(b, id).value);
    }
  }

  // ---------------------------------------------------------------- handlers keep the invariant

  lemma BookedBookInv(e: Engine, o: Ord)
    requires EngineInv(e) && o.id == e.nextOrderId && Refusal(o.side, o.otype, o.price, o.qty).None?
    ensures o.id !in e.book.index && Inv(Add(e.book, o))
    ensures RestingOk(Add(e.book, o), e.orderToSession[o.id := o.session])
  {
    hide Inv, Add;
    RestingIndexed(e.book, e.orderToSession);
    assert o.id !in e.book.index;
    assert e.book.(index := e.book.index - {o.id}) == e.book;
    AddFreshInvIff(e.book, o);
    AddRestingOk(e.book, o, e.orderToSession[o.id := o.session]);
  }

  lemma BookedInv(e: Engine, c: ClientOrderId, o: Ord)
    requires EngineInv(e) && o.id == e.nextOrderId && o.id + 1 < TWO_64
    requires Refusal(o.side, o.otype, o.price, o.qty).None?
    ensures EngineInv(Booked(e, c, o)) && o.id !in e.book.index
    ensures Booked(e, c, o).orderToSession == e.orderToSession[o.id := o.session]
  {
    hide Inv, Add, Tracking, RestingOk;
    BookedBookInv(e, o);
    TrackKeeps(e, o.session, o.id, c);
    TrackingFrame(Track(e.(nextOrderId := Wrap64(e.nextOrderId + 1)), o.session, o.id, c), Booked(e, c, o));
  }

  /** An order that came to an end at once does not rest. */
  lemma FinishedNotResting(s: Book, o: Ord)
    requires Inv(s) && o.side != NoSide && o.id !in s.index && Finished(Outcome(s, o))
    ensures o.id !in Add(s, o).index
  {
    MatchConserves(o, Contra(s, o.side), o.qty);
  }

  lemma UntrackInv(e: Engine, s: SessionId, id: OrderId)
    requires EngineInv(e) && id in e.orderToSession && e.orderToSession[id] == s && id !in e.book.index
    ensures EngineInv(Untrack(e, s, id))
  {
    UntrackKeeps(e, s, id);
    forall b | RestsIn(e.book, b) ensures b.id != id {
      assert b.id in Ids(e.book.bids) + Ids(e.book.asks);
    }
  }

  lemma SameBooksInv(e: Engine, f: Engine)
    requires SameBooks(e, f)
    ensures EngineInv(e) <==> EngineInv(f)
  {
  }

  lemma AcceptInv(e: Engine, c: ClientOrderId, o: Ord)
    requires EngineInv(e) && o.id == e.nextOrderId && o.id + 1 < TWO_64
    requires Refusal(o.side, o.otype, o.price, o.qty).None?
    ensures EngineInv(Accept(e, c, o)) && Accept(e, c, o).nextOrderId == e.nextOrderId + 1
  {
    hide EngineInv, Add, Outcome, Refusal;
    var e1, done := Booked(e, c, o), Outcome(e.book, o);
    BookedInv(e, c, o);
    ReportTradesFrame(e1, done, e1.book.trades);
    var e2 := ReportTrades(e1, done, e1.book.trades);
    var e3 := Send(e2, OrderAck(o.session, c, o.id, done.status));
    SameBooksInv(e1, e3);
    if Finished(done) {
      FinishedIsUntrackable(e, c, o);
      UntrackInv(e3, o.session, o.id);
      SameBooksInv(Untrack(e3, o.session, o.id), Accept(e, c, o));
    } else {
      SameBooksInv(e3, Accept(e, c, o));
    }
  }

  lemma FinishedIsUntrackable(e: Engine, c: ClientOrderId, o: Ord)
    requires EngineInv(e) && o.id == e.nextOrderId && o.id + 1 < TWO_64
    requires Refusal(o.side, o.otype, o.price, o.qty).None? && Finished(Outcome(e.book, o))
    ensures o.id !in Add(e.book, o).index
  {
    BookedInv(e, c, o);
    FinishedNotResting(e.book, o);
  }

  /** The book's part of a cancel, before the tracking follows. */
  lemma CancelledInv(e: Engine, id: OrderId)
    requires EngineInv(e) && id in e.orderToSession
    ensures EngineInv(e.(book := Cancel(e.book, id))) && id !in Cancel(e.book, id).index
  {
    hide Inv, Cancel, Tracking;
    CancelInv(e.book, id);
    CancelRestingOk(e.book, id, e.orderToSession);
    CancelUnindexes(e.book, id);
    TrackingFrame(e, e.(book := Cancel(e.book, id)));
  }

  lemma CancelUnindexes(s: Book, id: OrderId)
    requires Inv(s)
    ensures id !in Cancel(s, id).index
  {
    LookupIn(s, id);
  }

  lemma TrackingFrame(e: Engine, f: Engine)
    requires e.(book := f.book) == f
    ensures Tracking(e) <==> Tracking(f)
  {
  }

  lemma CancelHandlerInv(e: Engine, m: Inbound)
    requires EngineInv(e) && m.CancelOrder?
    ensures EngineInv(HandleCancel(e, m))
  {
    hide EngineInv, Cancel, Shown;
    if MayTouch(e, m.session, m.orderId) {
      var e1 := e.(book := Cancel(e.book, m.orderId));
      CancelledInv(e, m.orderId);
      UntrackInv(e1, e.orderToSession[m.orderId], m.orderId);
      SameBooksInv(Untrack(e1, e.orderToSession[m.orderId], m.orderId), HandleCancel(e, m));
    } else {
      SameBooksInv(e, HandleCancel(e, m));
    }
  }

  lemma ModifyHandlerInv(e: Engine, m: Inbound)
    requires EngineInv(e) && m.ModifyOrder?
    ensures EngineInv(HandleModify(e, m))
  {
    hide Tracking, RestingOk, Inv, Modify, Shown;
    if MayTouch(e, m.session, m.orderId) && m.newPrice > 0 && m.newQty != 0 {
      var after := Modify(e.book, m.orderId, m.newPrice, m.newQty);
      ModifyInvIff(e.book, m.orderId, m.newPrice, m.newQty);
      ModifyRestingOk(e.book, m.orderId, m.newPrice, m.newQty, e.orderToSession);
      RepublishFrame(e.(book := after), m.orderId, after.trades);
      TrackingFrame(e, e.(book := after));
      SameBooksInv(e.(book := after), HandleModify(e, m));
    } else {
      SameBooksInv(e, HandleModify(e, m));
    }
  }

  lemma NewHandlerInv(e: Engine, m: Inbound)
    requires EngineInv(e) && m.NewOrder? && e.nextOrderId + 1 < TWO_64
    ensures EngineInv(HandleNew(e, m))
    ensures HandleNew(e, m).nextOrderId
         == e.nextOrderId + if Refusal(SideOf(m.sideByte), TypeOf(m.typeByte), m.price, m.qty).None? then 1 else 0
  {
    hide Accept;
    var e0 := e.(ordersProcessed := Wrap64(e.ordersProcessed + 1));
    SameBooksInv(e, e0);
    if Refusal(SideOf(m.sideByte), TypeOf(m.typeByte), m.price, m.qty).None? {
      AcceptInv(e0, m.clientId, OrderOf(e, m));
    } else {
      SameBooksInv(e, HandleNew(e, m));
    }
  }

  lemma ModifyKeepsNextId(e: Engine, m: Inbound)
    requires m.ModifyOrder?
    ensures HandleModify(e, m).nextOrderId == e.nextOrderId
  {
    var after := Modify(e.book, m.orderId, m.newPrice, m.newQty);
    RepublishFrame(e.(book := after), m.orderId, after.trades);
  }

  /** Every message, valid or not, keeps the invariant until the 64-bit order ids run out. */
  lemma ProcessInv(e: Engine, m: Inbound)
    requires EngineInv(e) && e.nextOrderId + 1 < TWO_64
    ensures EngineInv(Process(e, m)) && e.nextOrderId <= Process(e, m).nextOrderId <= e.nextOrderId + 1
  {
    hide EngineInv, HandleNew, HandleModify;
    match m
    case NewOrder(_, _, _, _, _, _) => NewHandlerInv(e, m);
    case CancelOrder(_, _, _) => CancelHandlerInv(e, m);
    case ModifyOrder(_, _, _, _, _) =>
      ModifyHandlerInv(e, m);
      ModifyKeepsNextId(e, m);
    case OtherMessage =>
  }

  ghost function ProcessAll(e: Engine, ms: seq<Inbound>): Engine
    decreases |ms|
  {
    if ms == [] then e else ProcessAll(Process(e, ms[0]), ms[1..])
  }

  /** Over whole runs: each order id tracked belongs to one session and back, everything that
      rests is tracked to its sender, and the book keeps its own invariant. */
  lemma {:induction false} ProcessAllInv(e: Engine, ms: seq<Inbound>)
    requires EngineInv(e) && e.nextOrderId + |ms| < TWO_64
    ensures EngineInv(ProcessAll(e, ms))
    decreases |ms|
  {
    if ms != [] {
      ProcessInv(e, ms[0]);
      ProcessAllInv(Process(e, ms[0]), ms[1..]);
    }
  }
}
