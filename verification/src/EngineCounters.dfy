/** The trade ids on the feed and the trade counter, over runs of messages and disconnects. */
module EngineCounters {
  import opened Types
  import opened Matching
  import opened Book
  import opened BookRuns
  import opened BookLaws
  import opened Engine
  import opened EngineRuns
  import opened EngineBooks
  import opened EngineMessages
  import opened EngineAnswers
  import opened EngineSessions

  /** The trade updates an event puts on the feed. */
  ghost function Published(e: Engine, ev: Event): nat {
    match ev
    case Disconnect(_, _) => 0
    case Message(m) =>
      match OpOf(e, m)
      case Some(AddOp(o)) => |Add(e.book, o).trades|
      case Some(ModifyOp(id, p, x)) => |Modify(e.book, id, p, x).trades|
      case _ => 0
  }

  ghost predicate ByModify(e: Engine, ev: Event) {
    ev.Message? && OpOf(e, ev.msg).Some? && OpOf(e, ev.msg).value.ModifyOp?
  }

  /** An accepted modify that takes no effect: the order does not rest, or nothing changes. */
  ghost predicate IdleModify(e: Engine, ev: Event) {
    ByModify(e, ev) && Incoming(e.book, OpOf(e, ev.msg).value).None?
  }

  /** The trades an event makes, and those it publishes again from an earlier event. */
  ghost function Made(e: Engine, ev: Event): nat {
    if IdleModify(e, ev) then 0 else Published(e, ev)
  }

  ghost function Recounted(e: Engine, ev: Event): nat {
    if IdleModify(e, ev) then |e.book.trades| else 0
  }

  lemma MadeOrRecounted(e: Engine, ev: Event)
    ensures Published(e, ev) == Made(e, ev) + Recounted(e, ev)
  {
    if IdleModify(e, ev) {
      StepIncoming(e.book, OpOf(e, ev.msg).value);
    }
  }

  // ---------------------------------------------------------------- ids on the feed

  /** The trade ids of the updates on the feed. */
  function UpdateIds(feed: seq<MarketData>): seq<OrderId> {
    if feed == [] then []
    else
      var n := |feed| - 1;
      UpdateIds(feed[..n]) + if feed[n].TradeUpdate? then [feed[n].tradeId] else []
  }

  /** New orders draw two ids per trade, modifies none. */
  ghost function IdsOf(e: Engine, ev: Event): seq<OrderId> {
    seq(Published(e, ev), i requires 0 <= i => if ByModify(e, ev) then e.nextTradeId else Wrap64(e.nextTradeId + 2 * i))
  }

  predicate IsUpdate(d: MarketData, id: OrderId) {
    d.TradeUpdate? && d.tradeId == id
  }

  /** Updates with the given ids and then something that is not an update. */
  ghost predicate Adds(feed: seq<MarketData>, after: seq<MarketData>, ids: seq<OrderId>) {
    && feed <= after && |after| == |feed| + |ids| + 1 && !after[|after| - 1].TradeUpdate?
    && (forall i :: 0 <= i < |ids| ==> IsUpdate(after[|feed| + i], ids[i]))
  }

  lemma {:induction false} AddsIds(feed: seq<MarketData>, after: seq<MarketData>, ids: seq<OrderId>)
    requires Adds(feed, after, ids)
    ensures UpdateIds(after) == UpdateIds(feed) + ids
  {
    var n := |after| - 1;
    UpdatesIds(feed, after[..n], ids);
  }

  lemma {:induction false} UpdatesIds(feed: seq<MarketData>, after: seq<MarketData>, ids: seq<OrderId>)
    requires feed <= after && |after| == |feed| + |ids|
    requires forall i :: 0 <= i < |ids| ==> IsUpdate(after[|feed| + i], ids[i])
    ensures UpdateIds(after) == UpdateIds(feed) + ids
    decreases |ids|
  {
    if ids == [] {
      assert after == feed;
    } else {
      var n, before := |ids| - 1, after[..|after| - 1];
      forall i | 0 <= i < n ensures IsUpdate(before[|feed| + i], ids[..n][i]) {
        assert IsUpdate(after[|feed| + i], ids[i]);
      }
      UpdatesIds(feed, before, ids[..n]);
      assert IsUpdate(after[|feed| + n], ids[n]);
      assert ids == ids[..n] + [ids[n]];
    }
  }

  /** What an event adds to the feed, and what it does to the two counters. */
  ghost predicate Counted(e: Engine, ev: Event, f: Engine) {
    && UpdateIds(f.feed) == UpdateIds(e.feed) + IdsOf(e, ev)
    && f.nextTradeId == (if ByModify(e, ev) then e.nextTradeId else Wrap64(e.nextTradeId + 2 * Published(e, ev)))
    && f.tradesExecuted == Wrap64(e.tradesExecuted + Published(e, ev))
  }

  lemma WrapNothing(n: OrderId)
    ensures Wrap64(n) == n
  {
  }

  lemma NothingCounted(e: Engine, ev: Event, f: Engine)
    requires Published(e, ev) == 0
    requires f.nextTradeId == e.nextTradeId && f.tradesExecuted == e.tradesExecuted
    requires f.feed == e.feed || (|f.feed| == |e.feed| + 1 && e.feed <= f.feed && f.feed[|e.feed|].Tick?)
    ensures Counted(e, ev, f)
  {
    WrapNothing(e.nextTradeId);
    WrapNothing(e.tradesExecuted);
    assert IdsOf(e, ev) == [];
    if f.feed != e.feed {
      AddsIds(e.feed, f.feed, []);
    }
  }

  lemma AcceptCounts(e: Engine, c: ClientOrderId, o: Ord)
    requires EngineInv(e) && o.id == e.nextOrderId && o.id + 1 < TWO_64
    requires Refusal(o.side, o.otype, o.price, o.qty).None?
    ensures var f, k := Accept(e, c, o), |Add(e.book, o).trades|;
      f.nextTradeId == Wrap64(e.nextTradeId + 2 * k) && f.tradesExecuted == Wrap64(e.tradesExecuted + k)
  {
    hide EngineInv, Add, Outcome, ReportTrades, Shown, Refusal;
    var e1, done, ts := Booked(e, c, o), Outcome(e.book, o), Add(e.book, o).trades;
    NewOrderReports(e, c, o);
    BookedInv(e, c, o);
    SameSide(e.book, o);
    forall i | 0 <= i < |ts| ensures Passive(done, ts[i]) in e1.orderToSession {
      assert Passive(o, ts[i]) in e.orderToSession;
    }
    ReportTradesAll(e1, done, ts);
  }

  lemma SameSide(s: Book, o: Ord)
    ensures Outcome(s, o).side == o.side
  {
  }

  lemma AcceptCounted(e: Engine, m: Inbound)
    requires EngineInv(e) && e.nextOrderId + 1 < TWO_64 && m.NewOrder? && OpOf(e, m).Some?
    ensures Counted(e, Message(m), Process(e, m))
  {
    hide EngineInv, Accept, Add, Outcome, Shown, Wrap64;
    var e0, o := e.(ordersProcessed := Wrap64(e.ordersProcessed + 1)), OrderOf(e, m);
    SameBooksInv(e, e0);
    AcceptCounts(e0, m.clientId, o);
    NewOrderTick(e0, m.clientId, o);
    NewOrderReports(e0, m.clientId, o);
    var f, done, ts := Accept(e0, m.clientId, o), Outcome(e.book, o), Add(e.book, o).trades;
    SameSide(e.book, o);
    forall i | 0 <= i < |ts| ensures Passive(done, ts[i]) in e0.orderToSession && ReportedAt(e0, f, done, ts[i], i) {
      assert Passive(o, ts[i]) in e0.orderToSession;
    }
    UpdatesOfAccept(e0, f, o, Outcome(e.book, o), Add(e.book, o).trades, IdsOf(e, Message(m)));
  }

  lemma UpdatesOfAccept(e: Engine, f: Engine, o: Ord, done: Ord, ts: seq<Trade>, ids: seq<OrderId>)
    requires |ids| == |ts| && forall i :: 0 <= i < |ids| ==> ids[i] == Wrap64(e.nextTradeId + 2 * i)
    requires e.feed <= f.feed && |f.feed| == |e.feed| + |ts| + 1
    requires f.feed[|f.feed| - 1] == PublishTick(f).feed[|f.feed|]
    requires forall i :: 0 <= i < |ts| ==> Passive(done, ts[i]) in e.orderToSession && ReportedAt(e, f, done, ts[i], i)
    ensures UpdateIds(f.feed) == UpdateIds(e.feed) + ids
  {
    forall i | 0 <= i < |ids| ensures IsUpdate(f.feed[|e.feed| + i], ids[i]) {
      assert ReportedAt(e, f, done, ts[i], i);
    }
    assert PublishTick(f).feed[|f.feed|].Tick?;
    AddsIds(e.feed, f.feed, ids);
  }

  lemma ModifyCounted(e: Engine, m: Inbound)
    requires Modifies(e, m)
    ensures Counted(e, Message(m), Process(e, m))
  {
    hide Modify, Shown, Wrap64;
    var f, ts := HandleModify(e, m), Modify(e.book, m.orderId, m.newPrice, m.newQty).trades;
    var ids := IdsOf(e, Message(m));
    ModifyFeed(e, m);
    ModifyTail(e, m);
    forall i | 0 <= i < |ids| ensures IsUpdate(f.feed[|e.feed| + i], ids[i]) {
      var side := if ts[i].buyId == m.orderId then Buy else Sell;
      assert f.feed[|e.feed| + i] == TradeUpdate(e.nextTradeId, ts[i].price, ts[i].quantity, side);
    }
    AddsIds(e.feed, f.feed, ids);
  }

  lemma ModifyTail(e: Engine, m: Inbound)
    requires Modifies(e, m)
    ensures var f := HandleModify(e, m);
      f.nextTradeId == e.nextTradeId && f.feed != [] && f.feed[|f.feed| - 1].Tick?
  {
    hide Modify, Shown;
    var after := Modify(e.book, m.orderId, m.newPrice, m.newQty);
    RepublishAll(e.(book := after), m.orderId, after.trades);
  }

  lemma MessageCounted(e: Engine, m: Inbound)
    requires EngineInv(e) && e.nextOrderId + 1 < TWO_64
    ensures Counted(e, Message(m), Process(e, m))
  {
    hide EngineInv, Counted, Accept, Modify, Shown;
    match m
    case NewOrder(_, _, _, _, _, _) =>
      if OpOf(e, m).Some? { AcceptCounted(e, m); } else { NothingCounted(e, Message(m), Process(e, m)); }
    case CancelOrder(_, _, _) => NothingCounted(e, Message(m), Process(e, m));
    case ModifyOrder(_, _, _, _, _) =>
      if OpOf(e, m).Some? { ModifyCounted(e, m); } else { NothingCounted(e, Message(m), Process(e, m)); }
    case OtherMessage => NothingCounted(e, Message(m), Process(e, m));
  }

  lemma EventCounted(e: Engine, ev: Event)
    requires EngineInv(e) && e.nextOrderId + 1 < TWO_64
    ensures Counted(e, ev, After(e, ev))
  {
    hide EngineInv, Counted, Process, Shown, DropOrders;
    match ev
    case Message(m) => MessageCounted(e, m);
    case Disconnect(session, ids) =>
      DropOrdersIs(e, ids);
      NothingCounted(e, ev, CancelSession(e, session, ids));
  }

  // ---------------------------------------------------------------- the trade counter

  ghost function AllMade(e: Engine, evs: seq<Event>): nat
    decreases |evs|
  {
    if evs == [] then 0 else Made(e, evs[0]) + AllMade(After(e, evs[0]), evs[1..])
  }

  ghost function AllRecounted(e: Engine, evs: seq<Event>): nat
    decreases |evs|
  {
    if evs == [] then 0 else Recounted(e, evs[0]) + AllRecounted(After(e, evs[0]), evs[1..])
  }

  /** Whenever an accepted modify takes no effect the trade log is empty. */
  ghost predicate NoIdleModifyMeetsTrades(e: Engine, evs: seq<Event>)
    decreases |evs|
  {
    evs != [] ==>
      && (IdleModify(e, evs[0]) ==> e.book.trades == [])
      && NoIdleModifyMeetsTrades(After(e, evs[0]), evs[1..])
  }

  lemma {:induction false} RecountedIff(e: Engine, evs: seq<Event>)
    ensures AllRecounted(e, evs) == 0 <==> NoIdleModifyMeetsTrades(e, evs)
    decreases |evs|
  {
    hide After, IdleModify;
    if evs != [] {
      RecountedIff(After(e, evs[0]), evs[1..]);
    }
  }

  lemma WrapSum(n: OrderId, a: nat, b: nat)
    ensures Wrap64(Wrap64(n + a) + b) == Wrap64(n + a + b)
  {
  }

  /** The counter counts the trades made and, again, those of the log that a modify without
      effect finds. */
  lemma {:induction false} CounterOverRun(e: Engine, evs: seq<Event>)
    requires EngineInv(e) && LegalEvents(e, evs) && e.nextOrderId + |evs| < TWO_64
    ensures AfterAll(e, evs).tradesExecuted == Wrap64(e.tradesExecuted + (AllMade(e, evs) + AllRecounted(e, evs)))
    decreases |evs|
  {
    hide EngineInv, After, LegalEvent, Published, Made, Recounted, Wrap64;
    if evs == [] {
      WrapNothing(e.tradesExecuted);
    } else {
      var f := After(e, evs[0]);
      EventInv(e, evs[0]);
      EventCounted(e, evs[0]);
      MadeOrRecounted(e, evs[0]);
      CounterOverRun(f, evs[1..]);
      WrapSum(e.tradesExecuted, Published(e, evs[0]), AllMade(f, evs[1..]) + AllRecounted(f, evs[1..]));
    }
  }

  lemma WrapMovesIff(n: OrderId, a: nat, b: nat)
    ensures Wrap64(n + (a + b)) == Wrap64(n + a) <==> b % 0x1_0000_0000_0000_0000 == 0
  {
  }

  /** Over a run the counter, modulo 2^64, is the number of trades made if and only if what was
      counted again is a multiple of 2^64; below 2^64, if and only if every accepted modify
      without effect meets an empty trade log. */
  lemma CounterRightIff(e: Engine, evs: seq<Event>)
    requires EngineInv(e) && LegalEvents(e, evs) && e.nextOrderId + |evs| < TWO_64
    ensures var right := AfterAll(e, evs).tradesExecuted == Wrap64(e.tradesExecuted + AllMade(e, evs));
      && (right <==> AllRecounted(e, evs) % 0x1_0000_0000_0000_0000 == 0)
      && (AllRecounted(e, evs) < TWO_64 ==> (right <==> NoIdleModifyMeetsTrades(e, evs)))
  {
    hide EngineInv, LegalEvents, AfterAll, AllMade, AllRecounted, NoIdleModifyMeetsTrades, Wrap64;
    CounterOverRun(e, evs);
    RecountedIff(e, evs);
    WrapMovesIff(e.tradesExecuted, AllMade(e, evs), AllRecounted(e, evs));
  }

  // ---------------------------------------------------------------- the order counter

  function Requests(evs: seq<Event>): nat {
    if evs == [] then 0
    else (if evs[0].Message? && evs[0].msg.NewOrder? then 1 else 0) + Requests(evs[1..])
  }

  /** ordersProcessed grows, modulo 2^64, by the requests for new orders. */
  lemma {:induction false} RequestsOverRun(e: Engine, evs: seq<Event>)
    ensures AfterAll(e, evs).ordersProcessed == Wrap64(e.ordersProcessed + Requests(evs))
    decreases |evs|
  {
    hide Process, CancelSession, CancelAll, Wrap64;
    if evs == [] {
      WrapNothing(e.ordersProcessed);
    } else {
      var f := After(e, evs[0]);
      match evs[0] {
        case Message(m) => RequestsCounted(e, m);
        case Disconnect(session, ids) => DisconnectAnswered(e, session, ids);
      }
      WrapNothing(e.ordersProcessed);
      RequestsOverRun(f, evs[1..]);
      WrapSum(e.ordersProcessed, Requests(evs) - Requests(evs[1..]), Requests(evs[1..]));
    }
  }

  // ---------------------------------------------------------------- distinct ids

  ghost function AllIds(e: Engine, evs: seq<Event>): seq<OrderId>
    decreases |evs|
  {
    if evs == [] then [] else IdsOf(e, evs[0]) + AllIds(After(e, evs[0]), evs[1..])
  }

  /** For each update, whether a modify published it. */
  ghost function Sources(e: Engine, evs: seq<Event>): seq<bool>
    decreases |evs|
  {
    if evs == [] then []
    else
      var modified := ByModify(e, evs[0]);
      seq(Published(e, evs[0]), _ => modified) + Sources(After(e, evs[0]), evs[1..])
  }

  ghost function Drawn(e: Engine, evs: seq<Event>): nat
    decreases |evs|
  {
    if evs == [] then 0
    else (if ByModify(e, evs[0]) then 0 else 2 * Published(e, evs[0])) + Drawn(After(e, evs[0]), evs[1..])
  }

  lemma {:induction false} RunIds(e: Engine, evs: seq<Event>)
    requires EngineInv(e) && LegalEvents(e, evs) && e.nextOrderId + |evs| < TWO_64
    ensures UpdateIds(AfterAll(e, evs).feed) == UpdateIds(e.feed) + AllIds(e, evs)
    ensures |AllIds(e, evs)| == |Sources(e, evs)|
    decreases |evs|
  {
    hide EngineInv, After, LegalEvent, Published, ByModify, UpdateIds;
    if evs != [] {
      EventInv(e, evs[0]);
      EventCounted(e, evs[0]);
      RunIds(After(e, evs[0]), evs[1..]);
    }
  }

  /** Later ids are no smaller, and the next one published is the next one to be drawn. */
  lemma {:induction false} IdsFrom(e: Engine, evs: seq<Event>)
    requires EngineInv(e) && LegalEvents(e, evs) && e.nextOrderId + |evs| < TWO_64
    requires e.nextTradeId + Drawn(e, evs) < TWO_64
    ensures forall id :: id in AllIds(e, evs) ==> id >= e.nextTradeId
    ensures AllIds(e, evs) != [] ==> AllIds(e, evs)[0] == e.nextTradeId
    decreases |evs|
  {
    hide EngineInv, After, LegalEvent, Published, ByModify, UpdateIds, IdsOf, Wrap64;
    if evs != [] {
      var f := After(e, evs[0]);
      EventInv(e, evs[0]);
      EventCounted(e, evs[0]);
      OwnIds(e, evs[0]);
      IdsFrom(f, evs[1..]);
      IdsJoin(e.nextTradeId, f.nextTradeId, IdsOf(e, evs[0]), AllIds(f, evs[1..]));
    }
  }

  lemma OwnIds(e: Engine, ev: Event)
    requires ByModify(e, ev) || e.nextTradeId + 2 * Published(e, ev) < TWO_64
    ensures forall id :: id in IdsOf(e, ev) ==> id >= e.nextTradeId
    ensures IdsOf(e, ev) != [] ==> IdsOf(e, ev)[0] == e.nextTradeId
    ensures |IdsOf(e, ev)| == Published(e, ev)
    ensures ByModify(e, ev) || Wrap64(e.nextTradeId + 2 * Published(e, ev)) == e.nextTradeId + 2 * Published(e, ev)
  {
    hide ByModify, Published;
    forall i | 0 <= i < Published(e, ev) ensures IdsOf(e, ev)[i] >= e.nextTradeId {}
  }

  lemma IdsJoin(n: OrderId, next: OrderId, a: seq<OrderId>, b: seq<OrderId>)
    requires n <= next && (a == [] ==> next == n)
    requires (forall id :: id in a ==> id >= n) && (a != [] ==> a[0] == n)
    requires (forall id :: id in b ==> id >= next) && (b != [] ==> b[0] == next)
    ensures (forall id :: id in a + b ==> id >= n) && (a + b != [] ==> (a + b)[0] == n)
  {
  }

  ghost predicate Distinct(ids: seq<OrderId>) {
    forall i, j :: 0 <= i < j < |ids| ==> ids[i] != ids[j]
  }

  /** Only the last update may come from a modify. */
  ghost predicate ModifyOnlyLast(sources: seq<bool>) {
    forall i :: 0 <= i < |sources| - 1 ==> !sources[i]
  }

  lemma NewOrderIds(n: OrderId, k: nat, a: seq<OrderId>, b: seq<OrderId>)
    requires |a| == k && n + 2 * k < TWO_64 && forall i :: 0 <= i < k ==> a[i] == Wrap64(n + 2 * i)
    requires forall id :: id in b ==> id >= n + 2 * k
    ensures Distinct(a + b) <==> Distinct(b)
  {
    assert forall i :: 0 <= i < k ==> a[i] == n + 2 * i;
    var c := a + b;
    if Distinct(c) {
      forall i, j | 0 <= i < j < |b| ensures b[i] != b[j] {
        assert c[k + i] == b[i] && c[k + j] == b[j];
      }
    }
    if Distinct(b) {
      forall i, j | 0 <= i < j < |c| ensures c[i] != c[j] {
        if j >= k {
          assert c[j] == b[j - k] && b[j - k] in b;
        }
      }
    }
  }

  lemma NewOrderSources(a: seq<bool>, b: seq<bool>)
    requires forall i :: 0 <= i < |a| ==> !a[i]
    ensures ModifyOnlyLast(a + b) <==> ModifyOnlyLast(b)
  {
    var c := a + b;
    if ModifyOnlyLast(c) {
      forall i | 0 <= i < |b| - 1 ensures !b[i] {
        assert c[|a| + i] == b[i];
      }
    }
  }

  lemma ModifyIds(n: OrderId, k: nat, a: seq<OrderId>, b: seq<OrderId>, sa: seq<bool>, sb: seq<bool>)
    requires k > 0 && |a| == |sa| == k && |b| == |sb|
    requires (forall i :: 0 <= i < k ==> a[i] == n && sa[i]) && (b != [] ==> b[0] == n)
    ensures Distinct(a + b) <==> ModifyOnlyLast(sa + sb)
  {
    var c, s := a + b, sa + sb;
    assert c[0] == n && s[0];
    if |c| > 1 {
      assert c[1] == n;
    }
  }

  /** The trade ids of the updates published along a run are distinct if and only if every one of
      them but the last comes from a new order: modifies publish without drawing an id. */
  lemma {:induction false} DistinctIff(e: Engine, evs: seq<Event>)
    requires EngineInv(e) && LegalEvents(e, evs) && e.nextOrderId + |evs| < TWO_64
    requires e.nextTradeId + Drawn(e, evs) < TWO_64
    ensures Distinct(AllIds(e, evs)) <==> ModifyOnlyLast(Sources(e, evs))
    decreases |evs|
  {
    hide EngineInv, After, LegalEvent, Published, ByModify, UpdateIds, Distinct, ModifyOnlyLast;
    if evs == [] {
      NoUpdates(AllIds(e, evs), Sources(e, evs));
    } else {
      var ev, f, rest := evs[0], After(e, evs[0]), evs[1..];
      EventInv(e, ev);
      EventCounted(e, ev);
      DistinctIff(f, rest);
      IdsFrom(f, rest);
      RunIds(f, rest);
      var a, sa := IdsOf(e, ev), Sources(e, evs)[..Published(e, ev)];
      assert Sources(e, evs) == sa + Sources(f, rest);
      if ByModify(e, ev) && Published(e, ev) > 0 {
        ModifyIds(e.nextTradeId, Published(e, ev), a, AllIds(f, rest), sa, Sources(f, rest));
      } else if Published(e, ev) == 0 {
        assert a + AllIds(f, rest) == AllIds(f, rest) && sa + Sources(f, rest) == Sources(f, rest);
      } else {
        SmallWrap(e.nextTradeId, 2 * Published(e, ev));
        NewOrderIds(e.nextTradeId, Published(e, ev), a, AllIds(f, rest));
        NewOrderSources(sa, Sources(f, rest));
      }
    }
  }

  lemma SmallWrap(n: OrderId, k: nat)
    requires n + k < TWO_64
    ensures Wrap64(n + k) == n + k
  {
  }

  lemma NoUpdates(ids: seq<OrderId>, sources: seq<bool>)
    requires ids == [] && sources == []
    ensures Distinct(ids) && ModifyOnlyLast(sources)
  {
  }
}
