/** Runs in which sessions disconnect between messages: the engine's invariant, its book and
    its ticks over any interleaving of inbound messages and session cancels. */
module EngineSessions {
  import opened Types
  import opened Book
  import opened BookRuns
  import opened BookLaws
  import opened LevelCache
  import opened Engine
  import opened EngineRuns
  import opened EngineBooks
  import opened EngineMessages

  /** `ids` is the disconnecting session's set in the order the hash set yields it. */
  datatype Event = Message(msg: Inbound) | Disconnect(session: SessionId, ids: seq<OrderId>)

  ghost predicate LegalEvent(e: Engine, ev: Event) {
    ev.Disconnect? ==> SetOf(ev.ids) == SessionIds(e.sessionOrders, ev.session)
  }

  ghost function After(e: Engine, ev: Event): Engine {
    match ev
    case Message(m) => Process(e, m)
    case Disconnect(session, ids) => CancelSession(e, session, ids)
  }

  ghost function AfterAll(e: Engine, evs: seq<Event>): Engine
    decreases |evs|
  {
    if evs == [] then e else AfterAll(After(e, evs[0]), evs[1..])
  }

  ghost predicate LegalEvents(e: Engine, evs: seq<Event>)
    decreases |evs|
  {
    evs != [] ==> LegalEvent(e, evs[0]) && LegalEvents(After(e, evs[0]), evs[1..])
  }

  // ---------------------------------------------------------------- invariant

  /** The set kept for a session is exactly what is tracked to it. */
  lemma OwnSetIsExact(e: Engine, session: SessionId, ids: set<OrderId>)
    requires Tracking(e) && ids == SessionIds(e.sessionOrders, session)
    ensures ExactlySessions(e, session, ids)
  {
    forall id | id in e.orderToSession ensures id in ids <==> e.orderToSession[id] == session {
      assert id in SessionIds(e.sessionOrders, e.orderToSession[id]);
    }
  }

  lemma SessionCancelFrame(e: Engine, session: SessionId, ids: seq<OrderId>)
    ensures var f := CancelSession(e, session, ids);
      f.book == CancelAll(e.book, ids) && f.nextOrderId == e.nextOrderId && FeedGrows(e, f)
  {
    hide CancelAll, Shown, DropOrders;
    DropOrdersIs(e, ids);
  }

  lemma EventInv(e: Engine, ev: Event)
    requires EngineInv(e) && LegalEvent(e, ev) && e.nextOrderId + 1 < TWO_64
    ensures EngineInv(After(e, ev)) && e.nextOrderId <= After(e, ev).nextOrderId <= e.nextOrderId + 1
    ensures FeedGrows(e, After(e, ev))
  {
    hide FeedGrows, Tracking, Inv, RestingOk, Process, CancelSession;
    match ev
    case Message(m) =>
      ProcessInv(e, m);
      ProcessFeed(e, m);
    case Disconnect(session, ids) =>
      OwnSetIsExact(e, session, SetOf(ids));
      CancelSessionInvIff(e, session, ids);
      SessionCancelFrame(e, session, ids);
  }

  /** Over any interleaving of messages and disconnects: maps inverse, everything that rests
      tracked to its sender, and the book sound. */
  lemma {:induction false} EventsInv(e: Engine, evs: seq<Event>)
    requires EngineInv(e) && LegalEvents(e, evs) && e.nextOrderId + |evs| < TWO_64
    ensures EngineInv(AfterAll(e, evs))
    decreases |evs|
  {
    hide EngineInv, After, LegalEvent;
    if evs != [] {
      EventInv(e, evs[0]);
      EventsInv(After(e, evs[0]), evs[1..]);
    }
  }

  /** A disconnected session has nothing left: no order tracked to it, none resting. */
  lemma NothingLeftOf(e: Engine, session: SessionId, ids: seq<OrderId>)
    requires EngineInv(e) && LegalEvent(e, Disconnect(session, ids))
    ensures var f := CancelSession(e, session, ids);
      && (forall id :: id in f.orderToSession ==> f.orderToSession[id] != session)
      && (forall a :: RestsIn(f.book, a) ==> a.session != session)
  {
    hide Inv, CancelSession;
    OwnSetIsExact(e, session, SetOf(ids));
    CancelSessionInvIff(e, session, ids);
    CancelSessionAnyOrder(e, session, ids, ids);
  }

  // ---------------------------------------------------------------- the book inside

  ghost function CancelOps(ids: seq<OrderId>): seq<Op> {
    if ids == [] then [] else [CancelOp(ids[0])] + CancelOps(ids[1..])
  }

  ghost function OpsOf(e: Engine, ev: Event): seq<Op> {
    match ev
    case Message(m) => (match OpOf(e, m) case None => [] case Some(op) => [op])
    case Disconnect(_, ids) => CancelOps(ids)
  }

  ghost function AllOps(e: Engine, evs: seq<Event>): seq<Op>
    decreases |evs|
  {
    if evs == [] then [] else OpsOf(e, evs[0]) + AllOps(After(e, evs[0]), evs[1..])
  }

  lemma {:induction false} CancelsAreRun(s: Book, ids: seq<OrderId>)
    ensures LegalRun(s, CancelOps(ids)) && Run(s, CancelOps(ids)) == CancelAll(s, ids)
    decreases |ids|
  {
    if ids != [] {
      assert CancelOps(ids)[1..] == CancelOps(ids[1..]);
      CancelsAreRun(Cancel(s, ids[0]), ids[1..]);
    }
  }

  lemma {:induction false} RunAppend(s: Book, a: seq<Op>, b: seq<Op>)
    ensures Run(s, a + b) == Run(Run(s, a), b)
    ensures LegalRun(s, a + b) <==> LegalRun(s, a) && LegalRun(Run(s, a), b)
    ensures AlwaysFits(s, a + b) <==> AlwaysFits(s, a) && AlwaysFits(Run(s, a), b)
    decreases |a|
  {
    hide Step, Legal, Fits;
    if a == [] {
      assert a + b == b;
    } else {
      assert (a + b)[1..] == a[1..] + b;
      RunAppend(Step(s, a[0]), a[1..], b);
    }
  }

  lemma EventIsBookRun(e: Engine, ev: Event)
    requires EngineInv(e)
    ensures LegalRun(e.book, OpsOf(e, ev)) && Run(e.book, OpsOf(e, ev)) == After(e, ev).book
  {
    hide EngineInv, Process, CancelSession, Legal, Step;
    match ev
    case Message(m) =>
      ProcessIsBookStep(e, m);
      if OpOf(e, m).Some? {
        assert [OpOf(e, m).value][1..] == [];
      }
    case Disconnect(session, ids) =>
      CancelsAreRun(e.book, ids);
      SessionCancelFrame(e, session, ids);
  }

  /** The book theorems hold of the engine's book whatever sessions do. */
  lemma {:induction false} EventsAreBookRun(e: Engine, evs: seq<Event>)
    requires EngineInv(e) && LegalEvents(e, evs) && e.nextOrderId + |evs| < TWO_64
    ensures LegalRun(e.book, AllOps(e, evs))
    ensures Run(e.book, AllOps(e, evs)) == AfterAll(e, evs).book
    decreases |evs|
  {
    hide EngineInv, After, LegalEvent, OpsOf;
    if evs != [] {
      var f := After(e, evs[0]);
      EventInv(e, evs[0]);
      EventIsBookRun(e, evs[0]);
      EventsAreBookRun(f, evs[1..]);
      RunAppend(e.book, OpsOf(e, evs[0]), AllOps(f, evs[1..]));
    }
  }

  // ---------------------------------------------------------------- ticks

  /** Both sides of the tick are those of the book. */
  ghost predicate Shows(d: MarketData, b: Book) {
    d.Tick? && SideQuoted(d.bidPrice, d.bidQty, b.bids) && SideQuoted(d.askPrice, d.askQty, b.asks)
  }

  lemma EventTicks(e: Engine, ev: Event)
    requires EngineInv(e) && LegalEvent(e, ev) && e.nextOrderId + 1 < TWO_64
    requires Fits(After(e, ev).book.bids, After(e, ev).book.asks)
    ensures forall d :: d in After(e, ev).feed ==> d in e.feed || d.TradeUpdate? || Shows(d, After(e, ev).book)
  {
    hide EngineInv, After, SideQuoted, LegalEvent;
    EventInv(e, ev);
    TickDescribesBook(After(e, ev));
  }

  lemma FitsAtEnd(s: Book, ops: seq<Op>)
    requires AlwaysFits(s, ops)
    ensures Fits(Run(s, ops).bids, Run(s, ops).asks)
  {
    assert ops + [] == ops;
    RunAppend(s, ops, []);
  }

  /** Along a run in which no level ever reaches 2^32, every tick shows, for each side of the
      book that some event left, the best price with the whole quantity there, and zeros exactly
      if that side was empty. */
  lemma {:induction false} RunTicksExact(e: Engine, evs: seq<Event>)
    requires EngineInv(e) && LegalEvents(e, evs) && e.nextOrderId + |evs| < TWO_64
    requires AlwaysFits(e.book, AllOps(e, evs))
    ensures forall d :: d in AfterAll(e, evs).feed ==>
      d in e.feed || d.TradeUpdate? || exists k :: 0 < k <= |evs| && Shows(d, AfterAll(e, evs[..k]).book)
    decreases |evs|
  {
    hide EngineInv, After, LegalEvent, OpsOf, Shows, Fits;
    if evs != [] {
      var f, rest := After(e, evs[0]), evs[1..];
      EventInv(e, evs[0]);
      EventIsBookRun(e, evs[0]);
      RunAppend(e.book, OpsOf(e, evs[0]), AllOps(f, rest));
      FitsAtEnd(e.book, OpsOf(e, evs[0]));
      EventTicks(e, evs[0]);
      RunTicksExact(f, rest);
      forall d | d in AfterAll(e, evs).feed
        ensures d in e.feed || d.TradeUpdate? || exists k :: 0 < k <= |evs| && Shows(d, AfterAll(e, evs[..k]).book)
      {
        TickOfPrefix(e, evs, d);
      }
    }
  }

  /** Where a tick of the run was taken, counted from one event earlier. */
  lemma TickOfPrefix(e: Engine, evs: seq<Event>, d: MarketData)
    requires evs != []
    requires var f := After(e, evs[0]);
      || d in e.feed || d.TradeUpdate? || Shows(d, f.book)
      || exists k :: 0 < k <= |evs| - 1 && Shows(d, AfterAll(f, evs[1..][..k]).book)
    ensures d in e.feed || d.TradeUpdate? || exists k :: 0 < k <= |evs| && Shows(d, AfterAll(e, evs[..k]).book)
  {
    hide After, Shows;
    var f := After(e, evs[0]);
    if Shows(d, f.book) {
      assert evs[..1][1..] == [];
      assert AfterAll(e, evs[..1]) == f;
    } else if d !in e.feed && !d.TradeUpdate? {
      var k :| 0 < k <= |evs| - 1 && Shows(d, AfterAll(f, evs[1..][..k]).book);
      assert evs[..k + 1][1..] == evs[1..][..k];
      assert AfterAll(e, evs[..k + 1]) == AfterAll(f, evs[1..][..k]);
    }
  }

  // ---------------------------------------------------------------- runs of messages alone

  function Messages(ms: seq<Inbound>): seq<Event> {
    if ms == [] then [] else [Message(ms[0])] + Messages(ms[1..])
  }

  lemma {:induction false} MessagesAreEvents(e: Engine, ms: seq<Inbound>)
    ensures |Messages(ms)| == |ms| && LegalEvents(e, Messages(ms))
    ensures AfterAll(e, Messages(ms)) == ProcessAll(e, ms) && AllOps(e, Messages(ms)) == BookOps(e, ms)
    decreases |ms|
  {
    hide Process, OpOf;
    if ms != [] {
      assert Messages(ms)[1..] == Messages(ms[1..]);
      MessagesAreEvents(Process(e, ms[0]), ms[1..]);
    }
  }
}
