/** The engine drives the book only through legal operations, so everything proved about runs
    of the book holds of the book inside the engine. */
module EngineBooks {
  import opened Types
  import opened Book
  import opened BookRuns
  import opened BookLaws
  import opened Engine
  import opened EngineRuns

  /** What a message asks of the book: nothing, or one operation. */
  ghost function OpOf(e: Engine, m: Inbound): Option<Op> {
    match m
    case NewOrder(_, _, sideByte, typeByte, price, qty) =>
      if Refusal(SideOf(sideByte), TypeOf(typeByte), price, qty).None? then Some(AddOp(OrderOf(e, m))) else None
    case CancelOrder(session, _, id) =>
      if MayTouch(e, session, id) then Some(CancelOp(id)) else None
    case ModifyOrder(session, _, id, price, qty) =>
      if MayTouch(e, session, id) && price > 0 && qty > 0 then Some(ModifyOp(id, price, qty)) else None
    case OtherMessage => None
  }

  lemma AcceptBook(e: Engine, c: ClientOrderId, o: Ord)
    ensures Accept(e, c, o).book == Add(e.book, o)
  {
    hide Add, Outcome, ReportTrades, Shown;
    ReportTradesFrame(Booked(e, c, o), Outcome(e.book, o), Booked(e, c, o).book.trades);
  }

  lemma NewOrderBook(e: Engine, m: Inbound)
    requires EngineInv(e) && m.NewOrder?
    ensures match OpOf(e, m)
      case None => HandleNew(e, m).book == e.book
      case Some(op) => Legal(e.book, op) && HandleNew(e, m).book == Step(e.book, op)
  {
    hide Add, Accept, Inv, Tracking;
    if OpOf(e, m).Some? {
      FreshId(e);
      AcceptBook(e.(ordersProcessed := Wrap64(e.ordersProcessed + 1)), m.clientId, OrderOf(e, m));
    }
  }

  /** The next id rests nowhere. */
  lemma FreshId(e: Engine)
    requires EngineInv(e)
    ensures e.nextOrderId !in e.book.index
  {
    RestingIndexed(e.book, e.orderToSession);
  }

  lemma ModifyBook(e: Engine, m: Inbound)
    requires m.ModifyOrder?
    ensures match OpOf(e, m)
      case None => HandleModify(e, m).book == e.book
      case Some(op) => Legal(e.book, op) && HandleModify(e, m).book == Step(e.book, op)
  {
    hide Modify, RepublishTrades, Shown;
    var after := Modify(e.book, m.orderId, m.newPrice, m.newQty);
    RepublishFrame(e.(book := after), m.orderId, after.trades);
  }

  /** Validation and ids handed out by the engine make every operation one the book allows. */
  lemma ProcessIsBookStep(e: Engine, m: Inbound)
    requires EngineInv(e)
    ensures match OpOf(e, m)
      case None => Process(e, m).book == e.book
      case Some(op) => Legal(e.book, op) && Process(e, m).book == Step(e.book, op)
  {
    hide EngineInv, HandleNew, HandleModify, Cancel;
    match m
    case NewOrder(_, _, _, _, _, _) => NewOrderBook(e, m);
    case CancelOrder(_, _, _) =>
    case ModifyOrder(_, _, _, _, _) => ModifyBook(e, m);
    case OtherMessage =>
  }

  ghost function BookOps(e: Engine, ms: seq<Inbound>): seq<Op>
    decreases |ms|
  {
    if ms == [] then []
    else
      var rest := BookOps(Process(e, ms[0]), ms[1..]);
      match OpOf(e, ms[0])
      case None => rest
      case Some(op) => [op] + rest
  }

  lemma {:induction false} RunIsBookRun(e: Engine, ms: seq<Inbound>)
    requires EngineInv(e) && e.nextOrderId + |ms| < TWO_64
    ensures LegalRun(e.book, BookOps(e, ms))
    ensures ProcessAll(e, ms).book == Run(e.book, BookOps(e, ms))
    decreases |ms|
  {
    hide EngineInv, Process, Step, Legal;
    if ms != [] {
      ProcessInv(e, ms[0]);
      ProcessIsBookStep(e, ms[0]);
      RunIsBookRun(Process(e, ms[0]), ms[1..]);
      if OpOf(e, ms[0]).Some? {
        var rest := BookOps(Process(e, ms[0]), ms[1..]);
        assert BookOps(e, ms)[1..] == rest;
      }
    }
  }

  /** From a new engine, whatever messages arrive: quantity is conserved, and the level cache
      is exact after every operation just when no level ever reaches 2^32. */
  lemma EngineConserves(e: Engine, ms: seq<Inbound>)
    requires IsNewEngine(e) && |ms| + 1 < TWO_64
    ensures var ops := BookOps(e, ms);
      && Balanced(Audit(NOTHING_YET, e.book, ops), ProcessAll(e, ms).book)
      && (AlwaysInSync(e.book, ops) <==> AlwaysFits(e.book, ops))
  {
    hide EngineInv, Inv, InSync, Balanced, BookOps, Audit, LegalRun;
    NewEngineInv(e);
    NewBook(e.book);
    RunIsBookRun(e, ms);
    RunBalanced(NOTHING_YET, e.book, BookOps(e, ms));
    RunInSyncIff(e.book, BookOps(e, ms));
  }
}
