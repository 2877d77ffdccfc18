/** One order over a whole run: as long as neither its owner nor the dummy session names it, all
    that happens to it is trading, and it is accounted for to the last unit. */
module Ownership {
  import opened Types
  import opened OrderQueue
  import opened Matching
  import opened Book
  import opened BookRuns
  import opened BookLaws
  import opened Engine
  import opened EngineRuns
  import opened EngineBooks
  import opened EngineMessages
  import opened EngineSessions
  import opened Isolation

  /** The event does not come from the owner or the dummy session, or is about another order. */
  ghost predicate Foreign(ev: Event, owner: SessionId, id: OrderId) {
    match ev
    case Disconnect(session, _) => session != owner
    case Message(CancelOrder(session, _, other)) => other != id || (session != owner && session != DUMMY_SESSION)
    case Message(ModifyOrder(session, _, other, _, _)) => other != id || (session != owner && session != DUMMY_SESSION)
    case Message(_) => true
  }

  ghost predicate AllForeign(evs: seq<Event>, owner: SessionId, id: OrderId) {
    forall i :: 0 <= i < |evs| ==> Foreign(evs[i], owner, id)
  }

  /** The id has been handed out, and if it is tracked then to the owner. */
  ghost predicate Owned(e: Engine, owner: SessionId, id: OrderId) {
    id < e.nextOrderId && (id in e.orderToSession ==> e.orderToSession[id] == owner)
  }

  /** What an operation trades with the resting order `id`. */
  ghost function TradedBy(s: Book, op: Op, id: OrderId): nat {
    match Incoming(s, op)
    case Some(i) => TradedWith(i.1, Step(s, op).trades, id)
    case None => 0
  }

  ghost function TradedOver(s: Book, ops: seq<Op>, id: OrderId): nat
    decreases |ops|
  {
    if ops == [] then 0 else TradedBy(s, ops[0], id) + TradedOver(Step(s, ops[0]), ops[1..], id)
  }

  /** The operation is not about the order, and does not bring one in under its id. */
  ghost predicate Elsewhere(op: Op, id: OrderId) {
    match op
    case AddOp(o) => o.id != id
    case CancelOp(other) => other != id
    case ModifyOp(other, _, _) => other != id
  }

  ghost predicate AllElsewhere(ops: seq<Op>, id: OrderId) {
    forall i :: 0 <= i < |ops| ==> Elsewhere(ops[i], id)
  }

  // ---------------------------------------------------------------- runs of the book

  /** An id that rests nowhere stays away and trades nothing. */
  lemma AbsentStays(s: Book, op: Op, id: OrderId)
    requires Inv(s) && Legal(s, op) && Elsewhere(op, id) && id !in s.index
    ensures id !in Step(s, op).index && TradedBy(s, op, id) == 0
  {
    hide Add, TradedWith;
    StepIncoming(s, op);
    match Incoming(s, op)
    case Some(i) =>
      IncomingEnters(s, op);
      if op.ModifyOp? { LookupIn(s, op.id); }
      AbsentFromAdd(i.0, i.1, id);
    case None =>
      if op.CancelOp? { CancelInv(s, op.id); }
  }

  lemma AbsentFromAdd(s: Book, o: Ord, id: OrderId)
    requires Inv(s.(index := s.index - {o.id})) && o.side != NoSide && o.id != id && id !in s.index
    ensures id !in Add(s, o).index && TradedWith(o, Add(s, o).trades, id) == 0
  {
    hide Add;
    var q := Contra(s, o.side);
    StepTrades(s, o);
    InvSided(s.(index := s.index - {o.id}), o.side);
    assert id !in Ids(q);
    MatchIgnores(o, q, o.qty, id);
  }

  lemma QtyIsZeroIff(s: Book, id: OrderId)
    requires Inv(s)
    ensures QtyOf(s, id) == 0 <==> id !in s.index
  {
    LookupIn(s, id);
  }

  /** One operation: what is left and what it traded add up to what there was. */
  lemma StepAccounts(s: Book, op: Op, id: OrderId)
    requires Inv(s) && Legal(s, op) && Elsewhere(op, id)
    ensures QtyOf(Step(s, op), id) + TradedBy(s, op, id) == QtyOf(s, id)
  {
    hide Step, Legal, Inv, Lookup;
    StepInv(s, op);
    QtyIsZeroIff(s, id);
    QtyIsZeroIff(Step(s, op), id);
    if id in s.index {
      var a := Resident(s, id);
      StepFillsEach(s, op, a);
    } else {
      AbsentStays(s, op, id);
    }
  }

  lemma Resident(s: Book, id: OrderId) returns (a: Ord)
    requires Inv(s) && id in s.index
    ensures RestsIn(s, a) && a.id == id && a.qty == QtyOf(s, id)
  {
    LookupIn(s, id);
    a := Lookup(s, id).value;
  }

  lemma {:induction false} RunAccounts(s: Book, ops: seq<Op>, id: OrderId)
    requires Inv(s) && LegalRun(s, ops) && AllElsewhere(ops, id)
    ensures QtyOf(Run(s, ops), id) + TradedOver(s, ops, id) == QtyOf(s, id)
    decreases |ops|
  {
    hide Step, Legal, Inv, QtyOf, TradedBy, Elsewhere;
    if ops != [] {
      StepInv(s, ops[0]);
      assert Elsewhere(ops[0], id);
      StepAccounts(s, ops[0], id);
      assert forall i :: 0 <= i < |ops[1..]| ==> ops[1..][i] == ops[i + 1];
      RunAccounts(Step(s, ops[0]), ops[1..], id);
    }
  }

  /** And what is left keeps price, side, session and arrival. */
  lemma {:induction false} RunKeepsRank(s: Book, ops: seq<Op>, a: Ord, b: Ord)
    requires Inv(s) && LegalRun(s, ops) && AllElsewhere(ops, a.id)
    requires RestsIn(s, a) && RestsIn(Run(s, ops), b) && b.id == a.id
    ensures Remainder(b, a)
    decreases |ops|
  {
    hide Step, Legal, QtyOf, TradedBy, Lookup, SideOk;
    if ops == [] {
      OneRestsPerId(s, a, b);
      Whole(s, a);
    } else {
      var t, rest := Step(s, ops[0]), ops[1..];
      StepInv(s, ops[0]);
      assert Elsewhere(ops[0], a.id);
      assert forall i :: 0 <= i < |rest| ==> rest[i] == ops[i + 1];
      RunInv(t, rest);
      RunAccounts(t, rest, a.id);
      Indexed(Run(t, rest), b);
      QtyIsZeroIff(t, a.id);
      QtyIsZeroIff(Run(t, rest), a.id);
      var c := Resident(t, a.id);
      StepKeepsRank(s, ops[0], a, c);
      RunKeepsRank(t, rest, c, b);
    }
  }

  lemma Whole(s: Book, a: Ord)
    requires Inv(s) && RestsIn(s, a)
    ensures a.qty > 0 && Remainder(a, a)
  {
  }

  lemma Indexed(s: Book, b: Ord)
    requires Inv(s) && RestsIn(s, b)
    ensures b.id in s.index
  {
    LookupIn(s, b.id);
  }

  // ---------------------------------------------------------------- runs of the engine

  lemma {:induction false} CancelsElsewhere(ids: seq<OrderId>, id: OrderId)
    requires id !in ids
    ensures AllElsewhere(CancelOps(ids), id)
  {
    if ids != [] {
      CancelsElsewhere(ids[1..], id);
    }
  }

  /** What a foreign event asks of the book is about other orders. */
  lemma ForeignIsElsewhere(e: Engine, ev: Event, owner: SessionId, id: OrderId)
    requires EngineInv(e) && LegalEvent(e, ev) && Foreign(ev, owner, id) && Owned(e, owner, id)
    ensures AllElsewhere(OpsOf(e, ev), id)
  {
    hide Inv, RestingOk;
    match ev
    case Message(m) =>
    case Disconnect(session, ids) =>
      assert id !in SessionIds(e.sessionOrders, session);
      assert id !in SetOf(ids);
      CancelsElsewhere(ids, id);
  }

  /** Ownership lasts: ids are never handed out twice. */
  lemma OwnedStays(e: Engine, ev: Event, owner: SessionId, id: OrderId)
    requires EngineInv(e) && LegalEvent(e, ev) && e.nextOrderId + 1 < TWO_64 && Owned(e, owner, id)
    ensures Owned(After(e, ev), owner, id)
  {
    hide EngineInv, Process, Shown, CancelAll, DropOrders;
    EventInv(e, ev);
    match ev
    case Message(m) => TrackingOf(e, m, id);
    case Disconnect(session, ids) => DropOrdersIs(e, ids);
  }

  /** A message tracks no id below the next one anew. */
  lemma TrackingOf(e: Engine, m: Inbound, id: OrderId)
    requires EngineInv(e) && e.nextOrderId + 1 < TWO_64 && id < e.nextOrderId
    ensures var f := Process(e, m);
      id in f.orderToSession ==> id in e.orderToSession && f.orderToSession[id] == e.orderToSession[id]
  {
    hide EngineInv, Accept, Add, Modify, Cancel, Shown, RepublishTrades;
    match m
    case NewOrder(_, _, _, _, _, _) =>
      var e0 := e.(ordersProcessed := Wrap64(e.ordersProcessed + 1));
      SameBooksInv(e, e0);
      if OpOf(e, m).Some? {
        AcceptTracksIffRests(e0, m.clientId, OrderOf(e0, m));
      }
    case CancelOrder(_, _, _) =>
    case ModifyOrder(_, _, _, _, _) =>
      var after := Modify(e.book, m.orderId, m.newPrice, m.newQty);
      RepublishFrame(e.(book := after), m.orderId, after.trades);
    case OtherMessage =>
  }

  lemma {:induction false} RunIsElsewhere(e: Engine, evs: seq<Event>, owner: SessionId, id: OrderId)
    requires EngineInv(e) && LegalEvents(e, evs) && e.nextOrderId + |evs| < TWO_64
    requires AllForeign(evs, owner, id) && Owned(e, owner, id)
    ensures AllElsewhere(AllOps(e, evs), id)
    decreases |evs|
  {
    hide EngineInv, After, LegalEvent, OpsOf, Elsewhere, Foreign, Owned;
    if evs != [] {
      assert Foreign(evs[0], owner, id);
      EventInv(e, evs[0]);
      ForeignIsElsewhere(e, evs[0], owner, id);
      OwnedStays(e, evs[0], owner, id);
      assert forall i :: 0 <= i < |evs[1..]| ==> evs[1..][i] == evs[i + 1];
      RunIsElsewhere(After(e, evs[0]), evs[1..], owner, id);
    }
  }

  /** Over any run of messages and disconnects in which neither its owner nor the dummy session
      names it, a resting order keeps exactly its quantity less all it traded, and what is left
      keeps its price and its place. */
  lemma OnlyTradesOverRun(e: Engine, evs: seq<Event>, a: Ord)
    requires EngineInv(e) && LegalEvents(e, evs) && e.nextOrderId + |evs| < TWO_64
    requires RestsIn(e.book, a) && AllForeign(evs, a.session, a.id)
    ensures var t := AfterAll(e, evs).book;
      && QtyOf(t, a.id) + TradedOver(e.book, AllOps(e, evs), a.id) == a.qty
      && (forall b :: RestsIn(t, b) && b.id == a.id ==> Remainder(b, a))
  {
    hide LegalEvents, AfterAll, AllForeign, AllElsewhere, TradedOver, Run, LegalRun, AllOps;
    OwnerKnown(e, a);
    RunIsElsewhere(e, evs, a.session, a.id);
    EventsAreBookRun(e, evs);
    RunAccounts(e.book, AllOps(e, evs), a.id);
    forall b | RestsIn(AfterAll(e, evs).book, b) && b.id == a.id ensures Remainder(b, a) {
      RunKeepsRank(e.book, AllOps(e, evs), a, b);
    }
  }

  lemma OwnerKnown(e: Engine, a: Ord)
    requires EngineInv(e) && RestsIn(e.book, a)
    ensures Owned(e, a.session, a.id) && QtyOf(e.book, a.id) == a.qty && Inv(e.book)
  {
    LookupIn(e.book, a.id);
  }
}
