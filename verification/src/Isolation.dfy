/** Quantity order by order: a resting order loses exactly what it trades, and nobody but its
    owner can change it otherwise. */
module Isolation {
  import opened Types
  import opened OrderQueue
  import opened Matching
  import opened Book
  import opened BookRuns
  import opened Engine
  import opened EngineRuns
  import opened EngineBooks

  /** What `o` traded with the resting order `id`. */
  function TradedWith(o: Ord, ts: seq<Trade>, id: OrderId): nat {
    if ts == [] then 0
    else (if Passive(o, ts[0]) == id then ts[0].quantity else 0) + TradedWith(o, ts[1..], id)
  }

  function QtyIn(q: seq<Ord>, id: OrderId): nat {
    if Find(q, id).Some? then Find(q, id).value.qty else 0
  }

  function QtyOf(s: Book, id: OrderId): nat {
    if Lookup(s, id).Some? then Lookup(s, id).value.qty else 0
  }

  lemma {:induction false} MatchIgnores(o: Ord, q: seq<Ord>, left: Quantity, id: OrderId)
    requires o.side != NoSide && id !in Ids(q)
    ensures TradedWith(o, Match(o, q, left).trades, id) == 0
    ensures id !in Ids(Match(o, q, left).rest)
  {
    if left > 0 && q != [] && Crosses(o, q[0].price) {
      IdsCons(q);
      if left < q[0].qty {
        var rest := Match(o, q, left).rest;
        IdsCons(rest);
        assert rest[1..] == q[1..];
      } else {
        MatchIgnores(o, q[1..], left - q[0].qty, id);
      }
    }
  }

  /** In one pass, what is left of each resting order and what it traded add up. */
  lemma {:induction false} MatchFillsEach(o: Ord, q: seq<Ord>, left: Quantity, x: Ord)
    requires o.side != NoSide && DistinctIds(q) && x in q
    ensures QtyIn(Match(o, q, left).rest, x.id) + TradedWith(o, Match(o, q, left).trades, x.id) == x.qty
  {
    FindIn(q, x.id);
    if left > 0 && q != [] && Crosses(o, q[0].price) {
      var tail := q[1..];
      assert forall y :: y in tail ==> y.id != q[0].id;
      if x == q[0] {
        assert x.id !in Ids(tail);
        if left >= q[0].qty {
          MatchIgnores(o, tail, left - q[0].qty, x.id);
          FindIn(Match(o, tail, left - q[0].qty).rest, x.id);
        }
      } else {
        assert x in tail;
        if left >= q[0].qty {
          MatchFillsEach(o, tail, left - q[0].qty, x);
        } else {
          assert Match(o, q, left).rest[1..] == tail;
          FindIn(tail, x.id);
        }
      }
    }
  }

  /** An add: orders of the other side lose what they trade, orders of the same side nothing. */
  lemma AddFillsEach(s: Book, o: Ord, a: Ord)
    requires Inv(s.(index := s.index - {o.id})) && Inv(Add(s, o)) && o.side != NoSide
    requires o.id !in Ids(s.bids) + Ids(s.asks) && RestsIn(s, a)
    ensures QtyOf(Add(s, o), a.id) + TradedWith(o, Add(s, o).trades, a.id) == a.qty
  {
    hide Add, SideOk, Lookup;
    StepTrades(s, o);
    AddSides(s, o);
    InvSided(s.(index := s.index - {o.id}), o.side);
    InvSided(Add(s, o), o.side);
    InsertMembers(Own(s, o.side), Outcome(s, o));
    if a in Own(s, o.side) {
      assert a.id in Ids(Own(s, o.side));
      MatchIgnores(o, Contra(s, o.side), o.qty, a.id);
      assert a in Own(Add(s, o), o.side);
      LookupIn(Add(s, o), a.id);
    } else {
      ContraFillsEach(s, o, a);
    }
  }

  lemma ContraFillsEach(s: Book, o: Ord, a: Ord)
    requires Inv(s.(index := s.index - {o.id})) && Inv(Add(s, o)) && o.side != NoSide
    requires o.id !in Ids(s.bids) + Ids(s.asks) && a in Contra(s, o.side)
    ensures QtyOf(Add(s, o), a.id) + TradedWith(o, Match(o, Contra(s, o.side), o.qty).trades, a.id) == a.qty
  {
    hide Add, Lookup;
    var q, rest := Contra(s, o.side), Match(o, Contra(s, o.side), o.qty).rest;
    AddSides(s, o);
    InvSided(s.(index := s.index - {o.id}), o.side);
    InvSided(Add(s, o), o.side);
    InsertMembers(Own(s, o.side), Outcome(s, o));
    MatchFillsEach(o, q, o.qty, a);
    FindIn(rest, a.id);
    LookupIn(Add(s, o), a.id);
    assert a.id in Ids(q);
  }

  /** Every operation: a resting order it does not name keeps its quantity, less what it
      trades in that operation. */
  lemma StepFillsEach(s: Book, op: Op, a: Ord)
    requires Inv(s) && Legal(s, op) && RestsIn(s, a)
    requires (op.ModifyOp? || op.CancelOp?) ==> op.id != a.id
    ensures match Incoming(s, op)
      case Some(e) => QtyOf(Step(s, op), a.id) + TradedWith(e.1, Step(s, op).trades, a.id) == a.qty
      case None => QtyOf(Step(s, op), a.id) == a.qty
  {
    hide Add, SidesOk;
    StepInv(s, op);
    StepIncoming(s, op);
    LookupIn(s, a.id);
    if Incoming(s, op).Some? {
      IncomingEnters(s, op);
      if op.ModifyOp? {
        LookupIn(s, op.id);
        WithdrawMembers(s, Lookup(s, op.id).value, a);
      }
      AddFillsEach(Incoming(s, op).value.0, Incoming(s, op).value.1, a);
    } else if op.CancelOp? && Lookup(s, op.id).Some? {
      LookupIn(s, op.id);
      WithdrawMembers(s, Lookup(s, op.id).value, a);
      LookupIn(Step(s, op), a.id);
    }
  }

  /** A message of another session changes a resting order only by trading with it: the order
      keeps its quantity less the trades, and if any is left, its price and its rank. */
  lemma OthersOnlyTrade(e: Engine, m: Inbound, a: Ord)
    requires EngineInv(e) && RestsIn(e.book, a)
    requires !m.OtherMessage? && m.session != a.session && m.session != DUMMY_SESSION
    ensures var t := Process(e, m).book;
      match OpOf(e, m)
      case None => t == e.book
      case Some(op) =>
        && (forall b :: RestsIn(t, b) && b.id == a.id ==> Remainder(b, a))
        && (match Incoming(e.book, op)
            case Some(i) => QtyOf(t, a.id) + TradedWith(i.1, t.trades, a.id) == a.qty
            case None => QtyOf(t, a.id) == a.qty)
  {
    hide Inv, Process, Step, Legal, Lookup, Tracking;
    ProcessIsBookStep(e, m);
    if OpOf(e, m).Some? {
      var op := OpOf(e, m).value;
      StepFillsEach(e.book, op, a);
      forall b | RestsIn(Step(e.book, op), b) && b.id == a.id ensures Remainder(b, a) {
        StepKeepsRank(e.book, op, a, b);
      }
    }
  }
}
