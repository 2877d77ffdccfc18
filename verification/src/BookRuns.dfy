/** Whole runs of book operations: invariant, cache, quantity and priority. */
module BookRuns {
  import opened Types
  import opened OrderQueue
  import opened Matching
  import opened LevelCache
  import opened Book

  datatype Op =
    | AddOp(order: Ord)
    | ModifyOp(id: OrderId, price: Price, qty: Quantity)
    | CancelOp(id: OrderId)

  /** What the engine checks before it calls the book. */
  ghost predicate Legal(s: Book, op: Op) {
    match op
    case AddOp(o) => o.side != NoSide && o.id !in s.index
    case ModifyOp(_, _, x) => x > 0
    case CancelOp(_) => true
  }

  ghost function Step(s: Book, op: Op): Book {
    match op
    case AddOp(o) => Add(s, o)
    case ModifyOp(id, p, x) => Modify(s, id, p, x)
    case CancelOp(id) => Cancel(s, id)
  }

  ghost function Run(s: Book, ops: seq<Op>): Book
    decreases |ops|
  {
    if ops == [] then s else Run(Step(s, ops[0]), ops[1..])
  }

  ghost predicate LegalRun(s: Book, ops: seq<Op>)
    decreases |ops|
  {
    ops != [] ==> Legal(s, ops[0]) && LegalRun(Step(s, ops[0]), ops[1..])
  }

  /** The order that enters matching, and the book it enters, if the operation has one. */
  ghost function Incoming(s: Book, op: Op): Option<(Book, Ord)> {
    match op
    case AddOp(o) => Some((s, o))
    case CancelOp(_) => None
    case ModifyOp(id, p, x) =>
      match Lookup(s, id)
      case None => None
      case Some(o) =>
        if o.price == p && o.qty == x then None
        else Some((Withdraw(s, o), o.(price := p, qty := x, status := Modified)))
  }

  /** An operation without an incoming order only withdraws or does nothing. */
  lemma StepIncoming(s: Book, op: Op)
    ensures match Incoming(s, op)
      case Some(e) => Step(s, op) == Add(e.0, e.1)
      case None => Step(s, op) == s || (op.CancelOp? && Step(s, op) == Cancel(s, op.id))
  {
  }

  lemma StepInv(s: Book, op: Op)
    requires Inv(s) && Legal(s, op)
    ensures Inv(Step(s, op))
  {
    match op
    case AddOp(o) => AddFreshInvIff(s, o);
    case ModifyOp(id, p, x) => ModifyInvIff(s, id, p, x);
    case CancelOp(id) => CancelInv(s, id);
  }

  /** On every run the index is exactly the resting ids, both sides stay in strict
      price-time order, and the book is never crossed or locked. */
  lemma {:induction false} RunInv(s: Book, ops: seq<Op>)
    requires Inv(s) && LegalRun(s, ops)
    ensures Inv(Run(s, ops))
    decreases |ops|
  {
    if ops != [] {
      StepInv(s, ops[0]);
      RunInv(Step(s, ops[0]), ops[1..]);
    }
  }

  // ---------------------------------------------------------------- the level cache

  /** The remainder that an incoming order leaves on its own side. */
  ghost function Remaining(s: Book, o: Ord): Quantity {
    if Rests(o, Outcome(s, o).qty) then Outcome(s, o).qty else 0
  }

  /** The same, read off the book before the call. */
  ghost function WillRest(s: Book, o: Ord): nat {
    var reach := CrossableVolume(o, Contra(s, o.side));
    if Aggressive(o.otype) || o.qty <= reach then 0 else o.qty - reach
  }

  lemma RemainingIs(s: Book, o: Ord)
    requires o.side != NoSide && SideOk(Opposite(o.side), Contra(s, o.side), s.clock)
    ensures Remaining(s, o) == WillRest(s, o)
  {
    hide Match, CrossableVolume;
    MatchConserves(o, Contra(s, o.side), o.qty);
    MatchVolume(Opposite(o.side), o, Contra(s, o.side), o.qty);
  }

  lemma TakeInSync(s: Book, o: Ord)
    requires o.side != NoSide && InSync(s) && Positive(s.bids) && Positive(s.asks)
    ensures InSync(Take(s, o))
  {
    InSyncSided(s, o.side);
    MatchAgrees(s.cache, o, Contra(s, o.side), Own(s, o.side), o.qty);
    InSyncSided(Take(s, o), o.side);
  }

  /** The cache stays exact exactly when the own level the remainder joins stays below 2^32. */
  lemma AddInSyncIff(s: Book, o: Ord)
    requires Inv(s.(index := s.index - {o.id})) && InSync(s) && o.side != NoSide && o.id !in Ids(s.bids) + Ids(s.asks)
    ensures InSync(Add(s, o)) <==>
      WillRest(s, o) == 0 || Sum(AtPrice(Own(s, o.side), o.price)) + WillRest(s, o) < TWO_32
    ensures InSync(Add(s, o)) <==> Fits(Add(s, o).bids, Add(s, o).asks)
  {
    hide WillRest;
    RemainingIs(s, o);
    var t := Take(s, o);
    TakeInSync(s, o);
    AgreesFits(t.cache, t.bids, t.asks);
    if Remaining(s, o) > 0 {
      PlaceInSyncIff(s, o);
    } else {
      MatchConserves(o, Contra(s, o.side), o.qty);
      assert Add(s, o).cache == t.cache && Add(s, o).bids == t.bids && Add(s, o).asks == t.asks;
    }
  }

  lemma PlaceInSyncIff(s: Book, o: Ord)
    requires Inv(s.(index := s.index - {o.id})) && o.side != NoSide && Remaining(s, o) > 0
    requires InSync(Take(s, o)) && Fits(Take(s, o).bids, Take(s, o).asks)
    ensures InSync(Add(s, o)) <==> Sum(AtPrice(Own(s, o.side), o.price)) + Remaining(s, o) < TWO_32
    ensures InSync(Add(s, o)) <==> Fits(Add(s, o).bids, Add(s, o).asks)
  {
    var t, done := Take(s, o), Outcome(s, o);
    var own, contra := Own(t, o.side), Contra(t, o.side);
    assert Add(s, o) == Place(t, done);
    OwnLevelOnly(s, o);
    InSyncSided(t, o.side);
    InSyncSided(Add(s, o), o.side);
    FitsSided(t, o.side);
    FitsSided(Add(s, o), o.side);
    InsertAgreesIff(t.cache, own, contra, done);
    InsertFitsIff(own, contra, done);
  }

  lemma FitsSided(s: Book, side: BuySell)
    ensures side != NoSide ==> (Fits(s.bids, s.asks) <==> Fits(Own(s, side), Contra(s, side)))
  {
    if side == Sell {
      assert forall p: Price :: TotalAt(s.bids, s.asks, p) == TotalAt(s.asks, s.bids, p);
    }
  }

  lemma InsertFitsIff(q: seq<Ord>, b: seq<Ord>, o: Ord)
    requires Sorted(o.side, q) && Fits(q, b)
    ensures Fits(Insert(q, o), b) <==> TotalAt(q, b, o.price) + o.qty < TWO_32
  {
    forall p: Price
      ensures TotalAt(Insert(q, o), b, p) == TotalAt(q, b, p) + if p == o.price then o.qty else 0
    {
      InsertLevels(q, b, o, p);
    }
  }

  /** After matching, the price a remainder rests at is held by its own side only. */
  lemma OwnLevelOnly(s: Book, o: Ord)
    requires o.side != NoSide && Inv(s.(index := s.index - {o.id})) && Remaining(s, o) > 0
    ensures var t := Take(s, o);
      && Own(t, o.side) == Own(s, o.side)
      && SideOk(o.side, Own(t, o.side), t.clock) && Positive(Contra(t, o.side))
      && TotalAt(Own(t, o.side), Contra(t, o.side), o.price) == Sum(AtPrice(Own(s, o.side), o.price))
  {
    var u := s.(index := s.index - {o.id});
    TakeInv(u, o);
    InvSided(Take(u, o), o.side);
    assert Take(u, o) == Take(s, o).(index := Take(u, o).index);
    AtPriceEmpty(Contra(Take(s, o), o.side), o.price);
  }

  lemma AtPriceEmpty(q: seq<Ord>, p: Price)
    requires forall b :: b in q ==> b.price != p
    ensures AtPrice(q, p) == []
  {
    if AtPrice(q, p) != [] {
      AtPriceMember(q, p, AtPrice(q, p)[0]);
    }
  }

  lemma WithdrawInSync(s: Book, o: Ord)
    requires Inv(s) && InSync(s) && o.side != NoSide && o in Own(s, o.side)
    ensures InSync(Withdraw(s, o))
  {
    InvSided(s, o.side);
    InSyncSided(s, o.side);
    RemoveAgrees(s.cache, o.side, Own(s, o.side), Contra(s, o.side), o, s.clock);
    InSyncSided(Withdraw(s, o), o.side);
  }

  /** One operation keeps the cache exact exactly when no level reaches 2^32. */
  lemma StepInSyncIff(s: Book, op: Op)
    requires Inv(s) && InSync(s) && Legal(s, op)
    ensures InSync(Step(s, op)) <==> Fits(Step(s, op).bids, Step(s, op).asks)
  {
    AgreesFits(s.cache, s.bids, s.asks);
    match op
    case AddOp(o) =>
      assert s.index - {o.id} == s.index;
      AddInSyncIff(s, o);
    case CancelOp(id) =>
      LookupIn(s, id);
      if Lookup(s, id).Some? {
        WithdrawInSync(s, Lookup(s, id).value);
        AgreesFits(Step(s, op).cache, Step(s, op).bids, Step(s, op).asks);
      }
    case ModifyOp(id, p, x) =>
      LookupIn(s, id);
      if Incoming(s, op).Some? {
        var o := Lookup(s, id).value;
        WithdrawInv(s, o);
        WithdrawInSync(s, o);
        AddInSyncIff(Withdraw(s, o), o.(price := p, qty := x, status := Modified));
      }
  }

  ghost predicate AlwaysInSync(s: Book, ops: seq<Op>)
    decreases |ops|
  {
    InSync(s) && (ops != [] ==> AlwaysInSync(Step(s, ops[0]), ops[1..]))
  }

  ghost predicate AlwaysFits(s: Book, ops: seq<Op>)
    decreases |ops|
  {
    Fits(s.bids, s.asks) && (ops != [] ==> AlwaysFits(Step(s, ops[0]), ops[1..]))
  }

  /** price_to_leveldata_ is exact throughout a run exactly when no level ever holds 2^32 or
      more: the only way it goes wrong is the wrapping addition. */
  lemma {:induction false} RunInSyncIff(s: Book, ops: seq<Op>)
    requires Inv(s) && InSync(s) && LegalRun(s, ops)
    ensures AlwaysInSync(s, ops) <==> AlwaysFits(s, ops)
    decreases |ops|
  {
    AgreesFits(s.cache, s.bids, s.asks);
    if ops != [] {
      StepInv(s, ops[0]);
      StepInSyncIff(s, ops[0]);
      var t := Step(s, ops[0]);
      if InSync(t) {
        RunInSyncIff(t, ops[1..]);
      } else {
        assert !AlwaysFits(t, ops[1..]);
      }
    }
  }

  /** Because the book is uncrossed a cache entry describes one level of one side. */
  lemma EntryIsOneLevel(s: Book, p: Price)
    requires Inv(s) && InSync(s)
    ensures AtPrice(s.bids, p) == [] || AtPrice(s.asks, p) == []
    ensures p in s.cache <==> AtPrice(s.bids, p) != [] || AtPrice(s.asks, p) != []
    ensures p in s.cache ==>
      var level := if AtPrice(s.bids, p) != [] then AtPrice(s.bids, p) else AtPrice(s.asks, p);
      s.cache[p].price == p && s.cache[p].total == Sum(level) && s.cache[p].count == |level|
  {
    assert AgreesAt(s.cache, s.bids, s.asks, p);
    if AtPrice(s.bids, p) != [] && AtPrice(s.asks, p) != [] {
      var a, b := AtPrice(s.bids, p)[0], AtPrice(s.asks, p)[0];
      AtPriceMember(s.bids, p, a);
      AtPriceMember(s.asks, p, b);
      assert false;
    }
  }

  // ---------------------------------------------------------------- conservation of quantity

  /** Where quantity came from and where it went. */
  datatype Ledger = Ledger(submitted: nat, broughtIn: nat, traded: nat, cancelled: nat, takenOut: nat)

  const NOTHING_YET := Ledger(0, 0, 0, 0, 0)

  ghost function Resting(s: Book): nat {
    Sum(s.bids) + Sum(s.asks)
  }

  /** Quantity that a MARKET or IOC order loses unfilled. */
  ghost function Dropped(s: Book, o: Ord): nat {
    if Aggressive(o.otype) then Match(o, Contra(s, o.side), o.qty).left else 0
  }

  ghost function Post(l: Ledger, s: Book, op: Op): Ledger {
    match op
    case AddOp(o) =>
      l.(submitted := l.submitted + o.qty,
         traded := l.traded + Executed(Add(s, o).trades),
         cancelled := l.cancelled + Dropped(s, o))
    case CancelOp(id) =>
      if Lookup(s, id).Some? then l.(cancelled := l.cancelled + Lookup(s, id).value.qty) else l
    case ModifyOp(id, p, x) =>
      if Incoming(s, op).None? then l
      else
        var was := Lookup(s, id).value.qty;
        l.(broughtIn := l.broughtIn + (if x > was then x - was else 0),
           takenOut := l.takenOut + (if was > x then was - x else 0),
           traded := l.traded + Executed(Modify(s, id, p, x).trades))
  }

  ghost function Audit(l: Ledger, s: Book, ops: seq<Op>): Ledger
    decreases |ops|
  {
    if ops == [] then l else Audit(Post(l, s, ops[0]), Step(s, ops[0]), ops[1..])
  }

  /** Each unit traded leaves one buyer and one seller. */
  ghost predicate Balanced(l: Ledger, s: Book) {
    l.submitted + l.broughtIn == 2 * l.traded + Resting(s) + l.cancelled + l.takenOut
  }

  /** A new book satisfies every invariant the run theorems start from. */
  lemma NewBook(s: Book)
    requires IsNew(s)
    ensures Inv(s) && InSync(s) && Balanced(NOTHING_YET, s)
  {
    NewInv(s);
  }

  lemma AddConserves(s: Book, o: Ord)
    requires o.side != NoSide
    ensures Resting(s) + o.qty == Resting(Add(s, o)) + 2 * Executed(Add(s, o).trades) + Dropped(s, o)
  {
    MatchConserves(o, Contra(s, o.side), o.qty);
    if Remaining(s, o) > 0 {
      InsertMembers(Own(s, o.side), Outcome(s, o));
    }
  }

  lemma WithdrawConserves(s: Book, o: Ord)
    requires Inv(s) && o.side != NoSide && o in Own(s, o.side)
    ensures Resting(Withdraw(s, o)) == Resting(s) - o.qty
  {
    SumRemove(Own(s, o.side), o);
  }

  lemma StepBalanced(l: Ledger, s: Book, op: Op)
    requires Inv(s) && Legal(s, op) && Balanced(l, s)
    ensures Balanced(Post(l, s, op), Step(s, op))
  {
    match op
    case AddOp(o) => AddConserves(s, o);
    case CancelOp(id) =>
      LookupIn(s, id);
      if Lookup(s, id).Some? {
        WithdrawConserves(s, Lookup(s, id).value);
      }
    case ModifyOp(id, p, x) =>
      LookupIn(s, id);
      if Incoming(s, op).Some? {
        var o := Lookup(s, id).value;
        WithdrawConserves(s, o);
        AddConserves(Withdraw(s, o), o.(price := p, qty := x, status := Modified));
      }
  }

  /** On every run: submitted + brought in by modifies = 2 * traded + resting + cancelled
      + taken out by modifies. */
  lemma {:induction false} RunBalanced(l: Ledger, s: Book, ops: seq<Op>)
    requires Inv(s) && LegalRun(s, ops) && Balanced(l, s)
    ensures Balanced(Audit(l, s, ops), Run(s, ops))
    decreases |ops|
  {
    if ops != [] {
      StepInv(s, ops[0]);
      StepBalanced(l, s, ops[0]);
      RunBalanced(Post(l, s, ops[0]), Step(s, ops[0]), ops[1..]);
    }
  }

  // ---------------------------------------------------------------- price-time priority

  /** In any state the invariant allows, if an operation trades with b while a stands before
      b by price or by arrival stamp, then a is traded for its whole quantity and is gone. */
  lemma StepRespectsPriority(s: Book, op: Op, a: Ord, b: Ord, t: Trade)
    requires Inv(s) && Legal(s, op) && Incoming(s, op).Some?
    requires var side := Opposite(Incoming(s, op).value.1.side);
      a in Own(s, side) && b in Own(s, side) && Prior(side, a, b)
    requires t in Step(s, op).trades && Passive(Incoming(s, op).value.1, t) == b.id
    ensures a.id !in Step(s, op).index
    ensures exists u :: u in Step(s, op).trades && Passive(Incoming(s, op).value.1, u) == a.id && u.quantity == a.qty
  {
    var e, o := Incoming(s, op).value.0, Incoming(s, op).value.1;
    if op.ModifyOp? { LookupIn(s, op.id); }
    InvSided(s, o.side);
    var q := Contra(s, o.side);
    assert Contra(e, o.side) == q == Own(s, Opposite(o.side));
    StepTrades(e, o);
    MatchRespectsPriority(Opposite(o.side), o, q, o.qty, s.clock, a, b, t);
    assert a.id in Ids(q);
    assert Outcome(e, o).id == o.id != a.id;
  }

  lemma StepTrades(s: Book, o: Ord)
    ensures Add(s, o).trades == Match(o, Contra(s, o.side), o.qty).trades
    ensures var q := Contra(s, o.side);
      Add(s, o).index <= s.index - (Ids(q) - Ids(Match(o, q, o.qty).rest)) + {o.id}
  {
  }

  ghost predicate RestsIn(s: Book, a: Ord) {
    a in s.bids || a in s.asks
  }

  lemma WithdrawMembers(s: Book, o: Ord, x: Ord)
    requires Inv(s) && o.side != NoSide && o in Own(s, o.side)
    ensures RestsIn(Withdraw(s, o), x) <==> RestsIn(s, x) && x.id != o.id
  {
    InvSided(s, o.side);
    RemoveOk(o.side, Own(s, o.side), o.id, s.clock);
    assert o.id in Ids(Own(s, o.side));
    assert x in Contra(s, o.side) ==> x.id in Ids(Contra(s, o.side));
  }

  lemma OneRestsPerId(s: Book, a: Ord, b: Ord)
    requires Inv(s) && RestsIn(s, a) && RestsIn(s, b) && a.id == b.id
    ensures a == b
  {
    LookupIn(s, a.id);
  }

  /** A resting order that no modify names keeps its price and its arrival stamp, hence its
      rank among those that stay. */
  lemma StepKeepsRank(s: Book, op: Op, a: Ord, b: Ord)
    requires Inv(s) && Legal(s, op)
    requires RestsIn(s, a) && RestsIn(Step(s, op), b)
    requires a.id == b.id && !(op.ModifyOp? && op.id == a.id)
    ensures Remainder(b, a)
  {
    assert a.qty > 0;
    StepIncoming(s, op);
    match op
    case AddOp(o) =>
      LookupIn(s, a.id);
      assert s.index - {o.id} == s.index;
      AddKeepsRank(s, o, a, b);
    case CancelOp(id) =>
      LookupIn(s, id);
      if Lookup(s, id).Some? {
        WithdrawMembers(s, Lookup(s, id).value, b);
      }
      OneRestsPerId(s, a, b);
    case ModifyOp(id, p, x) =>
      LookupIn(s, id);
      if Incoming(s, op).Some? {
        var o := Lookup(s, id).value;
        WithdrawMembers(s, o, a);
        WithdrawInv(s, o);
        AddKeepsRank(Withdraw(s, o), o.(price := p, qty := x, status := Modified), a, b);
      } else {
        OneRestsPerId(s, a, b);
      }
  }

  lemma AddSides(s: Book, o: Ord)
    requires o.side != NoSide
    ensures Contra(Add(s, o), o.side) == Match(o, Contra(s, o.side), o.qty).rest
    ensures Own(Add(s, o), o.side) ==
      if Remaining(s, o) > 0 then Insert(Own(s, o.side), Outcome(s, o)) else Own(s, o.side)
  {
    MatchConserves(o, Contra(s, o.side), o.qty);
  }

  lemma OneOfEachId(q: seq<Ord>, a: Ord, b: Ord)
    requires DistinctIds(q) && a in q && b in q && a.id == b.id
    ensures a == b
  {
  }

  lemma LeftoverFrom(rest: seq<Ord>, q: seq<Ord>, b: Ord) returns (a: Ord)
    requires Leftover(rest, q) && Positive(q) && b in rest
    ensures a in q && Remainder(b, a)
  {
    var i :| 0 <= i < |rest| && rest[i] == b;
    LeftoverAt(rest, q, i);
    a := q[|q| - |rest| + i];
  }

  lemma AddKeepsRank(s: Book, o: Ord, a: Ord, b: Ord)
    requires Inv(s.(index := s.index - {o.id})) && o.side != NoSide
    requires RestsIn(s, a) && RestsIn(Add(s, o), b)
    requires a.id == b.id != o.id
    ensures Remainder(b, a)
  {
    var q, own := Contra(s, o.side), Own(s, o.side);
    InvSided(s.(index := s.index - {o.id}), o.side);
    AddSides(s, o);
    InsertMembers(own, Outcome(s, o));
    assert a in q ==> a.id in Ids(q);
    assert a in own ==> a.id in Ids(own);
    if b in Match(o, q, o.qty).rest {
      MatchLeavesSuffix(o, q, o.qty);
      var c := LeftoverFrom(Match(o, q, o.qty).rest, q, b);
      assert c.id in Ids(q);
      OneOfEachId(q, a, c);
    } else {
      assert b in own && b.id in Ids(own);
      OneOfEachId(own, a, b);
    }
  }

  /** What enters the book has a side and no order of its id left in the way. */
  lemma IncomingEnters(s: Book, op: Op)
    requires Inv(s) && Legal(s, op) && Incoming(s, op).Some?
    ensures var e, o := Incoming(s, op).value.0, Incoming(s, op).value.1;
      Inv(e.(index := e.index - {o.id})) && o.side != NoSide && o.id !in Ids(e.bids) + Ids(e.asks)
  {
    if op.ModifyOp? {
      LookupIn(s, op.id);
      WithdrawInv(s, Lookup(s, op.id).value);
    } else {
      assert s.index - {op.order.id} == s.index;
    }
  }

  lemma AddRestsAtBack(s: Book, o: Ord)
    requires Inv(s.(index := s.index - {o.id})) && o.side != NoSide && o.id !in Ids(s.bids) + Ids(s.asks)
    requires Remaining(s, o) > 0
    ensures var before := AtPrice(Own(s, o.side), o.price);
      && AtPrice(Own(Add(s, o), o.side), o.price) == before + [Outcome(s, o)]
      && forall y :: y in before ==> y.id != o.id && y.stamp < Outcome(s, o).stamp
  {
    var own := Own(s, o.side);
    AddSides(s, o);
    InvSided(s.(index := s.index - {o.id}), o.side);
    InsertAtPrice(own, Outcome(s, o), o.price);
    forall y | y in AtPrice(own, o.price) ensures y.id != o.id && y.stamp < s.clock {
      AtPriceMember(own, o.price, y);
      assert y.id in Ids(own);
    }
  }

  /** Whatever comes to rest, new or modified, goes behind every order already at its price. */
  lemma RestsAtBack(s: Book, op: Op)
    requires Inv(s) && Legal(s, op) && Incoming(s, op).Some?
    requires Remaining(Incoming(s, op).value.0, Incoming(s, op).value.1) > 0
    ensures var o := Incoming(s, op).value.1;
      var before := AtPrice(Own(Incoming(s, op).value.0, o.side), o.price);
      && AtPrice(Own(Step(s, op), o.side), o.price) == before + [Outcome(Incoming(s, op).value.0, o)]
      && forall y :: y in before ==> y.id != o.id && y.stamp < Outcome(Incoming(s, op).value.0, o).stamp
  {
    hide AtPrice, Add, Outcome, Remaining, Inv, Legal, Step, Incoming;
    StepIncoming(s, op);
    IncomingEnters(s, op);
    AddRestsAtBack(Incoming(s, op).value.0, Incoming(s, op).value.1);
  }
}
