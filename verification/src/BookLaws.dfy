/** Equations between operations of the book. */
module BookLaws {
  import opened Types
  import opened OrderQueue
  import opened Matching
  import opened LevelCache
  import opened Book
  import opened BookRuns

  // ---------------------------------------------------------------- modify = cancel; add

  function ForgetStatus(q: seq<Ord>): seq<Ord> {
    if q == [] then [] else [q[0].(status := NoStatus)] + ForgetStatus(q[1..])
  }

  /** Same books, index, aggregates, trades and clock; order status aside. */
  ghost predicate SameButStatus(s: Book, t: Book) {
    && ForgetStatus(s.bids) == ForgetStatus(t.bids)
    && ForgetStatus(s.asks) == ForgetStatus(t.asks)
    && s.index == t.index && s.cache == t.cache && s.trades == t.trades && s.clock == t.clock
  }

  lemma {:induction false} InsertForgets(q: seq<Ord>, a: Ord, b: Ord)
    requires a.(status := NoStatus) == b.(status := NoStatus)
    ensures ForgetStatus(Insert(q, a)) == ForgetStatus(Insert(q, b))
  {
    if q == [] || Better(a.side, a.price, q[0].price) {
      assert ([a] + q)[1..] == q && ([b] + q)[1..] == q;
    } else {
      InsertForgets(q[1..], a, b);
      assert Insert(q, a)[1..] == Insert(q[1..], a) && Insert(q, b)[1..] == Insert(q[1..], b);
    }
  }

  /** The status an order enters with decides only the status it rests with; and an index
      entry of its own id makes no difference if the order trades out or rests. */
  lemma AddForgetsStatus(s: Book, t: Book, a: Ord, b: Ord)
    requires t == s.(index := s.index - {a.id})
    requires a.(status := NoStatus) == b.(status := NoStatus)
    requires a.side != NoSide && Rests(a, a.qty) && a.id !in Ids(s.bids) + Ids(s.asks)
    ensures SameButStatus(Add(s, a), Add(t, b))
  {
    var q := Contra(s, a.side);
    MatchTaker(a, b, q, a.qty);
    MatchConserves(a, q, a.qty);
    MatchCacheTaker(s.cache, a, b, q, a.qty);
    var u, v := Take(s, a), Take(t, b);
    assert u.index - {a.id} == v.index - {a.id} && u.index + {a.id} == v.index + {a.id};
    assert v.index - {a.id} == v.index;
    if Remaining(s, a) > 0 {
      InsertForgets(Own(s, a.side), Outcome(s, a), Outcome(t, b));
    }
  }

  /** ModifyOrder of a live order with changed values is CancelOrder followed by AddOrder of
      the same id, side and type with the new values. */
  lemma ModifyIsCancelThenAdd(s: Book, id: OrderId, p: Price, x: Quantity, o: Ord, entrant: Ord)
    requires Inv(s) && Lookup(s, id) == Some(o) && x > 0 && !(o.price == p && o.qty == x)
    requires entrant == o.(price := p, qty := x, status := New)
    ensures SameButStatus(Modify(s, id, p, x), Add(Cancel(s, id), entrant))
  {
    LookupIn(s, id);
    WithdrawInv(s, o);
    InvSided(s, o.side);
    AddForgetsStatus(Withdraw(s, o), Cancel(s, id), o.(price := p, qty := x, status := Modified), entrant);
  }

  // ---------------------------------------------------------------- add; cancel = nothing

  /** A modify to quantity zero is a cancel that leaves the record behind. */
  lemma ModifyToNothing(s: Book, id: OrderId, p: Price, o: Ord)
    requires Inv(s) && Lookup(s, id) == Some(o)
    ensures Modify(s, id, p, 0) == Cancel(s, id).(index := s.index, trades := [])
  {
    LookupIn(s, id);
    InvSided(s, o.side);
    var w, n := Withdraw(s, o), o.(price := p, qty := 0, status := Modified);
    var q := Contra(w, n.side);
    assert Match(n, q, 0) == Matched(q, [], 0);
    assert w.index - (Ids(q) - Ids(q)) == w.index;
  }

  lemma {:induction false} RemoveInserted(q: seq<Ord>, o: Ord)
    requires o.id !in Ids(q)
    ensures Remove(Insert(q, o), o.id) == q
  {
    if q == [] || Better(o.side, o.price, q[0].price) {
      assert ([o] + q)[1..] == q;
    } else {
      IdsCons(q);
      RemoveInserted(q[1..], o);
      assert Insert(q, o)[1..] == Insert(q[1..], o);
    }
  }

  /** updateLevelOnFill undoes updateLevelOnAdd exactly when the addition did not wrap. */
  lemma FillUndoesAddIff(c: Cache, a: seq<Ord>, b: seq<Ord>, p: Price, x: Quantity)
    requires AgreesAt(c, a, b, p) && Positive(a) && Positive(b) && x > 0
    ensures FillLevel(AddLevel(c, p, x), p, x, true) == c <==> TotalAt(a, b, p) + x < TWO_32
  {
    AtPricePositive(a, p);
    AtPricePositive(b, p);
    var d := FillLevel(AddLevel(c, p, x), p, x, true);
    if p !in c {
      assert d == c;
    } else if TotalAt(a, b, p) + x < TWO_32 {
      assert d == c;
    } else {
      assert p !in d;
    }
  }

  /** A LIMIT order that crosses nothing, cancelled again, leaves both books and the index
      as they were; an exact level cache too, if and only if the level could hold the order
      in 32 bits. */
  lemma AddThenCancel(s: Book, o: Ord)
    requires Inv(s) && o.side != NoSide && o.id !in s.index && Rests(o, o.qty)
    requires forall b :: b in Contra(s, o.side) ==> !Crosses(o, b.price)
    ensures var t := Cancel(Add(s, o), o.id);
      && t.(cache := s.cache) == s.(trades := [], clock := s.clock + 1)
      && (InSync(s) ==> (t.cache == s.cache <==> TotalAt(s.bids, s.asks, o.price) + o.qty < TWO_32))
  {
    var done := Outcome(s, o);
    AddWithoutCross(s, o);
    AddFreshInvIff(s, o);
    LookupIn(Add(s, o), o.id);
    InsertFound(Own(s, o.side), done);
    assert Lookup(Add(s, o), o.id) == Some(done);
    InvSided(s, o.side);
    RemoveInserted(Own(s, o.side), done);
    if InSync(s) {
      assert AgreesAt(s.cache, s.bids, s.asks, o.price);
      FillUndoesAddIff(s.cache, s.bids, s.asks, o.price, o.qty);
    }
    assert s.index + {o.id} - {o.id} == s.index;
  }

  lemma AddWithoutCross(s: Book, o: Ord)
    requires o.side != NoSide && Rests(o, o.qty)
    requires forall b :: b in Contra(s, o.side) ==> !Crosses(o, b.price)
    ensures Add(s, o) == Place(s.(trades := []), Outcome(s, o)) && Outcome(s, o).qty == o.qty
  {
    var q := Contra(s, o.side);
    assert q != [] ==> q[0] in q;
    assert Match(o, q, o.qty) == Matched(q, [], o.qty);
    assert s.index - (Ids(q) - Ids(q)) == s.index;
  }

  // ---------------------------------------------------------------- splitting a market order

  /** MARKET (or IOC) quantity q1 and then q2 does to the book what q1 + q2 does at once, to
      the level cache as well, exact or not. */
  lemma MarketSplit(s: Book, m1: Ord, m2: Ord, m: Ord)
    requires Inv(s) && m.side != NoSide && Aggressive(m.otype)
    requires m.side == m1.side == m2.side && m.otype == m1.otype == m2.otype && m.price == m1.price == m2.price
    requires m.qty == m1.qty + m2.qty && m.id !in s.index && m1.id !in s.index && m2.id !in s.index
    ensures var one, two := Add(s, m), Add(Add(s, m1), m2);
      && two == one.(trades := two.trades)
      && Executed(Add(s, m1).trades) + Executed(two.trades) == Executed(one.trades)
      && Notional(Add(s, m1).trades) + Notional(two.trades) == Notional(one.trades)
  {
    var one, half := Add(s, m), Add(s, m1);
    var two := Add(half, m2);
    InvSided(s, m.side);
    AggressiveAdd(s, m);
    AggressiveAdd(s, m1);
    AggressiveAdd(half, m2);
    MatchTaker(m, m1, Contra(s, m.side), m1.qty);
    MatchSplit(m, m2, Contra(s, m.side), m1.qty, m2.qty, m.qty);
    assert Contra(one, m.side) == Contra(two, m.side);
    assert half.cache == MatchCache(s.cache, m1, Contra(s, m.side), m1.qty);
    MatchCacheTaker(s.cache, m, m1, Contra(s, m.side), m1.qty);
    MatchCacheSplit(s.cache, m, m2, Contra(s, m.side), m1.qty, m2.qty, m.qty);
  }

  lemma AggressiveAdd(s: Book, m: Ord)
    requires Inv(s) && m.side != NoSide && Aggressive(m.otype) && m.id !in s.index
    ensures Inv(Add(s, m)) && (InSync(s) ==> InSync(Add(s, m))) && Add(s, m).index <= s.index
    ensures Own(Add(s, m), m.side) == Own(s, m.side) && Add(s, m).clock == s.clock
    ensures Contra(Add(s, m), m.side) == Match(m, Contra(s, m.side), m.qty).rest
    ensures Add(s, m).cache == MatchCache(s.cache, m, Contra(s, m.side), m.qty)
  {
    AddFreshInvIff(s, m);
    TakeInv(s, m);
    if InSync(s) {
      TakeInSync(s, m);
    }
    assert Take(s, m).index - {m.id} == Take(s, m).index;
  }

  // ---------------------------------------------------------------- cancelling a set of orders

  function CancelAll(s: Book, ids: seq<OrderId>): Book
    decreases |ids|
  {
    if ids == [] then s else CancelAll(Cancel(s, ids[0]), ids[1..])
  }

  lemma {:induction false} WithoutOne(q: seq<Ord>, id: OrderId, ids: set<OrderId>)
    requires DistinctIds(q)
    ensures Without(Remove(q, id), ids) == Without(q, ids + {id})
  {
    if q != [] {
      if q[0].id == id {
        WithoutFresh(q[1..], id, ids);
      } else {
        WithoutOne(q[1..], id, ids);
        assert Remove(q, id)[1..] == Remove(q[1..], id);
      }
    }
  }

  lemma {:induction false} WithoutFresh(q: seq<Ord>, id: OrderId, ids: set<OrderId>)
    requires forall x :: x in q ==> x.id != id
    ensures Without(q, ids) == Without(q, ids + {id})
  {
    if q != [] {
      WithoutFresh(q[1..], id, ids);
    }
  }

  lemma {:induction false} WithoutNothing(q: seq<Ord>)
    ensures Without(q, {}) == q
  {
    if q != [] {
      WithoutNothing(q[1..]);
    }
  }

  lemma CancelStays(s: Book, id: OrderId)
    requires Inv(s)
    ensures var t := Cancel(s, id);
      && Inv(t) && (InSync(s) ==> InSync(t)) && t.index == s.index - {id} && t.trades == s.trades && t.clock == s.clock
  {
    LookupIn(s, id);
    CancelInv(s, id);
    if Lookup(s, id).Some? && InSync(s) {
      WithdrawInSync(s, Lookup(s, id).value);
    }
  }

  lemma CancelSide(s: Book, id: OrderId, side: BuySell, ids: set<OrderId>)
    requires Inv(s) && side != NoSide
    ensures Without(Own(Cancel(s, id), side), ids) == Without(Own(s, side), ids + {id})
  {
    LookupIn(s, id);
    InvSided(s, side);
    if Lookup(s, id).Some? && Lookup(s, id).value.side == side {
      WithoutOne(Own(s, side), id, ids);
    } else {
      forall x | x in Own(s, side) ensures x.id != id { assert x.id in Ids(Own(s, side)); }
      WithoutFresh(Own(s, side), id, ids);
    }
  }

  ghost function SetOf(ids: seq<OrderId>): set<OrderId> {
    set i | i in ids
  }

  /** Cancelling a list of ids filters them out of every level, keeping the order of the
      rest, and drops them from the index; an exact cache stays exact. */
  lemma {:induction false} CancelAllFilters(s: Book, ids: seq<OrderId>)
    requires Inv(s)
    ensures var t := CancelAll(s, ids);
      && Inv(t) && (InSync(s) ==> InSync(t)) && t.trades == s.trades && t.clock == s.clock
      && t.index == s.index - SetOf(ids)
      && t.bids == Without(s.bids, SetOf(ids))
      && t.asks == Without(s.asks, SetOf(ids))
    decreases |ids|
  {
    if ids == [] {
      WithoutNothing(s.bids);
      WithoutNothing(s.asks);
      assert SetOf(ids) == {};
    } else {
      var rest := SetOf(ids[1..]);
      assert SetOf(ids) == rest + {ids[0]};
      CancelStays(s, ids[0]);
      CancelSide(s, ids[0], Buy, rest);
      CancelSide(s, ids[0], Sell, rest);
      CancelAllFilters(Cancel(s, ids[0]), ids[1..]);
    }
  }

  /** A cancel leaves every other order where it is. */
  lemma CancelAfter(s: Book, a: OrderId, b: OrderId)
    requires Inv(s) && a != b
    ensures Lookup(Cancel(s, a), b) == Lookup(s, b)
  {
    CancelInv(s, a);
    LookupIn(s, a);
    LookupIn(s, b);
    LookupIn(Cancel(s, a), b);
    if Lookup(s, b).Some? && Lookup(s, a).Some? {
      var o := Lookup(s, b).value;
      WithdrawMembers(s, Lookup(s, a).value, o);
      assert RestsIn(Cancel(s, a), o);
    }
  }

  lemma CancelsCommute(s: Book, a: OrderId, b: OrderId)
    requires Inv(s)
    ensures Cancel(Cancel(s, a), b) == Cancel(Cancel(s, b), a)
  {
    if a != b {
      CancelAfter(s, a, b);
      CancelAfter(s, b, a);
      if Lookup(s, a).Some? && Lookup(s, b).Some? {
        var x, y := Lookup(s, a).value, Lookup(s, b).value;
        FillsCommute(s.cache, x.price, x.qty, y.price, y.qty);
      }
      CancelTwice(s, a, b);
      CancelTwice(s, b, a);
      assert {a} + {b} == {b} + {a};
    }
  }

  /** Books, index, trades and clock after two cancels. */
  lemma CancelTwice(s: Book, a: OrderId, b: OrderId)
    requires Inv(s)
    ensures var t := Cancel(Cancel(s, a), b);
      && t.index == s.index - ({a} + {b}) && t.trades == s.trades && t.clock == s.clock
      && t.bids == Without(s.bids, {a} + {b}) && t.asks == Without(s.asks, {a} + {b})
  {
    hide Cancel, Without, Inv;
    var t := Cancel(Cancel(s, a), b);
    CancelStays(s, a);
    CancelStays(Cancel(s, a), b);
    CancelBoth(s, a, b, Buy);
    CancelBoth(s, a, b, Sell);
  }

  lemma CancelBoth(s: Book, a: OrderId, b: OrderId, side: BuySell)
    requires Inv(s) && side != NoSide
    ensures Own(Cancel(Cancel(s, a), b), side) == Without(Own(s, side), {a} + {b})
  {
    hide Cancel, Inv, Without;
    CancelInv(s, a);
    var t := Cancel(Cancel(s, a), b);
    WithoutNothing(Own(t, side));
    CancelSide(Cancel(s, a), b, side, {});
    CancelSide(s, a, side, {b});
    assert {} + {b} == {b} && {b} + {a} == {a} + {b};
  }

  /** A cancel that the list will make anyway may as well come first. */
  lemma {:induction false} CancelFirst(s: Book, ids: seq<OrderId>, id: OrderId)
    requires Inv(s) && id in ids
    ensures CancelAll(s, ids) == CancelAll(Cancel(s, id), ids)
    decreases |ids|
  {
    CancelInv(s, ids[0]);
    if ids[0] == id {
      CancelAgain(s, id);
    } else {
      CancelFirst(Cancel(s, ids[0]), ids[1..], id);
      CancelsCommute(s, ids[0], id);
    }
  }

  lemma CancelAgain(s: Book, id: OrderId)
    requires Inv(s)
    ensures Cancel(Cancel(s, id), id) == Cancel(s, id)
  {
    CancelInv(s, id);
    LookupIn(Cancel(s, id), id);
  }

  lemma {:induction false} CancelBefore(s: Book, ids: seq<OrderId>, other: seq<OrderId>)
    requires Inv(s) && SetOf(ids) <= SetOf(other)
    ensures CancelAll(s, other) == CancelAll(CancelAll(s, ids), other)
    decreases |ids|
  {
    if ids != [] {
      CancelInv(s, ids[0]);
      assert ids[0] in SetOf(ids);
      CancelFirst(s, other, ids[0]);
      assert forall i :: i in ids[1..] ==> i in SetOf(ids);
      CancelBefore(Cancel(s, ids[0]), ids[1..], other);
    }
  }

  lemma {:induction false} CancelNothing(s: Book, ids: seq<OrderId>)
    requires Inv(s) && s.index !! SetOf(ids)
    ensures CancelAll(s, ids) == s
    decreases |ids|
  {
    if ids != [] {
      assert ids[0] in SetOf(ids);
      LookupIn(s, ids[0]);
      assert forall i :: i in SetOf(ids[1..]) ==> i in SetOf(ids);
      CancelNothing(s, ids[1..]);
    }
  }

  /** Hence the order in which a set of ids is visited, and repetitions, do not matter: not to
      books and index, and not to the level cache, exact or not. */
  lemma CancelAllAnyOrder(s: Book, ids: seq<OrderId>, other: seq<OrderId>)
    requires Inv(s) && SetOf(ids) == SetOf(other)
    ensures CancelAll(s, ids) == CancelAll(s, other)
  {
    hide Inv, CancelAll;
    CancelBefore(s, ids, other);
    CancelAllFilters(s, ids);
    CancelNothing(CancelAll(s, ids), other);
  }

  // ---------------------------------------------------------------- best prices

  datatype Quote = Quote(has: bool, price: Price, qty: Quantity)

  /** GetBestBid and GetBestAsk: the quantity is summed in 32 bits and a zero sum reads as
      "no quote". */
  function Best(q: seq<Ord>): Quote {
    if q == [] then Quote(false, 0, 0)
    else
      var total := Wrap32(Sum(AtPrice(q, q[0].price)));
      Quote(total > 0, q[0].price, total)
  }

  /** What GetBestBidAsk reports for one side. */
  function Shown(q: seq<Ord>): Quote {
    if Best(q).has then Best(q) else Quote(false, 0, 0)
  }

  lemma BestLevelPositive(side: BuySell, q: seq<Ord>, clock: nat)
    requires SideOk(side, q, clock) && q != []
    ensures Sum(AtPrice(q, q[0].price)) > 0
  {
    AtPriceMember(q, q[0].price, q[0]);
    AtPricePositive(q, q[0].price);
  }

  /** A side is quoted exactly when its best level's total is not a multiple of 2^32; in
      particular, when no level reaches 2^32, exactly when it is not empty. */
  lemma ShownIff(side: BuySell, q: seq<Ord>, clock: nat)
    requires SideOk(side, q, clock)
    ensures Shown(q).has <==> q != [] && Sum(AtPrice(q, q[0].price)) % 0x1_0000_0000 != 0
    ensures Shown(q) == if Shown(q).has then Quote(true, q[0].price, Sum(AtPrice(q, q[0].price)) % 0x1_0000_0000)
                        else Quote(false, 0, 0)
    ensures Best(q).price == (if q == [] then 0 else q[0].price) && Best(q).qty == Shown(q).qty
    ensures q != [] ==> Sum(AtPrice(q, q[0].price)) > 0
    ensures q != [] && Sum(AtPrice(q, q[0].price)) < TWO_32 ==>
      Shown(q) == Quote(true, q[0].price, Sum(AtPrice(q, q[0].price)))
  {
    hide AtPrice, Sum, SideOk;
    if q != [] {
      BestLevelPositive(side, q, clock);
    }
  }

  /** With positive resting prices: when both sides are shown the bid is below the ask, and
      a zero price means exactly that the side is not quoted. */
  lemma QuotesUncrossed(s: Book)
    requires Inv(s)
    requires forall a :: RestsIn(s, a) ==> a.price > 0
    ensures Shown(s.bids).price > 0 && Shown(s.asks).price > 0 ==> Shown(s.bids).price < Shown(s.asks).price
    ensures Shown(s.bids).price == 0 <==> !Shown(s.bids).has
    ensures Shown(s.asks).price == 0 <==> !Shown(s.asks).has
    ensures Fits(s.bids, s.asks) ==> (Shown(s.bids).price == 0 <==> s.bids == [])
    ensures Fits(s.bids, s.asks) ==> (Shown(s.asks).price == 0 <==> s.asks == [])
  {
    ShownIff(Buy, s.bids, s.clock);
    ShownIff(Sell, s.asks, s.clock);
    assert s.bids != [] ==> RestsIn(s, s.bids[0]);
    assert s.asks != [] ==> RestsIn(s, s.asks[0]);
    if Fits(s.bids, s.asks) {
      assert s.bids != [] ==> TotalAt(s.bids, s.asks, s.bids[0].price) < TWO_32;
      assert s.asks != [] ==> TotalAt(s.bids, s.asks, s.asks[0].price) < TWO_32;
    }
  }

  /** A book with orders on one side only takes another one without a trade. */
  lemma AddToBids(s: Book, o: Ord)
    requires s.asks == [] && o.side == Buy && Rests(o, o.qty)
    ensures var t := Add(s, o);
      && t.bids == Insert(s.bids, Outcome(s, o)) && t.asks == [] && t.index == s.index + {o.id}
      && t.cache == AddLevel(s.cache, o.price, o.qty)
      && Outcome(s, o).price == o.price && Outcome(s, o).qty == o.qty && Outcome(s, o).side == Buy
  {
    AddWithoutCross(s, o);
  }

  lemma TwoAtOnePrice(q: seq<Ord>, a: Ord, b: Ord, p: Price)
    requires |q| == 2 && q[0] == a && q[1] == b && a.price == b.price == p
    ensures Sum(AtPrice(q, p)) == a.qty + b.qty
  {
    var tail := q[1..];
    assert tail[0] == b && tail[1..] == [];
    var w, v := AtPrice(tail, p), AtPrice(q, p);
    assert AtPrice(tail[1..], p) == [];
    assert |w| == 1 && w[0] == b;
    assert w[1..] == [];
    assert v[0] == a && v[1..] == w;
    assert Sum(w) == b.qty;
  }

  /** The bound is needed, on a run from a new book: two bids at one price that together make
      2^32 (2^31 each at 100, say) leave the side reading as empty and a cache entry with a
      total of zero, so the cache is not exact along the run. */
  lemma FullLevelReadsEmpty(s: Book, a: Ord, b: Ord)
    requires IsNew(s) && a.side == b.side == Buy && a.price == b.price && a.id != b.id
    requires Rests(a, a.qty) && Rests(b, b.qty) && a.qty + b.qty == TWO_32
    ensures var ops := [AddOp(a), AddOp(b)];
      && LegalRun(s, ops) && |Run(s, ops).bids| == 2
      && Shown(Run(s, ops).bids) == Quote(false, 0, 0)
      && Run(s, ops).cache == map[a.price := LevelData(a.price, 0, 2)]
      && !AlwaysInSync(s, ops)
  {
    hide Add, Shown, AtPrice, Sum, Inv, InSync;
    var ops, t := [AddOp(a), AddOp(b)], Add(s, a);
    var u, rest := Add(t, b), ops[1..];
    assert rest == [AddOp(b)];
    TwoBids(s, a, b);
    RunOne(t, rest);
    assert Step(t, rest[0]) == u && Step(s, ops[0]) == t;
    FullIsNotShown(u, a.price, a.qty, b.qty);
    NewInv(s);
    RunInSyncIff(s, ops);
    assert !AlwaysFits(t, rest);
  }

  lemma RunOne(s: Book, ops: seq<Op>)
    requires |ops| == 1
    ensures Run(s, ops) == Step(s, ops[0]) && (LegalRun(s, ops) <==> Legal(s, ops[0]))
    ensures AlwaysFits(s, ops) ==> Fits(Step(s, ops[0]).bids, Step(s, ops[0]).asks)
  {
    hide Step, Legal, Fits;
    var t, none := Step(s, ops[0]), ops[1..];
    assert none == [];
    assert Run(t, none) == t && LegalRun(t, none);
    assert AlwaysFits(s, ops) ==> AlwaysFits(t, none);
  }

  lemma FullIsNotShown(s: Book, p: Price, x: Quantity, y: Quantity)
    requires |s.bids| == 2 && s.bids[0].price == s.bids[1].price == p && s.bids[0].qty == x && s.bids[1].qty == y
    requires x + y == TWO_32
    ensures Shown(s.bids) == Quote(false, 0, 0) && !Fits(s.bids, s.asks)
  {
    TwoAtOnePrice(s.bids, s.bids[0], s.bids[1], p);
    hide AtPrice, Sum;
    FullTotalIsZero(x, y);
    assert TotalAt(s.bids, s.asks, p) >= TWO_32;
  }

  lemma FullTotalIsZero(x: Quantity, y: Quantity)
    requires x + y == TWO_32
    ensures Wrap32(x + y) == 0
  {
  }

  /** What the two adds leave. */
  lemma TwoBids(s: Book, a: Ord, b: Ord)
    requires IsNew(s) && a.side == b.side == Buy && a.price == b.price && a.id != b.id
    requires Rests(a, a.qty) && Rests(b, b.qty) && a.qty + b.qty == TWO_32
    ensures var u := Add(Add(s, a), b);
      && |u.bids| == 2 && u.bids[0].price == u.bids[1].price == a.price
      && u.bids[0].qty == a.qty && u.bids[1].qty == b.qty && b.id !in Add(s, a).index
      && u.cache == map[a.price := LevelData(a.price, 0, 2)]
  {
    hide Add, Outcome;
    var t, x, y := Add(s, a), Outcome(s, a), Outcome(Add(s, a), b);
    AddToBids(s, a);
    AddToBids(t, b);
    assert t.bids == [x];
    assert t.bids[1..] == [];
    assert Insert(t.bids, y) == [x] + [y];
    FullTotalIsZero(a.qty, b.qty);
  }
}
