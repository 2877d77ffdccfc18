/** src/Orderbook.cpp with its state in place: two price maps of FIFO lists of shared order
    objects, the id index, the level cache and the trade log. Every method is proved
    against the functions of module Book. */
module Orderbooks {
  import opened Types
  import opened Orders
  import opened OrderQueue
  import opened Matching
  import opened LevelCache
  import opened Book
  import opened BookLaws

  /** std::map<Price, std::list<OrderPointer>>; the comparator is the side. */
  type Levels = map<Price, seq<Order>>

  ghost function Objects(m: Levels): set<Order> {
    set p, o | p in m && o in m[p] :: o
  }

  ghost predicate Shows(list: seq<Order>, v: seq<Ord>)
    reads list
  {
    |list| == |v| && forall i :: 0 <= i < |list| ==> list[i].View() == v[i]
  }

  /** The lists of m, read through the heap, are the levels of q. */
  ghost predicate Represents(m: Levels, q: seq<Ord>)
    reads Objects(m)
  {
    && (forall p :: p in m ==>
          assert forall o :: o in m[p] ==> o in Objects(m);
          Shows(m[p], AtPrice(q, p)))
    && (forall x :: x in q ==> x.price in m)
  }

  ghost predicate NoEmptyLevel(m: Levels) {
    forall p :: p in m ==> m[p] != []
  }

  /** Index and lists hold the same objects. */
  ghost predicate Indexed(m: Levels, orders: map<OrderId, Order>) {
    forall o :: o in Objects(m) ==> o.id in orders && orders[o.id] == o
  }

  // ---------------------------------------------------------------- lemmas on lists

  lemma BestFirst(side: BuySell, q: seq<Ord>, p: Price)
    requires Sorted(side, q) && AtPrice(q, p) != []
    requires forall x :: x in q ==> !Better(side, x.price, p)
    ensures q != [] && q[0].price == p
    ensures AtPrice(q, p) == [q[0]] + AtPrice(q[1..], p)
  {
    var x := AtPrice(q, p)[0];
    AtPriceMember(q, p, x);
    assert q[0] in q;
  }

  lemma BestKey(side: BuySell, m: Levels, q: seq<Ord>)
    requires Represents(m, q) && NoEmptyLevel(m) && Sorted(side, q)
    ensures m == map[] <==> q == []
    ensures q != [] ==> First(side, m, q[0].price)
    ensures q != [] ==> forall p :: First(side, m, p) ==> p == q[0].price
  {
    forall k | k in m ensures q != [] && (k == q[0].price || Better(side, q[0].price, k)) {
      assert Shows(m[k], AtPrice(q, k));
      var x := AtPrice(q, k)[0];
      AtPriceMember(q, k, x);
      assert x == q[0] || Prior(side, q[0], x);
    }
    assert q != [] ==> q[0] in q;
  }

  lemma NoneBetter(side: BuySell, q: seq<Ord>)
    requires Sorted(side, q) && q != []
    ensures forall x :: x in q ==> !Better(side, x.price, q[0].price)
  {
    forall x | x in q ensures !Better(side, x.price, q[0].price) {
      assert x == q[0] || Prior(side, q[0], x);
    }
  }

  predicate First(side: BuySell, m: Levels, p: Price) {
    p in m && forall k :: k in m ==> k == p || Better(side, p, k)
  }

  /** begin(): the key the comparator puts first. */
  method Begin(side: BuySell, m: Levels) returns (p: Price)
    requires exists k :: First(side, m, k)
    ensures First(side, m, p)
  {
    p :| p in m && First(side, m, p);
  }

  /** One level of m replaced by `list`. */
  lemma LevelReplaced(m: Levels, p: Price, list: seq<Order>, q': seq<Ord>)
    requires p in m && forall r :: r in m && r != p ==> Shows(m[r], AtPrice(q', r))
    requires Shows(list, AtPrice(q', p))
    requires forall x :: x in q' ==> x.price in m
    ensures Represents(m[p := list], q')
    ensures list == [] ==> Represents(m - {p}, q')
  {
    if list == [] {
      forall x | x in q' ensures x.price in m - {p} {
        AtPriceMember(q', x.price, x);
      }
    }
  }

  // ---------------------------------------------------------------- lemmas on the loop

  /** Where a matching loop that has made the trades `ts`, has cache c, contra queue q and
      r left to fill will end. A loop iteration may not change it. */
  ghost function Final(o: Ord, ts: seq<Trade>, c: Cache, q: seq<Ord>, r: Quantity):
    (seq<Trade>, seq<Ord>, Quantity, Cache)
  {
    var m := Match(o, q, r);
    (ts + m.trades, m.rest, m.left, MatchCache(c, o, q, r))
  }

  /** What one level's loop may do to the queue: nothing behind it changes. */
  ghost predicate LevelStep(side: BuySell, q: seq<Ord>, q': seq<Ord>, p: Price, clock: nat) {
    && SideOk(side, q', clock)
    && (forall x :: x in q' ==> !Better(side, x.price, p))
    && (forall r :: r != p ==> AtPrice(q', r) == AtPrice(q, r))
    && (forall x :: x in q' ==> x in q || x.price == p)
    && Ids(q') <= Ids(q)
  }

  lemma FinalClosed(o: Ord, ts: seq<Trade>, c: Cache, q: seq<Ord>, r: Quantity)
    requires q != [] && Crosses(o, q[0].price) && 0 < r && q[0].qty <= r
    ensures Final(o, ts, c, q, r)
         == Final(o, ts + [MakeTrade(o, q[0], q[0].qty, if r == q[0].qty then Full else Partial)],
                  FillLevel(c, q[0].price, q[0].qty, true), q[1..], r - q[0].qty)
  {
    var t := MakeTrade(o, q[0], q[0].qty, if r == q[0].qty then Full else Partial);
    Assoc(ts, [t], Match(o, q[1..], r - q[0].qty).trades);
  }

  lemma FinalReduced(o: Ord, ts: seq<Trade>, c: Cache, q: seq<Ord>, r: Quantity)
    requires q != [] && Crosses(o, q[0].price) && 0 < r < q[0].qty
    ensures Final(o, ts, c, q, r)
         == Final(o, ts + [MakeTrade(o, q[0], r, Partial)], FillLevel(c, q[0].price, r, false),
                  [q[0].(qty := q[0].qty - r, status := Modified)] + q[1..], 0)
  {
    var t := MakeTrade(o, q[0], r, Partial);
    assert ts + [t] == ts + [t] + [];
  }

  lemma Assoc(a: seq<Trade>, b: seq<Trade>, c: seq<Trade>)
    ensures a + (b + c) == a + b + c
  {
  }

  lemma LevelStepClosed(side: BuySell, q: seq<Ord>, p: Price, clock: nat)
    requires LevelStep(side, q, q, p, clock) && AtPrice(q, p) != []
    ensures q != [] && q[0].price == p && AtPrice(q, p) == [q[0]] + AtPrice(q[1..], p)
    ensures LevelStep(side, q, q[1..], p, clock)
    ensures Ids(q) - Ids(q[1..]) == {q[0].id}
  {
    BestFirst(side, q, p);
    SideOkHead(side, q, clock);
    SideOkTail(side, q, clock);
    IdsCons(q);
  }

  lemma LevelStepReduced(side: BuySell, q: seq<Ord>, p: Price, clock: nat, head: Ord)
    requires LevelStep(side, q, q, p, clock) && AtPrice(q, p) != []
    requires Remainder(head, AtPrice(q, p)[0])
    ensures q != [] && q[0].price == p && AtPrice(q, p) == [q[0]] + AtPrice(q[1..], p)
    ensures LevelStep(side, q, [head] + q[1..], p, clock)
    ensures AtPrice([head] + q[1..], p) == [head] + AtPrice(q[1..], p)
    ensures Ids([head] + q[1..]) == Ids(q)
  {
    hide SideOk, Ids;
    LevelStepClosed(side, q, p, clock);
    SideOkHead(side, q, clock);
    SideOkCons(side, head, q[1..], clock);
    var q' := [head] + q[1..];
    assert q'[0] == head && q'[1..] == q[1..];
    IdsCons(q);
    IdsCons(q');
    assert forall x :: x in q' ==> x == head || x in q[1..];
  }

  lemma LevelStepTrans(side: BuySell, q: seq<Ord>, q1: seq<Ord>, q2: seq<Ord>, p: Price, clock: nat)
    requires LevelStep(side, q, q1, p, clock) && LevelStep(side, q1, q2, p, clock)
    ensures LevelStep(side, q, q2, p, clock) && LevelStep(side, q2, q2, p, clock)
    ensures Ids(q2) <= Ids(q1) <= Ids(q)
  {
  }

  /** What the head of the level's list is, before it is filled, and what stays behind it. */
  lemma FrontOfLevel(side: BuySell, list: seq<Order>, q: seq<Ord>, p: Price, clock: nat)
    requires LevelStep(side, q, q, p, clock) && Shows(list, AtPrice(q, p)) && list != []
    ensures q != [] && list[0].View() == q[0] && q[0].price == p && q[0].qty > 0
    ensures Shows(list[1..], AtPrice(q[1..], p)) && list[0] !in list[1..]
  {
    BestFirst(side, q, p);
    AtPriceSideOk(side, q, p, clock);
    var v := AtPrice(q, p);
    assert v[1..] == AtPrice(q[1..], p);
    forall i | 0 <= i < |list[1..]| ensures list[1..][i].View() == v[1..][i] && list[1..][i] != list[0] {
      assert list[i + 1].View() == v[i + 1] && list[0].View() == v[0];
    }
  }

  lemma ShowsCons(list: seq<Order>, head: Ord, tail: seq<Ord>)
    requires list != [] && list[0].View() == head && Shows(list[1..], tail)
    ensures Shows(list, [head] + tail)
  {
    forall i | 0 < i < |list| ensures list[i].View() == tail[i - 1] {
      assert list[i] == list[1..][i - 1];
    }
  }

  /** The body's progress over a filled front: queue step and outcome. */
  lemma FrontClosed(o: Ord, side: BuySell, q: seq<Ord>, p: Price, clock: nat, ts: seq<Trade>, c: Cache, r: Quantity)
    requires LevelStep(side, q, q, p, clock) && AtPrice(q, p) != [] && Crosses(o, p)
    requires q != [] && q[0].price == p && 0 < r && q[0].qty <= r
    ensures LevelStep(side, q, q[1..], p, clock)
    ensures Ids(q) - Ids(q[1..]) == {q[0].id}
    ensures Final(o, ts, c, q, r)
         == Final(o, ts + [MakeTrade(o, q[0], q[0].qty, if r == q[0].qty then Full else Partial)],
                  FillLevel(c, p, q[0].qty, true), q[1..], r - q[0].qty)
  {
    FinalClosed(o, ts, c, q, r);
    LevelStepClosed(side, q, p, clock);
  }

  lemma FrontReduced(o: Ord, side: BuySell, q: seq<Ord>, p: Price, clock: nat, ts: seq<Trade>, c: Cache, r: Quantity)
    requires LevelStep(side, q, q, p, clock) && AtPrice(q, p) != [] && Crosses(o, p)
    requires q != [] && q[0].price == p && 0 < r < q[0].qty
    ensures var now := [q[0].(qty := q[0].qty - r, status := Modified)] + q[1..];
      && LevelStep(side, q, now, p, clock) && Ids(now) == Ids(q)
      && AtPrice(now, p) == [now[0]] + AtPrice(q[1..], p)
      && Final(o, ts, c, q, r) == Final(o, ts + [MakeTrade(o, q[0], r, Partial)], FillLevel(c, p, r, false), now, 0)
  {
    FinalReduced(o, ts, c, q, r);
    LevelStepClosed(side, q, p, clock);
    LevelStepReduced(side, q, p, clock, q[0].(qty := q[0].qty - r, status := Modified));
  }

  lemma DropTwice<T>(m: map<OrderId, T>, a: set<OrderId>, b: set<OrderId>, c: set<OrderId>)
    requires c <= b <= a
    ensures m - (a - b) - (b - c) == m - (a - c)
  {
  }

  lemma LevelObjects(m: Levels, p: Price)
    requires p in m
    ensures forall o :: o in m[p] ==> o in Objects(m)
  {
  }

  lemma ObjectInQueue(m: Levels, q: seq<Ord>, p: Price, o: Order)
    requires Represents(m, q) && p in m && o in m[p]
    ensures o.View() in q && o.price == p
  {
    assert Shows(m[p], AtPrice(q, p));
    var i :| 0 <= i < |m[p]| && m[p][i] == o;
    AtPriceMember(q, p, AtPrice(q, p)[i]);
  }

  lemma QueueInObjects(m: Levels, q: seq<Ord>, x: Ord) returns (o: Order)
    requires Represents(m, q) && x in q
    ensures x.price in m && o in m[x.price] && o.View() == x
  {
    AtPriceMember(q, x.price, x);
    assert Shows(m[x.price], AtPrice(q, x.price));
    var i :| 0 <= i < |AtPrice(q, x.price)| && AtPrice(q, x.price)[i] == x;
    o := m[x.price][i];
  }

  /** Different levels hold different objects. */
  lemma LevelsDisjoint(m: Levels, q: seq<Ord>, p: Price)
    requires Represents(m, q) && p in m
    ensures forall r, o :: r in m && r != p && o in m[r] ==> o !in m[p]
  {
    forall r, o | r in m && r != p && o in m[r] ensures o !in m[p] {
      ObjectInQueue(m, q, r, o);
      if o in m[p] {
        ObjectInQueue(m, q, p, o);
      }
    }
  }

  lemma FinalAtEnd(o: Ord, c0: Cache, q0: seq<Ord>, r0: Quantity, ts: seq<Trade>, c: Cache, q: seq<Ord>, r: Quantity)
    requires Final(o, [], c0, q0, r0) == Final(o, ts, c, q, r)
    requires r == 0 || q == [] || !Crosses(o, q[0].price)
    ensures Match(o, q0, r0) == Matched(q, ts, r) && MatchCache(c0, o, q0, r0) == c
  {
    assert [] + Match(o, q0, r0).trades == Match(o, q0, r0).trades;
    assert Match(o, q, r) == Matched(q, [], r) && ts + [] == ts;
  }

  // ---------------------------------------------------------------- lemmas on erase and push_back

  lemma {:induction false} RemoveAtIndex(v: seq<Ord>, i: nat)
    requires i < |v| && forall j :: 0 <= j < i ==> v[j].id != v[i].id
    ensures Remove(v, v[i].id) == v[..i] + v[i + 1..]
  {
    if i > 0 {
      RemoveAtIndex(v[1..], i - 1);
      assert v[1..][..i - 1] == v[1..i];
      assert v[1..][i - 1 + 1..] == v[i + 1..];
      assert v[..i] == [v[0]] + v[1..i];
    }
  }

  lemma ShowsWithout(list: seq<Order>, v: seq<Ord>, i: nat)
    requires Shows(list, v) && i < |list| && forall j :: 0 <= j < i ==> list[j].id != list[i].id
    ensures Shows(list[..i] + list[i + 1..], Remove(v, list[i].id))
  {
    assert forall j :: 0 <= j < |list| ==> list[j].id == v[j].id;
    RemoveAtIndex(v, i);
    var w := v[..i] + v[i + 1..];
    var l := list[..i] + list[i + 1..];
    forall j | 0 <= j < |l| ensures l[j].View() == w[j] {
      if j < i {
        assert l[j] == list[j] && w[j] == v[j];
      } else {
        assert l[j] == list[j + 1] && w[j] == v[j + 1];
      }
    }
  }

  /** Erases the first order with the given id, as the loop of removeOrderFromBook does. */
  method EraseFromList(list: seq<Order>, id: OrderId, ghost v: seq<Ord>) returns (list': seq<Order>)
    requires Shows(list, v) && DistinctIds(v) && exists o :: o in list && o.id == id
    ensures Shows(list', Remove(v, id))
    ensures forall o :: o in list' ==> o in list && o.id != id
  {
    list' := list;
    var i := 0;
    while i < |list'|
      invariant 0 <= i <= |list'| && list' == list
      invariant forall j :: 0 <= j < i ==> list[j].id != id
    {
      if list'[i].id == id {
        ShowsWithout(list, v, i);
        list' := list[..i] + list[i + 1..];
        forall o | o in list' ensures o in list && o.id != id {
          var j :| 0 <= j < |list'| && list'[j] == o;
          var k := if j < i then j else j + 1;
          assert list[k] == o && list[k].View() == v[k] && list[i].View() == v[i];
        }
        return;
      }
      i := i + 1;
    }
  }

  /** erase on the level of order.price, and of the level itself once empty. */
  method EraseFromBook(book: Levels, order: Order, ghost q: seq<Ord>, ghost clock: nat) returns (book': Levels)
    requires Represents(book, q) && NoEmptyLevel(book) && SideOk(order.side, q, clock)
    requires order.View() in q && order.price in book && order in book[order.price]
    ensures Represents(book', Remove(q, order.id)) && NoEmptyLevel(book')
    ensures Objects(book') <= Objects(book) - {order}
  {
    var p := order.price;
    assert Shows(book[p], AtPrice(q, p));
    AtPriceSideOk(order.side, q, p, clock);
    var list := EraseFromList(book[p], order.id, AtPrice(q, p));
    forall r | r in book
      ensures AtPrice(Remove(q, order.id), r) == if r == p then Remove(AtPrice(q, r), order.id) else AtPrice(q, r)
    {
      RemoveAtPrice(q, order.View(), r);
    }
    RemoveOk(order.side, q, order.id, clock);
    LevelReplaced(book, p, list, Remove(q, order.id));
    LevelsDisjoint(book, q, p);
    if list == [] {
      book' := book - {p};
    } else {
      book' := book[p := list];
    }
  }

  /** try_emplace and push_back. */
  method PushBack(book: Levels, order: Order, ghost q: seq<Ord>) returns (book': Levels)
    requires Represents(book, q) && NoEmptyLevel(book) && Sorted(order.side, q)
    ensures Represents(book', Insert(q, order.View())) && NoEmptyLevel(book')
    ensures Objects(book') <= Objects(book) + {order}
  {
    var p := order.price;
    ghost var o := order.View();
    if p in book {
      book' := book[p := book[p] + [order]];
    } else {
      book' := book[p := [order]];
      AtPriceEmptyLevel(book, q, p);
    }
    InsertMembers(q, o);
    forall r | r in book' ensures Shows(book'[r], AtPrice(Insert(q, o), r)) {
      InsertAtPrice(q, o, r);
      assert r in book ==> Shows(book[r], AtPrice(q, r));
    }
  }

  lemma AtPriceEmptyLevel(m: Levels, q: seq<Ord>, p: Price)
    requires Represents(m, q) && p !in m
    ensures AtPrice(q, p) == []
  {
    if AtPrice(q, p) != [] {
      AtPriceMember(q, p, AtPrice(q, p)[0]);
    }
  }

  // ---------------------------------------------------------------- lemmas on the index

  /** Dropping ids that no longer rest keeps every resting order indexed. */
  lemma KeepIndexed(m: Levels, m': Levels, q: seq<Ord>, orders: map<OrderId, Order>, gone: set<OrderId>)
    requires Objects(m') <= Objects(m) && Indexed(m, orders)
    requires Represents(m', q) && gone !! Ids(q)
    ensures Indexed(m', orders - gone)
  {
    forall o | o in Objects(m') ensures o.id in orders - gone && (orders - gone)[o.id] == o {
      var p :| p in m' && o in m'[p];
      ObjectInQueue(m', q, p, o);
      assert o in Objects(m);
      assert o.View().id in Ids(q);
    }
  }

  lemma ObjectIds(m: Levels, q: seq<Ord>)
    requires Represents(m, q)
    ensures forall o :: o in Objects(m) ==> o.id in Ids(q)
  {
    forall o | o in Objects(m) ensures o.id in Ids(q) {
      var p :| p in m && o in m[p];
      ObjectInQueue(m, q, p, o);
      assert o.View().id in Ids(q);
    }
  }

  /** Indexing an order that now rests overwrites no other order's entry. */
  lemma IndexOne(bids: Levels, asks: Levels, bids': Levels, asks': Levels,
                 orders: map<OrderId, Order>, order: Order)
    requires Objects(bids') + Objects(asks') <= Objects(bids) + Objects(asks) + {order}
    requires Indexed(bids, orders) && Indexed(asks, orders)
    requires forall o :: o in Objects(bids) + Objects(asks) ==> o.id != order.id
    ensures Indexed(bids', orders[order.id := order]) && Indexed(asks', orders[order.id := order])
  {
  }

  // ---------------------------------------------------------------- the two halves of addToBook

  /** Matching does not touch the order's own side, and only uses up quantity. */
  lemma AfterTake(s: Book, o: Ord)
    requires SideOk(Buy, s.bids, s.clock) && SideOk(Sell, s.asks, s.clock)
    ensures Sorted(o.side, Own(Take(s, o), o.side))
    ensures Match(o, Contra(s, o.side), o.qty).left <= o.qty
  {
    MatchConserves(o, Contra(s, o.side), o.qty);
  }

  /** An id that rests nowhere does not come to rest by matching. */
  lemma NoClash(s: Book, o: Ord)
    requires Inv(s.(index := s.index - {o.id})) && o.id !in Ids(s.bids) + Ids(s.asks)
    ensures !Clashes(s, o)
  {
    if o.side != NoSide {
      var u := s.(index := s.index - {o.id});
      InvSided(u, o.side);
      MatchKeepsSide(Opposite(o.side), o, Contra(s, o.side), o.qty, s.clock);
    }
  }

  lemma NoTradesInv(s: Book)
    ensures Inv(s.(trades := [])) <==> Inv(s)
  {
  }

  lemma ZeroFill(c: Cache, p: Price)
    ensures FillLevel(c, p, 0, true) == c
  {
  }

  lemma KeepIndexedSubset(bids: Levels, asks: Levels, bids': Levels, asks': Levels, orders: map<OrderId, Order>)
    requires Objects(bids') + Objects(asks') <= Objects(bids) + Objects(asks)
    requires Indexed(bids, orders) && Indexed(asks, orders)
    ensures Indexed(bids', orders) && Indexed(asks', orders)
  {
  }

  // ---------------------------------------------------------------- best level

  lemma SumPrefix(v: seq<Ord>, i: nat)
    requires i < |v|
    ensures Sum(v[..i + 1]) == Sum(v[..i]) + v[i].qty
  {
    assert v[..i + 1] == v[..i] + [v[i]];
    SumAppend(v[..i], v[i]);
  }

  /** A level's quantity, summed in 32 bits. */
  method LevelTotal(list: seq<Order>, ghost v: seq<Ord>) returns (qty: Quantity)
    requires Shows(list, v)
    ensures qty == Wrap32(Sum(v))
  {
    qty := 0;
    for i := 0 to |list|
      invariant qty == Wrap32(Sum(v[..i]))
    {
      SumPrefix(v, i);
      qty := Wrap32(qty + list[i].quantity);
    }
    assert v[..|list|] == v;
  }

  /** The body of GetBestBid and GetBestAsk. */
  method BestLevel(side: BuySell, m: Levels, ghost q: seq<Ord>) returns (has: bool, price: Price, qty: Quantity)
    requires Represents(m, q) && NoEmptyLevel(m) && Sorted(side, q)
    ensures Quote(has, price, qty) == Best(q)
  {
    hide AtPrice, Sorted;
    BestKey(side, m, q);
    if m == map[] {
      return false, 0, 0;
    }
    price := Begin(side, m);
    qty := LevelTotal(m[price], AtPrice(q, price));
    has := qty > 0;
  }

  class Orderbook {
    var bids: Levels
    var asks: Levels
    var orders: map<OrderId, Order>
    var levels: Cache
    var trades: seq<Trade>
    ghost var bidQueue: seq<Ord>
    ghost var askQueue: seq<Ord>
    ghost var clock: nat

    ghost function View(): Book
      reads this
    {
      Book(bidQueue, askQueue, orders.Keys, levels, trades, clock)
    }

    ghost function Live(): set<Order>
      reads this
    {
      Objects(bids) + Objects(asks)
    }

    /** The lists agree with the queues. */
    ghost predicate Listed()
      reads this, Objects(bids), Objects(asks)
    {
      && Represents(bids, bidQueue) && NoEmptyLevel(bids)
      && Represents(asks, askQueue) && NoEmptyLevel(asks)
    }

    /** The fields agree with each other and with the queues. */
    ghost predicate Shaped()
      reads this, Objects(bids), Objects(asks)
    {
      Listed() && Indexed(bids, orders) && Indexed(asks, orders)
    }

    ghost predicate Valid()
      reads this, Objects(bids), Objects(asks)
    {
      Shaped() && Inv(View())
    }

    constructor ()
      ensures Valid() && IsNew(View()) && Live() == {}
    {
      bids, asks, orders, levels, trades := map[], map[], map[], map[], [];
      bidQueue, askQueue, clock := [], [], 0;
      new;
      NewInv(View());
    }

    method UpdateLevelOnAdd(p: Price, x: Quantity)
      modifies this`levels
      ensures levels == AddLevel(old(levels), p, x)
    {
      if x == 0 {
        return;
      }
      var data := if p in levels then levels[p] else LevelData(0, 0, 0);
      data := data.(price := p);
      data := data.(total := Wrap32(data.total + x));
      data := data.(count := Wrap64(data.count + 1));
      levels := levels[p := data];
    }

    method UpdateLevelOnFill(p: Price, x: Quantity, closed: bool)
      modifies this`levels
      ensures levels == FillLevel(old(levels), p, x, closed)
    {
      if x == 0 || p !in levels {
        return;
      }
      var data := levels[p];
      if data.total <= x {
        data := data.(total := 0);
      } else {
        data := data.(total := data.total - x);
      }
      if closed && data.count > 0 {
        data := data.(count := data.count - 1);
      }
      if data.total == 0 || data.count == 0 {
        levels := levels - {p};
      } else {
        levels := levels[p := data];
      }
    }

    /** priceCrossed, for the order's own price, side and type. */
    method PriceCrossed(order: Order, resting: Price) returns (crossed: bool)
      ensures crossed == Crosses(order.View(), resting)
    {
      if order.otype == Market || order.otype == Ioc {
        return true;
      }
      if order.side == Buy {
        return order.price >= resting;
      }
      if order.side == Sell {
        return order.price <= resting;
      }
      return false;
    }

    /** clearOrderRecord; index and lists stay in step if the id does not rest. */
    method ClearOrderRecord(orderId: OrderId)
      requires Listed()
      modifies this`orders
      ensures Listed() && orders == old(orders) - {orderId}
      ensures old(Shaped()) && orderId !in Ids(bidQueue) + Ids(askQueue) ==> Shaped()
    {
      hide AtPrice, Ids;
      ObjectIds(bids, bidQueue);
      ObjectIds(asks, askQueue);
      orders := orders - {orderId};
      assert Represents(bids, bidQueue) && Represents(asks, askQueue);
    }

    /** One fill: both quantities, the level data, the trade log and, if the resting order
        is closed, the index. */
    method Execute(order: Order, resting: Order, p: Price, remaining: Quantity)
      returns (left: Quantity, closed: bool)
      requires order != resting && p == resting.price && order.side != NoSide && remaining > 0
      modifies this`levels, this`trades, this`orders, resting`quantity, resting`status
      ensures closed <==> old(resting.quantity) <= remaining
      ensures left == if closed then remaining - old(resting.quantity) else 0
      ensures closed ==>
        && trades == old(trades) + [MakeTrade(order.View(), old(resting.View()), old(resting.quantity),
                                              if left == 0 then Full else Partial)]
        && resting.View() == old(resting.View()).(qty := 0, status := Traded)
        && levels == FillLevel(old(levels), p, old(resting.quantity), true)
        && orders == old(orders) - {resting.id}
      ensures !closed ==>
        && resting.View() == old(resting.View()).(qty := old(resting.quantity) - remaining, status := Modified)
        && trades == old(trades) + [MakeTrade(order.View(), old(resting.View()), remaining, Partial)]
        && levels == FillLevel(old(levels), p, remaining, false)
        && orders == old(orders)
    {
      var executed: Quantity := if remaining < resting.quantity then remaining else resting.quantity;
      left := remaining - executed;
      var _ := resting.ReduceQuantity(executed);
      closed := resting.IsFilled();
      UpdateLevelOnFill(p, executed, closed);
      var trade := Trade(p, executed,
                         if closed && left == 0 then Full else Partial,
                         if order.side == Buy then order.id else resting.id,
                         if order.side == Sell then order.id else resting.id);
      trades := trades + [trade];
      if closed {
        resting.status := Traded;
        orders := orders - {resting.id};
      } else {
        resting.status := Modified;
      }
    }

    /** The inner loop's body: one fill of the front of the best level. */
    method FillFront(order: Order, p: Price, list: seq<Order>, remaining: Quantity, ghost q: seq<Ord>)
      returns (left: Quantity, closed: bool, ghost q': seq<Ord>)
      requires order.side != NoSide && order !in list && list != [] && remaining > 0
      requires LevelStep(Opposite(order.side), q, q, p, clock)
      requires Shows(list, AtPrice(q, p)) && Crosses(order.View(), p)
      modifies this`levels, this`trades, this`orders, list[0]
      ensures LevelStep(Opposite(order.side), q, q', p, clock)
      ensures Shows(if closed then list[1..] else list, AtPrice(q', p))
      ensures orders == old(orders) - (Ids(q) - Ids(q'))
      ensures Final(order.View(), old(trades), old(levels), q, remaining)
           == Final(order.View(), trades, levels, q', left)
      ensures left <= remaining && (!closed ==> left == 0)
    {
      hide Match, MatchCache, FillLevel, AtPrice, SideOk, LevelStep, Ids;
      ghost var o, side := order.View(), Opposite(order.side);
      var resting := list[0];
      FrontOfLevel(side, list, q, p, clock);
      left, closed := Execute(order, resting, p, remaining);
      if closed {
        FrontClosed(o, side, q, p, clock, old(trades), old(levels), remaining);
        q' := q[1..];
      } else {
        FrontReduced(o, side, q, p, clock, old(trades), old(levels), remaining);
        q' := [resting.View()] + q[1..];
        ShowsCons(list, resting.View(), AtPrice(q[1..], p));
      }
    }

    /** The inner loop: fills the list of the best level from its front. */
    method MatchLevel(order: Order, p: Price, list: seq<Order>, remaining: Quantity, ghost q: seq<Ord>)
      returns (list': seq<Order>, left: Quantity, ghost q': seq<Ord>)
      requires order.side != NoSide && order !in list
      requires LevelStep(Opposite(order.side), q, q, p, clock)
      requires Shows(list, AtPrice(q, p)) && Crosses(order.View(), p)
      modifies this`levels, this`trades, this`orders, list
      ensures LevelStep(Opposite(order.side), q, q', p, clock)
      ensures Shows(list', AtPrice(q', p)) && (forall o :: o in list' ==> o in list)
      ensures orders == old(orders) - (Ids(q) - Ids(q'))
      ensures Final(order.View(), old(trades), old(levels), q, remaining)
           == Final(order.View(), trades, levels, q', left)
      ensures left == 0 || list' == []
      ensures left <= remaining
    {
      hide Match, MatchCache, AtPrice, LevelStep;
      ghost var o, side := order.View(), Opposite(order.side);
      list', left, q' := list, remaining, q;
      var it := 0;
      while it < |list'| && left > 0
        invariant it == 0 || (it == 1 && left == 0)
        invariant order.View() == o && left <= remaining
        invariant LevelStep(side, q, q', p, clock) && LevelStep(side, q', q', p, clock)
        invariant Shows(list', AtPrice(q', p)) && (forall o :: o in list' ==> o in list)
        invariant orders == old(orders) - (Ids(q) - Ids(q'))
        invariant Final(o, old(trades), old(levels), q, remaining) == Final(o, trades, levels, q', left)
        decreases |list'| - it
      {
        ghost var was := q';
        assert list'[0] in list';
        var closed;
        left, closed, q' := FillFront(order, p, list', left, was);
        if closed {
          list' := list'[..it] + list'[it + 1..];
        } else {
          it := it + 1;
        }
        LevelStepTrans(side, q, was, q', p, clock);
        DropTwice(old(orders), Ids(q), Ids(was), Ids(q'));
      }
    }

    /** One iteration of the outer loop, for the best price p. */
    method MatchBestLevel(order: Order, book: Levels, p: Price, remaining: Quantity, ghost q: seq<Ord>)
      returns (book': Levels, left: Quantity, ghost q': seq<Ord>)
      requires order.side != NoSide && order !in Objects(book) && p in book && Crosses(order.View(), p)
      requires Represents(book, q) && NoEmptyLevel(book)
      requires SideOk(Opposite(order.side), q, clock)
      requires forall x :: x in q ==> !Better(Opposite(order.side), x.price, p)
      modifies this`levels, this`trades, this`orders, Objects(book)
      ensures Represents(book', q') && NoEmptyLevel(book') && Objects(book') <= Objects(book)
      ensures SideOk(Opposite(order.side), q', clock) && Ids(q') <= Ids(q)
      ensures orders == old(orders) - (Ids(q) - Ids(q'))
      ensures Final(order.View(), old(trades), old(levels), q, remaining)
           == Final(order.View(), trades, levels, q', left)
      ensures book'.Keys < book.Keys || (book'.Keys == book.Keys && left == 0)
    {
      LevelsDisjoint(book, q, p);
      LevelObjects(book, p);
      assert forall r :: r in book && r != p ==> Shows(book[r], AtPrice(q, r));
      var list;
      list, left, q' := MatchLevel(order, p, book[p], remaining, q);
      forall r | r in book && r != p ensures Shows(book[r], AtPrice(q', r)) {
        forall i | 0 <= i < |book[r]| ensures book[r][i].View() == AtPrice(q, r)[i] {
          var x := book[r][i];
          assert x in book[r];
          assert x !in book[p];
          assert unchanged(x);
          assert old(book[r][i].View()) == AtPrice(q, r)[i];
        }
      }
      LevelReplaced(book, p, list, q');
      if list == [] {
        book' := book - {p};
      } else {
        book' := book[p := list];
      }
    }

    /** matchAgainst: the outer loop over the contra book. */
    method MatchAgainst(order: Order, contra: Levels, ghost q: seq<Ord>)
      returns (book: Levels, remaining: Quantity, ghost q': seq<Ord>)
      requires order.side != NoSide && order !in Objects(contra) && trades == []
      requires Represents(contra, q) && NoEmptyLevel(contra) && SideOk(Opposite(order.side), q, clock)
      modifies this`levels, this`trades, this`orders, Objects(contra)
      ensures Represents(book, q') && NoEmptyLevel(book) && Objects(book) <= Objects(contra)
      ensures orders == old(orders) - (Ids(q) - Ids(q'))
      ensures Match(order.View(), q, order.quantity) == Matched(q', trades, remaining)
      ensures levels == MatchCache(old(levels), order.View(), q, order.quantity)
    {
      var side := Opposite(order.side);
      ghost var o := order.View();
      book, remaining, q' := contra, order.quantity, q;
      while remaining > 0 && book != map[]
        invariant order.View() == o
        invariant Represents(book, q') && NoEmptyLevel(book) && Objects(book) <= Objects(contra)
        invariant SideOk(side, q', clock) && Ids(q') <= Ids(q)
        invariant orders == old(orders) - (Ids(q) - Ids(q'))
        invariant Final(o, [], old(levels), q, order.quantity) == Final(o, trades, levels, q', remaining)
        decreases book.Keys, remaining
      {
        BestKey(side, book, q');
        NoneBetter(side, q');
        var p := Begin(side, book);
        var crossed := PriceCrossed(order, p);
        if !crossed {
          break;
        }
        ghost var was := q';
        book, remaining, q' := MatchBestLevel(order, book, p, remaining, was);
        DropTwice(old(orders), Ids(q), Ids(was), Ids(q'));
      }
      BestKey(side, book, q');
      FinalAtEnd(o, old(levels), q, order.quantity, trades, levels, q', remaining);
    }

    // -------------------------------------------------------------- addToBook

    /** An order that modify has withdrawn: an index entry of its own id is left over. */
    ghost predicate Enterable(order: Order)
      reads this, Objects(bids), Objects(asks)
    {
      && Shaped()
      && Inv(View().(index := orders.Keys - {order.id}))
      && order !in Live() && order.id !in Ids(bidQueue) + Ids(askQueue)
    }

    /** The two sides, apart from each other and from the incoming order. */
    ghost predicate Separate(order: Order)
      reads this
    {
      Separable() && order !in Objects(bids) && order !in Objects(asks)
    }

    lemma EnterableSides(order: Order)
      requires Enterable(order)
      ensures Separate(order)
    {
      forall o | o in Objects(bids) && o in Objects(asks) ensures false {
        var p :| p in bids && o in bids[p];
        var r :| r in asks && o in asks[r];
        ObjectInQueue(bids, bidQueue, p, o);
        ObjectInQueue(asks, askQueue, r, o);
      }
    }

    /** The pass over asks: everything but the agreement of index and lists. */
    method MatchAsks(order: Order) returns (remaining: Quantity)
      requires Listed() && Separate(order) && trades == [] && order.side == Buy
      modifies this`asks, this`askQueue, this`levels, this`trades, this`orders, Objects(asks)
      ensures Listed() && Objects(asks) <= old(Objects(asks))
      ensures View() == Take(old(View()), order.View())
      ensures orders == old(orders) - (Ids(old(askQueue)) - Ids(askQueue))
      ensures remaining == Match(order.View(), old(askQueue), order.quantity).left
    {
      hide AtPrice, MatchCache, Match, SideOk, Ids;
      asks, remaining, askQueue := MatchAgainst(order, asks, askQueue);
    }

    method TakeAsks(order: Order) returns (remaining: Quantity)
      requires Shaped() && Separate(order) && trades == [] && order.side == Buy
      modifies this, Objects(asks)
      ensures Shaped() && Objects(asks) <= old(Objects(asks)) && bids == old(bids)
      ensures View() == Take(old(View()), order.View())
      ensures remaining == Match(order.View(), old(askQueue), order.quantity).left
    {
      hide AtPrice, MatchCache, Match, SideOk, Ids, NoEmptyLevel, Take;
      remaining := MatchAsks(order);
      KeepIndexed(old(asks), asks, askQueue, old(orders), Ids(old(askQueue)) - Ids(askQueue));
      KeepIndexed(bids, bids, bidQueue, old(orders), Ids(old(askQueue)) - Ids(askQueue));
    }

    /** The pass over bids: everything but the agreement of index and lists. */
    method MatchBids(order: Order) returns (remaining: Quantity)
      requires Listed() && Separate(order) && trades == [] && order.side == Sell
      modifies this`bids, this`bidQueue, this`levels, this`trades, this`orders, Objects(bids)
      ensures Listed() && Objects(bids) <= old(Objects(bids))
      ensures View() == Take(old(View()), order.View())
      ensures orders == old(orders) - (Ids(old(bidQueue)) - Ids(bidQueue))
      ensures remaining == Match(order.View(), old(bidQueue), order.quantity).left
    {
      hide AtPrice, MatchCache, Match, SideOk, Ids;
      bids, remaining, bidQueue := MatchAgainst(order, bids, bidQueue);
    }

    method TakeBids(order: Order) returns (remaining: Quantity)
      requires Shaped() && Separate(order) && trades == [] && order.side == Sell
      modifies this, Objects(bids)
      ensures Shaped() && Objects(bids) <= old(Objects(bids)) && asks == old(asks)
      ensures View() == Take(old(View()), order.View())
      ensures remaining == Match(order.View(), old(bidQueue), order.quantity).left
    {
      hide AtPrice, MatchCache, Match, SideOk, Ids, NoEmptyLevel, Take;
      remaining := MatchBids(order);
      KeepIndexed(old(bids), bids, bidQueue, old(orders), Ids(old(bidQueue)) - Ids(bidQueue));
      KeepIndexed(asks, asks, askQueue, old(orders), Ids(old(bidQueue)) - Ids(bidQueue));
    }

    /** Matching: the contra side, the level data, the trades and the index move together. */
    method TakeLiquidity(order: Order) returns (remaining: Quantity)
      requires Shaped() && Separate(order) && trades == []
      modifies this, Live()
      ensures Shaped() && Live() <= old(Live())
      ensures View() == Take(old(View()), order.View())
      ensures remaining == Match(order.View(), Contra(old(View()), order.side), order.quantity).left
    {
      if order.side == Buy {
        remaining := TakeAsks(order);
      } else if order.side == Sell {
        remaining := TakeBids(order);
      } else {
        remaining := order.quantity;
        assert orders.Keys - ({} - {}) == orders.Keys;
      }
    }

    method PushToSide(order: Order)
      requires Listed() && Sorted(order.side, Own(View(), order.side))
      modifies this`bids, this`asks, this`bidQueue, this`askQueue
      ensures Listed()
      ensures Live() <= old(Live()) + {order}
      ensures View() == WithOwn(old(View()), order.side, Insert(Own(old(View()), order.side), order.View()))
    {
      hide AtPrice, Insert;
      if order.side == Buy {
        bids := PushBack(bids, order, bidQueue);
        bidQueue := Insert(bidQueue, order.View());
      } else {
        asks := PushBack(asks, order, askQueue);
        askQueue := Insert(askQueue, order.View());
      }
    }

    /** Level data and index entry of an order that has been pushed. */
    method Record(order: Order)
      modifies this`levels, this`orders, this`clock
      ensures levels == AddLevel(old(levels), order.price, order.quantity)
      ensures orders == old(orders)[order.id := order] && clock == old(clock) + 1
    {
      UpdateLevelOnAdd(order.price, order.quantity);
      orders := orders[order.id := order];
      clock := clock + 1;
    }

    /** Arrival in the book; the lists hold other orders. */
    method Stamp(order: Order)
      requires Listed() && order !in Live()
      modifies order`stamp
      ensures Listed() && order.View() == old(order.View()).(stamp := clock)
    {
      order.stamp := clock;
      assert Represents(bids, bidQueue) && Represents(asks, askQueue);
    }

    /** push_back with its level data and index entry. */
    method PlaceOrder(order: Order)
      requires Listed() && order !in Live() && Sorted(order.side, Own(View(), order.side))
      modifies this, order`stamp
      ensures Listed() && Live() <= old(Live()) + {order}
      ensures View() == Place(old(View()), order.View())
      ensures order.View() == old(order.View()).(stamp := old(clock))
      ensures orders == old(orders)[order.id := order]
    {
      hide AtPrice, Insert, AddLevel, Sorted, NoEmptyLevel, Represents;
      Stamp(order);
      PushToSide(order);
      Record(order);
    }

    /** The same; index and lists stay in step if no order of the same id rests already. */
    method Rest(order: Order)
      requires Listed() && order !in Live() && Sorted(order.side, Own(View(), order.side))
      modifies this, order`stamp
      ensures Listed() && Live() <= old(Live()) + {order}
      ensures View() == Place(old(View()), order.View())
      ensures order.View() == old(order.View()).(stamp := old(clock))
      ensures old(Shaped()) && order.id !in old(Ids(bidQueue) + Ids(askQueue)) ==> Shaped()
    {
      hide AtPrice, Insert, AddLevel, Sorted, Represents, NoEmptyLevel, Place;
      ObjectIds(bids, bidQueue);
      ObjectIds(asks, askQueue);
      PlaceOrder(order);
      if old(Shaped()) && order.id !in old(Ids(bidQueue) + Ids(askQueue)) {
        IndexOne(old(bids), old(asks), bids, asks, old(orders), order);
      }
    }

    /** addToBook, for any order object that is not in the book itself. */
    method AddToBook(order: Order?)
      requires Shaped() && (order != null ==> Separate(order))
      modifies this, Live(), order
      ensures Listed()
      ensures order == null ==> Shaped() && View() == old(View()).(trades := []) && Live() == old(Live())
      ensures order != null ==>
        && View() == Add(old(View()), old(order.View()))
        && order.View() == Outcome(old(View()), old(order.View()))
        && Live() <= old(Live()) + {order}
        && (!Clashes(old(View()), old(order.View())) ==> Shaped())
    {
      hide AtPrice, Match, MatchCache, SideOk, Represents, NoEmptyLevel, Indexed, Insert, AddLevel, Ids;
      trades := [];
      if order == null {
        return;
      }
      ghost var s, o := View(), order.View();
      var originalQuantity := order.quantity;
      AfterTake(s, o);
      var remaining := TakeLiquidity(order);
      assert Take(s, o) == Take(old(View()), o);
      Settle(order, originalQuantity, remaining);
    }

    /** Everything after the matching loop: the order's fields, its record and its rest. */
    method Settle(order: Order, originalQuantity: Quantity, remaining: Quantity)
      requires Shaped() && order !in Live() && Sorted(order.side, Own(View(), order.side))
      requires order.quantity == originalQuantity >= remaining
      modifies this, order
      ensures Listed() && Live() <= old(Live()) + {order}
      ensures var o := old(order.View());
        && order.View() == o.(qty := if Aggressive(o.otype) then 0 else remaining,
                              status := FinalStatus(o, remaining),
                              stamp := if Rests(o, remaining) then old(clock) else o.stamp)
        && View() ==
          (if FinalStatus(o, remaining) == Traded then old(View()).(index := old(View()).index - {o.id})
           else if Rests(o, remaining) then Place(old(View()), order.View())
           else old(View()))
        && (FinalStatus(o, remaining) == Traded || Rests(o, remaining) ==>
              order.id !in old(Ids(bidQueue) + Ids(askQueue)) ==> Shaped())
        && (!(FinalStatus(o, remaining) == Traded || Rests(o, remaining)) ==> Shaped())
    {
      hide AtPrice, Insert, AddLevel, Sorted, Ids;
      Close(order, originalQuantity, remaining);
      assert Represents(bids, bidQueue) && Represents(asks, askQueue);
      if order.status == Traded {
        ClearOrderRecord(order.id);
      } else if !Aggressive(order.otype) && order.quantity > 0 {
        Rest(order);
      }
    }

    /** The fields of the incoming order after matching. */
    method Close(order: Order, originalQuantity: Quantity, remaining: Quantity)
      requires order.quantity == originalQuantity >= remaining
      modifies order
      ensures var o := old(order.View());
        order.View() == o.(qty := if Aggressive(o.otype) then 0 else remaining, status := FinalStatus(o, remaining))
    {
      order.quantity := remaining;
      if remaining == 0 && originalQuantity > 0 {
        order.status := Traded;
        return;
      }
      if Aggressive(order.otype) {
        order.status := Cancelled;
        order.quantity := 0;
        return;
      }
      if remaining < originalQuantity {
        order.status := Modified;
      } else if order.status != Modified {
        order.status := New;
      }
    }

    /** AddOrder with any id: the book becomes Add of the old one, and stays valid exactly when
        the order may enter. */
    method AddOrder(order: Order?)
      requires Valid() && (order != null ==> order !in Live())
      modifies this, Live(), order
      ensures Listed()
      ensures order == null ==> Valid() && View() == old(View()).(trades := [])
      ensures order != null ==>
        && View() == Add(old(View()), old(order.View()))
        && order.View() == Outcome(old(View()), old(order.View()))
        && (Valid() <==> MayEnter(old(View()), old(order.View())))
        && (!Clashes(old(View()), old(order.View())) ==> Shaped())
      ensures forall o :: o in Live() ==> o in old(Live()) || o == order
    {
      hide Clashes, MayEnter, Add, Outcome, Represents, NoEmptyLevel, Indexed, SideOk, SidesOk;
      ValidSides();
      if order != null {
        AddInvIff(View(), order.View());
      } else {
        NoTradesInv(View());
      }
      AddToBook(order);
    }

    // -------------------------------------------------------------- modify and cancel

    /** The index leads to the very object that rests. */
    lemma Located(id: OrderId)
      requires Valid() && id in orders
      ensures var o := orders[id];
        && o.id == id && o.side != NoSide && Lookup(View(), id) == Some(o.View())
        && o.View() in Own(View(), o.side)
        && (if o.side == Buy then o.price in bids && o in bids[o.price] else o.price in asks && o in asks[o.price])
    {
      LookupIn(View(), id);
      var x := Lookup(View(), id).value;
      if x.side == Buy {
        var o := QueueInObjects(bids, bidQueue, x);
        LevelObjects(bids, x.price);
        assert orders[o.id] == o;
      } else {
        var o := QueueInObjects(asks, askQueue, x);
        LevelObjects(asks, x.price);
        assert orders[o.id] == o;
      }
    }

    /** removeOrderFromBook. */
    method RemoveOrderFromBook(order: Order)
      requires Shaped() && Separable() && order.View() in Own(View(), order.side) && order.side != NoSide
      requires if order.side == Buy then order.price in bids && order in bids[order.price]
               else order.price in asks && order in asks[order.price]
      modifies this`bids, this`asks, this`bidQueue, this`askQueue
      ensures Represents(bids, bidQueue) && NoEmptyLevel(bids) && Represents(asks, askQueue) && NoEmptyLevel(asks)
      ensures Live() <= old(Live()) - {order}
      ensures View() == WithOwn(old(View()), order.side, Remove(Own(old(View()), order.side), order.id))
    {
      hide AtPrice, Remove;
      if order.side == Buy {
        LevelObjects(bids, order.price);
        bids := EraseFromBook(bids, order, bidQueue, clock);
        bidQueue := Remove(bidQueue, order.id);
      } else {
        LevelObjects(asks, order.price);
        asks := EraseFromBook(asks, order, askQueue, clock);
        askQueue := Remove(askQueue, order.id);
      }
    }

    /** The two sides, apart from each other. */
    ghost predicate Separable()
      reads this
    {
      && SideOk(Buy, bidQueue, clock) && SideOk(Sell, askQueue, clock) && Ids(bidQueue) !! Ids(askQueue)
      && Objects(bids) !! Objects(asks)
    }

    lemma ValidSides()
      requires Valid()
      ensures Separable()
    {
      forall o | o in Objects(bids) && o in Objects(asks) ensures false {
        var p :| p in bids && o in bids[p];
        var r :| r in asks && o in asks[r];
        ObjectInQueue(bids, bidQueue, p, o);
        ObjectInQueue(asks, askQueue, r, o);
      }
    }

    /** Level data and lists of an order that leaves; its record stays. */
    method TakeOut(order: Order)
      requires Valid() && order.id in orders && orders[order.id] == order
      modifies this
      ensures Shaped() && Live() <= old(Live()) - {order}
      ensures View() == Withdraw(old(View()), order.View())
      ensures orders == old(orders)
      ensures Inv(View().(index := orders.Keys - {order.id})) && order.id !in Ids(bidQueue) + Ids(askQueue)
    {
      hide AtPrice, Remove, FillLevel, SideOk, SidesOk, Lookup, Ids;
      Located(order.id);
      ValidSides();
      ghost var s := View();
      WithdrawInv(s, order.View());
      var remainingQuantity := order.quantity;
      if remainingQuantity > 0 {
        UpdateLevelOnFill(order.price, remainingQuantity, true);
      }
      RemoveOrderFromBook(order);
      ZeroFill(s.cache, order.price);
      assert View() == Withdraw(s, order.View());
      KeepIndexedSubset(old(bids), old(asks), bids, asks, orders);
    }

    /** CancelOrder, for any id. */
    method CancelOrder(orderId: OrderId)
      requires Valid()
      modifies this, Live()
      ensures Valid() && View() == Cancel(old(View()), orderId)
      ensures Live() <= old(Live())
      ensures orderId in old(orders) ==>
        old(orders)[orderId].quantity == 0 && old(orders)[orderId].status == Cancelled
    {
      hide AtPrice, Remove, FillLevel, SideOk, SidesOk, Find, Ids, NoEmptyLevel, Indexed;
      LookupIn(View(), orderId);
      if orderId !in orders {
        return;
      }
      var order := orders[orderId];
      Located(orderId);
      IndexedLive(orderId);
      ghost var s, o := View(), order.View();
      TakeOut(order);
      Retire(order);
      assert Represents(bids, bidQueue) && Represents(asks, askQueue);
      ClearOrderRecord(orderId);
    }

    method Retire(order: Order)
      modifies order`quantity, order`status
      ensures order.quantity == 0 && order.status == Cancelled
    {
      order.quantity := 0;
      order.status := Cancelled;
    }

    lemma IndexedLive(id: OrderId)
      requires Valid() && id in orders
      ensures orders[id] in Live()
    {
      Located(id);
      var o := orders[id];
      if o.side == Buy { LevelObjects(bids, o.price); } else { LevelObjects(asks, o.price); }
    }

    method Amend(order: Order, newPrice: Price, newQuantity: Quantity)
      modifies order`price, order`quantity, order`status
      ensures order.View() == old(order.View()).(price := newPrice, qty := newQuantity, status := Modified)
    {
      order.price := newPrice;
      order.quantity := newQuantity;
      order.status := Modified;
    }

    /** ModifyOrder, for any id, price and quantity: the book becomes Modify of the old one.
        It stays valid exactly when the new quantity is positive or the id is unknown. */
    method ModifyOrder(orderId: OrderId, newPrice: Price, newQuantity: Quantity)
      requires Valid()
      modifies this, Live()
      ensures Shaped() && View() == Modify(old(View()), orderId, newPrice, newQuantity)
      ensures Valid() <==> newQuantity > 0 || orderId !in old(orders)
      ensures Live() <= old(Live())
    {
      hide AtPrice, Remove, FillLevel, SideOk, SidesOk, Find, Ids, Represents, NoEmptyLevel, Indexed;
      LookupIn(View(), orderId);
      ModifyInvIff(View(), orderId, newPrice, newQuantity);
      if orderId !in orders {
        return;
      }
      var order := orders[orderId];
      Located(orderId);
      IndexedLive(orderId);
      if order.price == newPrice && order.quantity == newQuantity {
        return;
      }
      TakeOut(order);
      Amend(order, newPrice, newQuantity);
      EnterableSides(order);
      NoClash(View(), order.View());
      AddToBook(order);
    }

    // -------------------------------------------------------------- best prices

    method GetBestBid() returns (has: bool, price: Price, qty: Quantity)
      requires Valid()
      ensures Quote(has, price, qty) == Best(View().bids)
    {
      ValidSides();
      has, price, qty := BestLevel(Buy, bids, bidQueue);
    }

    method GetBestAsk() returns (has: bool, price: Price, qty: Quantity)
      requires Valid()
      ensures Quote(has, price, qty) == Best(View().asks)
    {
      ValidSides();
      has, price, qty := BestLevel(Sell, asks, askQueue);
    }

    method GetBestBidAsk() returns (has: bool, bidPrice: Price, bidQty: Quantity, askPrice: Price, askQty: Quantity)
      requires Valid()
      ensures bidPrice == Shown(View().bids).price && bidQty == Shown(View().bids).qty
      ensures askPrice == Shown(View().asks).price && askQty == Shown(View().asks).qty
      ensures has <==> Shown(View().bids).has || Shown(View().asks).has
    {
      var hasBid, hasAsk;
      hasBid, bidPrice, bidQty := GetBestBid();
      hasAsk, askPrice, askQty := GetBestAsk();
      if !hasBid {
        bidPrice, bidQty := 0, 0;
      }
      if !hasAsk {
        askPrice, askQty := 0, 0;
      }
      has := hasBid || hasAsk;
    }
  }
}
