/** One side of the book, read as a single queue: best price first, and within a price
    the order of the level's list. */
module OrderQueue {
  import opened Types

  // ---------------------------------------------------------------- the queue

  /** Price-time priority, stated on fields and not on positions. */
  ghost predicate Prior(side: BuySell, a: Ord, b: Ord) {
    Better(side, a.price, b.price) || (a.price == b.price && a.stamp < b.stamp)
  }

  ghost predicate Sorted(side: BuySell, q: seq<Ord>) {
    forall i, j :: 0 <= i < j < |q| ==> Prior(side, q[i], q[j])
  }

  ghost predicate DistinctIds(q: seq<Ord>) {
    forall i, j :: 0 <= i < j < |q| ==> q[i].id != q[j].id
  }

  /** Everything the book promises about one side at rest. */
  ghost predicate SideOk(side: BuySell, q: seq<Ord>, clock: nat) {
    && Sorted(side, q)
    && DistinctIds(q)
    && (forall i :: 0 <= i < |q| ==>
          q[i].side == side && q[i].qty > 0 && !Aggressive(q[i].otype) && q[i].stamp < clock)
  }

  ghost function Ids(q: seq<Ord>): set<OrderId> {
    set i | 0 <= i < |q| :: q[i].id
  }

  function Sum(q: seq<Ord>): nat {
    if q == [] then 0 else q[0].qty + Sum(q[1..])
  }

  /** The FIFO list kept at price p. */
  function AtPrice(q: seq<Ord>, p: Price): seq<Ord> {
    if q == [] then []
    else if q[0].price == p then [q[0]] + AtPrice(q[1..], p)
    else AtPrice(q[1..], p)
  }

  /** push_back on the level of o.price, creating the level at its place if needed. */
  function Insert(q: seq<Ord>, o: Ord): seq<Ord> {
    if q == [] || Better(o.side, o.price, q[0].price) then [o] + q
    else [q[0]] + Insert(q[1..], o)
  }

  /** Erases the first order with this id. */
  function Remove(q: seq<Ord>, id: OrderId): seq<Ord> {
    if q == [] then []
    else if q[0].id == id then q[1..]
    else [q[0]] + Remove(q[1..], id)
  }

  function Without(q: seq<Ord>, ids: set<OrderId>): seq<Ord> {
    if q == [] then []
    else if q[0].id in ids then Without(q[1..], ids)
    else [q[0]] + Without(q[1..], ids)
  }

  lemma SideOkTail(side: BuySell, q: seq<Ord>, clock: nat)
    requires SideOk(side, q, clock) && q != []
    ensures SideOk(side, q[1..], clock)
    ensures q[0].id !in Ids(q[1..])
  {
  }

  ghost predicate OrdOk(side: BuySell, o: Ord, clock: nat) {
    o.side == side && o.qty > 0 && !Aggressive(o.otype) && o.stamp < clock
  }

  lemma SideOkCons(side: BuySell, x: Ord, q: seq<Ord>, clock: nat)
    requires SideOk(side, q, clock) && OrdOk(side, x, clock)
    requires forall y :: y in q ==> Prior(side, x, y) && x.id != y.id
    ensures SideOk(side, [x] + q, clock)
  {
    var r := [x] + q;
    forall i, j | 0 <= i < j < |r| ensures Prior(side, r[i], r[j]) && r[i].id != r[j].id {
      assert r[j] == q[j - 1];
      if i > 0 { assert r[i] == q[i - 1]; }
    }
  }

  lemma SideOkHead(side: BuySell, q: seq<Ord>, clock: nat)
    requires SideOk(side, q, clock) && q != []
    ensures SideOk(side, q[1..], clock) && OrdOk(side, q[0], clock)
    ensures forall y :: y in q[1..] ==> Prior(side, q[0], y) && q[0].id != y.id
    ensures forall y :: y in q <==> y == q[0] || y in q[1..]
    ensures q == [q[0]] + q[1..]
  {
  }

  // ---------------------------------------------------------------- levels

  lemma {:induction false} AtPriceMember(q: seq<Ord>, p: Price, x: Ord)
    ensures x in AtPrice(q, p) <==> x in q && x.price == p
  {
    if q != [] {
      AtPriceMember(q[1..], p, x);
      assert x in q <==> x == q[0] || x in q[1..];
    }
  }

  lemma {:induction false} AtPriceSideOk(side: BuySell, q: seq<Ord>, p: Price, clock: nat)
    requires SideOk(side, q, clock)
    ensures SideOk(side, AtPrice(q, p), clock)
  {
    if q != [] {
      AtPriceSideOk(side, q[1..], p, clock);
      if q[0].price == p {
        var t := AtPrice(q[1..], p);
        forall y | y in t ensures Prior(side, q[0], y) && q[0].id != y.id {
          AtPriceMember(q[1..], p, y);
        }
        SideOkCons(side, q[0], t, clock);
      }
    }
  }

  /** The levels determine the queue: nothing is lost by flattening. */
  lemma {:induction false} LevelsDetermineQueue(side: BuySell, q: seq<Ord>, r: seq<Ord>)
    requires Sorted(side, q) && Sorted(side, r)
    requires forall p: Price :: AtPrice(q, p) == AtPrice(r, p)
    ensures q == r
  {
    var front: Price := if r != [] then r[0].price else 0;
    assert AtPrice(q, front) == AtPrice(r, front);
    if q != [] {
      assert AtPrice(r, q[0].price) == AtPrice(q, q[0].price) != [];
      assert r != [];
      AtPriceMember(q, r[0].price, r[0]);
      AtPriceMember(r, r[0].price, r[0]);
      AtPriceMember(q, q[0].price, q[0]);
      AtPriceMember(r, q[0].price, q[0]);
      assert q[0] in r && r[0] in q;
      assert q[0].price == r[0].price;
      assert AtPrice(q, q[0].price)[0] == q[0];
      assert AtPrice(r, q[0].price)[0] == r[0];
      forall p: Price ensures AtPrice(q[1..], p) == AtPrice(r[1..], p) {
        assert AtPrice(q, p) == AtPrice(r, p);
        if p == q[0].price {
          assert AtPrice(q, p)[1..] == AtPrice(q[1..], p);
          assert AtPrice(r, p)[1..] == AtPrice(r[1..], p);
        }
      }
      LevelsDetermineQueue(side, q[1..], r[1..]);
      assert q == [q[0]] + q[1..] && r == [r[0]] + r[1..];
    }
  }

  lemma {:induction false} InsertMembers(q: seq<Ord>, o: Ord)
    ensures forall x :: x in Insert(q, o) <==> x == o || x in q
    ensures Ids(Insert(q, o)) == Ids(q) + {o.id}
    ensures Sum(Insert(q, o)) == Sum(q) + o.qty
  {
    var r := Insert(q, o);
    IdsCons(r);
    if q == [] || Better(o.side, o.price, q[0].price) {
      assert r[1..] == q;
      assert forall x :: x in r <==> x == o || x in q;
    } else {
      InsertMembers(q[1..], o);
      IdsCons(q);
      assert r[1..] == Insert(q[1..], o);
      assert forall x :: x in r <==> x == q[0] || x in Insert(q[1..], o);
      assert forall x :: x in q <==> x == q[0] || x in q[1..];
    }
  }

  lemma {:induction false} SideOkLater(side: BuySell, q: seq<Ord>, clock: nat)
    requires SideOk(side, q, clock)
    ensures SideOk(side, q, clock + 1)
  {
  }

  /** A push to the back of the order's level keeps strict price-time order, since the
      newest stamp is behind every other one. */
  lemma {:induction false} InsertOk(q: seq<Ord>, o: Ord, clock: nat)
    requires SideOk(o.side, q, clock) && o.id !in Ids(q)
    requires o.qty > 0 && !Aggressive(o.otype) && o.stamp == clock
    ensures SideOk(o.side, Insert(q, o), clock + 1)
  {
    if q == [] {
    } else if Better(o.side, o.price, q[0].price) {
      forall y | y in q ensures Prior(o.side, o, y) && o.id != y.id {
        SideOkHead(o.side, q, clock);
        assert y.id in Ids(q);
      }
      SideOkLater(o.side, q, clock);
      SideOkCons(o.side, o, q, clock + 1);
    } else {
      SideOkHead(o.side, q, clock);
      IdsCons(q);
      InsertOk(q[1..], o, clock);
      InsertMembers(q[1..], o);
      SideOkCons(o.side, q[0], Insert(q[1..], o), clock + 1);
    }
  }

  lemma IdsCons(q: seq<Ord>)
    requires q != []
    ensures Ids(q) == {q[0].id} + Ids(q[1..])
  {
    forall k | 0 <= k < |q| ensures q[k].id in {q[0].id} + Ids(q[1..]) {
      if k > 0 { assert q[k] == q[1..][k - 1]; }
    }
    forall k | 0 <= k < |q[1..]| ensures q[1..][k].id in Ids(q) {
      assert q[1..][k] == q[k + 1];
    }
  }

  lemma {:induction false} InsertAtPrice(q: seq<Ord>, o: Ord, p: Price)
    requires Sorted(o.side, q)
    ensures AtPrice(Insert(q, o), p) == if p == o.price then AtPrice(q, p) + [o] else AtPrice(q, p)
  {
    var r := Insert(q, o);
    if q == [] || Better(o.side, o.price, q[0].price) {
      assert r[1..] == q;
      if p == o.price && AtPrice(q, p) != [] {
        var x := AtPrice(q, p)[0];
        AtPriceMember(q, p, x);
        assert false;
      }
    } else {
      assert r[1..] == Insert(q[1..], o);
      InsertAtPrice(q[1..], o, p);
    }
  }

  lemma {:induction false} RemoveOk(side: BuySell, q: seq<Ord>, id: OrderId, clock: nat)
    requires SideOk(side, q, clock)
    ensures SideOk(side, Remove(q, id), clock)
    ensures forall x :: x in Remove(q, id) <==> x in q && x.id != id
    ensures Ids(Remove(q, id)) == Ids(q) - {id}
  {
    if q != [] {
      SideOkHead(side, q, clock);
      RemoveOk(side, q[1..], id, clock);
      IdsCons(q);
      if q[0].id == id {
        SideOkTail(side, q, clock);
      } else {
        var t := Remove(q[1..], id);
        SideOkCons(side, q[0], t, clock);
        IdsCons(Remove(q, id));
        assert Remove(q, id)[1..] == t;
        assert forall x :: x in Remove(q, id) <==> x == q[0] || x in t;
      }
    }
  }

  lemma {:induction false} RemoveAtPrice(q: seq<Ord>, o: Ord, p: Price)
    requires DistinctIds(q) && o in q
    ensures AtPrice(Remove(q, o.id), p)
         == if p == o.price then Remove(AtPrice(q, p), o.id) else AtPrice(q, p)
  {
    if q[0].id == o.id {
      assert o == q[0];
    } else {
      assert o in q[1..];
      RemoveAtPrice(q[1..], o, p);
      assert Remove(q, o.id)[1..] == Remove(q[1..], o.id);
    }
  }
}
