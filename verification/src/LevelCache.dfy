/** price_to_leveldata_: one total and one count per price, shared by both sides, with
    wrapping additions and saturating subtractions. */
module LevelCache {
  import opened Types
  import opened OrderQueue
  import opened Matching

  /** updateLevelOnAdd: totalQuantity is a uint32_t and wraps. */
  function AddLevel(c: Cache, p: Price, x: Quantity): Cache {
    if x == 0 then c
    else
      var d := if p in c then c[p] else LevelData(0, 0, 0);
      c[p := LevelData(p, Wrap32(d.total + x), Wrap64(d.count + 1))]
  }

  /** updateLevelOnFill: saturates, and drops the entry when either number reaches zero. */
  function FillLevel(c: Cache, p: Price, x: Quantity, closed: bool): Cache {
    if x == 0 || p !in c then c
    else
      var d := c[p];
      var total := if d.total <= x then 0 else d.total - x;
      var count := if closed && d.count > 0 then d.count - 1 else d.count;
      if total == 0 || count == 0 then c - {p} else c[p := LevelData(d.price, total, count)]
  }

  /** The cache updates of one matching pass. */
  function MatchCache(c: Cache, o: Ord, q: seq<Ord>, left: Quantity): Cache
    decreases |q|
  {
    if left == 0 || q == [] || !Crosses(o, q[0].price) then c
    else if left < q[0].qty then FillLevel(c, q[0].price, left, false)
    else MatchCache(FillLevel(c, q[0].price, q[0].qty, true), o, q[1..], left - q[0].qty)
  }

  // ---------------------------------------------------------------- laws of any cache, exact or not

  /** An add of nothing changes nothing; any other makes or grows the entry of its price, wrapping
      at 32 bits, and counts one order more. */
  lemma AddAt(c: Cache, p: Price, x: Quantity)
    ensures x == 0 ==> AddLevel(c, p, x) == c
    ensures forall r: Price :: r != p ==> (r in AddLevel(c, p, x) <==> r in c)
    ensures forall r :: r != p && r in c ==> AddLevel(c, p, x)[r] == c[r]
    ensures x > 0 ==>
      var before := if p in c then c[p] else LevelData(p, 0, 0);
      && p in AddLevel(c, p, x) && AddLevel(c, p, x)[p].price == p
      && AddLevel(c, p, x)[p].total == (before.total + x) % 0x1_0000_0000
      && (before.count + 1 < TWO_64 ==> AddLevel(c, p, x)[p].count == before.count + 1)
  {
  }

  /** A fill of nothing, or of a price without an entry, changes nothing; any other takes the
      quantity and, when it closes, one order, and the entry stays exactly if both stay positive. */
  lemma FillAt(c: Cache, p: Price, x: Quantity, closed: bool)
    ensures x == 0 || p !in c ==> FillLevel(c, p, x, closed) == c
    ensures forall r: Price :: r != p ==> (r in FillLevel(c, p, x, closed) <==> r in c)
    ensures forall r :: r != p && r in c ==> FillLevel(c, p, x, closed)[r] == c[r]
    ensures x > 0 && p in c ==>
      var d, left := c[p], if closed then c[p].count - 1 else c[p].count;
      && (p in FillLevel(c, p, x, closed) <==> d.total > x && left > 0)
      && (d.total > x && left > 0 ==> FillLevel(c, p, x, closed)[p] == LevelData(d.price, d.total - x, left))
  {
  }

  /** Closing fills commute, saturation and dropped entries included. */
  lemma FillsCommute(c: Cache, p: Price, x: Quantity, r: Price, y: Quantity)
    ensures FillLevel(FillLevel(c, p, x, true), r, y, true) == FillLevel(FillLevel(c, r, y, true), p, x, true)
  {
    if p == r {
      FillsCommuteAt(c, p, x, y);
    } else {
      var a := FillLevel(FillLevel(c, p, x, true), r, y, true);
      var b := FillLevel(FillLevel(c, r, y, true), p, x, true);
      assert a.Keys == b.Keys && forall k :: k in a ==> a[k] == b[k];
    }
  }

  lemma FillsCommuteAt(c: Cache, p: Price, x: Quantity, y: Quantity)
    ensures FillLevel(FillLevel(c, p, x, true), p, y, true) == FillLevel(FillLevel(c, p, y, true), p, x, true)
  {
    var a := FillLevel(FillLevel(c, p, x, true), p, y, true);
    var b := FillLevel(FillLevel(c, p, y, true), p, x, true);
    assert a.Keys == b.Keys && forall k :: k in a ==> a[k] == b[k];
  }

  /** A reducing fill and then another one are one fill. */
  lemma FillsJoin(c: Cache, p: Price, x: Quantity, y: Quantity, both: Quantity, closed: bool)
    requires x > 0 && y > 0 && both == x + y
    ensures FillLevel(FillLevel(c, p, x, false), p, y, closed) == FillLevel(c, p, both, closed)
  {
    var a := FillLevel(FillLevel(c, p, x, false), p, y, closed);
    var b := FillLevel(c, p, both, closed);
    assert a.Keys == b.Keys && forall k :: k in a ==> a[k] == b[k];
  }

  /** Only side, type and limit of the taker decide what happens to the cache. */
  lemma {:induction false} MatchCacheTaker(c: Cache, o: Ord, o2: Ord, q: seq<Ord>, left: Quantity)
    requires o2.side == o.side && o2.otype == o.otype && o2.price == o.price
    ensures MatchCache(c, o, q, left) == MatchCache(c, o2, q, left)
    decreases |q|
  {
    if left > 0 && q != [] && Crosses(o, q[0].price) && left >= q[0].qty {
      MatchCacheTaker(FillLevel(c, q[0].price, q[0].qty, true), o, o2, q[1..], left - q[0].qty);
    }
  }

  /** Two passes of q1 then q2 leave the cache of one pass of q1 + q2, whatever it held. */
  lemma {:induction false} MatchCacheSplit(c: Cache, o: Ord, o2: Ord, q: seq<Ord>, q1: Quantity, q2: Quantity,
                                           both: Quantity)
    requires both == q1 + q2 && Positive(q)
    requires o2.side == o.side && o2.otype == o.otype && o2.price == o.price
    ensures MatchCache(MatchCache(c, o, q, q1), o2, Match(o, q, q1).rest, q2) == MatchCache(c, o, q, both)
    decreases |q|
  {
    if q == [] || !Crosses(o, q[0].price) {
    } else if q1 == 0 {
      MatchCacheTaker(c, o, o2, q, q2);
    } else if q1 < q[0].qty {
      MatchCacheSplitInHead(c, o, o2, q, q1, q2, both);
    } else {
      MatchCacheSplit(FillLevel(c, q[0].price, q[0].qty, true), o, o2, q[1..], q1 - q[0].qty, q2, both - q[0].qty);
    }
  }

  lemma MatchCacheSplitInHead(c: Cache, o: Ord, o2: Ord, q: seq<Ord>, q1: Quantity, q2: Quantity, both: Quantity)
    requires both == q1 + q2 && q != [] && Crosses(o, q[0].price) && 0 < q1 < q[0].qty
    requires o2.side == o.side && o2.otype == o.otype && o2.price == o.price
    ensures MatchCache(MatchCache(c, o, q, q1), o2, Match(o, q, q1).rest, q2) == MatchCache(c, o, q, both)
  {
    hide FillLevel;
    var p, rest := q[0].price, Match(o, q, q1).rest;
    assert rest[0].price == p && rest[0].qty == q[0].qty - q1 && rest[1..] == q[1..];
    if 0 < q2 < rest[0].qty {
      FillsJoin(c, p, q1, q2, both, false);
    } else if q2 > 0 {
      FillsJoin(c, p, q1, rest[0].qty, q[0].qty, true);
      MatchCacheTaker(FillLevel(c, p, q[0].qty, true), o, o2, q[1..], q2 - rest[0].qty);
    }
  }

  // ---------------------------------------------------------------- agreement with the book

  ghost function TotalAt(a: seq<Ord>, b: seq<Ord>, p: Price): nat {
    Sum(AtPrice(a, p)) + Sum(AtPrice(b, p))
  }

  ghost function CountAt(a: seq<Ord>, b: seq<Ord>, p: Price): nat {
    |AtPrice(a, p)| + |AtPrice(b, p)|
  }

  /** The entry for p is what it should be: absent without orders at p, else their exact
      total and number. */
  ghost predicate AgreesAt(c: Cache, a: seq<Ord>, b: seq<Ord>, p: Price) {
    && (p in c <==> CountAt(a, b, p) > 0)
    && (p in c ==> c[p].price == p && c[p].total == TotalAt(a, b, p) && c[p].count == CountAt(a, b, p))
  }

  ghost predicate Agrees(c: Cache, a: seq<Ord>, b: seq<Ord>) {
    forall p: Price :: AgreesAt(c, a, b, p)
  }

  /** No level holds 2^32 or more. */
  ghost predicate Fits(a: seq<Ord>, b: seq<Ord>) {
    forall p: Price :: TotalAt(a, b, p) < TWO_32
  }

  lemma {:induction false} SumAndLength(q: seq<Ord>)
    requires Positive(q)
    ensures Sum(q) >= |q|
  {
    if q != [] {
      SumAndLength(q[1..]);
    }
  }

  lemma AtPricePositive(q: seq<Ord>, p: Price)
    requires Positive(q)
    ensures Positive(AtPrice(q, p)) && Sum(AtPrice(q, p)) >= |AtPrice(q, p)|
  {
    forall i | 0 <= i < |AtPrice(q, p)| ensures AtPrice(q, p)[i].qty > 0 {
      AtPriceMember(q, p, AtPrice(q, p)[i]);
    }
    SumAndLength(AtPrice(q, p));
  }

  lemma {:induction false} SumRemove(q: seq<Ord>, o: Ord)
    requires DistinctIds(q) && o in q
    ensures Sum(Remove(q, o.id)) == Sum(q) - o.qty && |Remove(q, o.id)| == |q| - 1
  {
    if q[0].id == o.id {
      assert o == q[0];
    } else {
      assert o in q[1..];
      SumRemove(q[1..], o);
      assert Remove(q, o.id)[1..] == Remove(q[1..], o.id);
    }
  }

  lemma {:induction false} SumAppend(q: seq<Ord>, o: Ord)
    ensures Sum(q + [o]) == Sum(q) + o.qty
  {
    if q == [] {
      assert q + [o] == [o] && [o][1..] == [];
    } else {
      assert (q + [o])[1..] == q[1..] + [o];
      SumAppend(q[1..], o);
    }
  }

  /** Two caches that agree with the same book are the same. */
  lemma AgreesUnique(c: Cache, d: Cache, a: seq<Ord>, b: seq<Ord>)
    requires Agrees(c, a, b) && Agrees(d, a, b)
    ensures c == d
  {
    forall p: Price ensures p in c <==> p in d {
      assert AgreesAt(c, a, b, p) && AgreesAt(d, a, b, p);
    }
    forall p: Price | p in c ensures c[p] == d[p] {
      assert AgreesAt(c, a, b, p) && AgreesAt(d, a, b, p);
    }
  }

  lemma AgreesSwap(c: Cache, a: seq<Ord>, b: seq<Ord>)
    ensures Agrees(c, a, b) <==> Agrees(c, b, a)
  {
    if Agrees(c, a, b) {
      forall p: Price ensures AgreesAt(c, b, a, p) { assert AgreesAt(c, a, b, p); }
    }
    if Agrees(c, b, a) {
      forall p: Price ensures AgreesAt(c, a, b, p) { assert AgreesAt(c, b, a, p); }
    }
  }

  /** A cache that agrees could not hold a level of 2^32. */
  lemma AgreesFits(c: Cache, a: seq<Ord>, b: seq<Ord>)
    requires Agrees(c, a, b)
    ensures Fits(a, b)
  {
    forall p: Price ensures TotalAt(a, b, p) < TWO_32 {
      assert AgreesAt(c, a, b, p);
    }
  }

  /** One order leaves price p of a side: a fill or a removal of `x` from the total. */
  lemma FillAgrees(c: Cache, a: seq<Ord>, a': seq<Ord>, b: seq<Ord>, p: Price, x: Quantity, closed: bool)
    requires Agrees(c, a, b) && Positive(a) && Positive(a') && Positive(b) && x > 0
    requires forall r: Price :: r != p ==> AtPrice(a', r) == AtPrice(a, r)
    requires Sum(AtPrice(a', p)) == Sum(AtPrice(a, p)) - x
    requires |AtPrice(a', p)| == |AtPrice(a, p)| - (if closed then 1 else 0)
    ensures Agrees(FillLevel(c, p, x, closed), a', b)
  {
    var d := FillLevel(c, p, x, closed);
    forall r: Price ensures AgreesAt(d, a', b, r) {
      assert AgreesAt(c, a, b, r);
      if r == p {
        AtPricePositive(a, p);
        AtPricePositive(a', p);
        AtPricePositive(b, p);
      }
    }
  }

  lemma RemoveAgrees(c: Cache, side: BuySell, q: seq<Ord>, b: seq<Ord>, o: Ord, clock: nat)
    requires SideOk(side, q, clock) && Positive(b) && Agrees(c, q, b) && o in q
    ensures Agrees(FillLevel(c, o.price, o.qty, true), Remove(q, o.id), b)
  {
    RemoveOk(side, q, o.id, clock);
    AtPriceSideOk(side, q, o.price, clock);
    AtPriceMember(q, o.price, o);
    SumRemove(AtPrice(q, o.price), o);
    forall r: Price
      ensures AtPrice(Remove(q, o.id), r) == if r == o.price then Remove(AtPrice(q, r), o.id) else AtPrice(q, r)
    {
      RemoveAtPrice(q, o, r);
    }
    FillAgrees(c, q, Remove(q, o.id), b, o.price, o.qty, true);
  }

  /** A matching pass keeps the cache in step, whatever it fills. */
  lemma {:induction false} MatchAgrees(c: Cache, o: Ord, q: seq<Ord>, b: seq<Ord>, left: Quantity)
    requires Agrees(c, q, b) && Positive(q) && Positive(b)
    ensures Agrees(MatchCache(c, o, q, left), Match(o, q, left).rest, b)
    decreases |q|
  {
    if left == 0 || q == [] || !Crosses(o, q[0].price) {
    } else if left < q[0].qty {
      var rest := Match(o, q, left).rest;
      assert rest[1..] == q[1..];
      FillAgrees(c, q, rest, b, q[0].price, left, false);
    } else {
      FillAgrees(c, q, q[1..], b, q[0].price, q[0].qty, true);
      MatchAgrees(FillLevel(c, q[0].price, q[0].qty, true), o, q[1..], b, left - q[0].qty);
    }
  }

  lemma InsertLevels(q: seq<Ord>, b: seq<Ord>, o: Ord, p: Price)
    requires Sorted(o.side, q)
    ensures TotalAt(Insert(q, o), b, p) == TotalAt(q, b, p) + if p == o.price then o.qty else 0
    ensures CountAt(Insert(q, o), b, p) == CountAt(q, b, p) + if p == o.price then 1 else 0
  {
    InsertAtPrice(q, o, p);
    SumAppend(AtPrice(q, p), o);
  }

  /** Resting an order keeps the cache in step exactly when the level does not overflow. */
  lemma InsertAgreesIff(c: Cache, q: seq<Ord>, b: seq<Ord>, o: Ord)
    requires Agrees(c, q, b) && Positive(q) && Positive(b) && Sorted(o.side, q) && o.qty > 0
    ensures Agrees(AddLevel(c, o.price, o.qty), Insert(q, o), b) <==> TotalAt(q, b, o.price) + o.qty < TWO_32
  {
    var d, r := AddLevel(c, o.price, o.qty), Insert(q, o);
    InsertLevels(q, b, o, o.price);
    if TotalAt(q, b, o.price) + o.qty < TWO_32 {
      forall p: Price ensures AgreesAt(d, r, b, p) {
        InsertAgreesAt(c, q, b, o, p);
      }
    } else {
      assert !AgreesAt(d, r, b, o.price);
    }
  }

  lemma InsertAgreesAt(c: Cache, q: seq<Ord>, b: seq<Ord>, o: Ord, p: Price)
    requires AgreesAt(c, q, b, p) && Positive(q) && Positive(b) && Sorted(o.side, q) && o.qty > 0
    requires TotalAt(q, b, o.price) + o.qty < TWO_32
    ensures AgreesAt(AddLevel(c, o.price, o.qty), Insert(q, o), b, p)
  {
    hide AtPrice, Insert, Sorted, Positive;
    InsertLevels(q, b, o, p);
    AtPricePositive(q, p);
    AtPricePositive(b, p);
  }
}
