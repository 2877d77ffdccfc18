/** The matching loop of Orderbook::addToBook as one greedy pass over the contra queue,
    and what that pass guarantees. */
module Matching {
  import opened Types
  import opened OrderQueue

  /** priceCrossed: MARKET and IOC cross at any price, whatever limit the order carries. */
  predicate Crosses(o: Ord, resting: Price) {
    if Aggressive(o.otype) then true
    else match o.side
      case Buy => o.price >= resting
      case Sell => o.price <= resting
      case NoSide => false
  }

  function MakeTrade(o: Ord, r: Ord, executed: Quantity, t: TradeType): Trade {
    Trade(r.price, executed, t,
          if o.side == Buy then o.id else r.id,
          if o.side == Sell then o.id else r.id)
  }

  /** The other party of a trade of `o`. */
  function Passive(o: Ord, t: Trade): OrderId {
    if o.side == Buy then t.sellId else t.buyId
  }

  datatype Matched = Matched(rest: seq<Ord>, trades: seq<Trade>, left: Quantity)

  /** Consume the contra queue from the front while it crosses and quantity is left. */
  function Match(o: Ord, q: seq<Ord>, left: Quantity): Matched {
    if left == 0 || q == [] || !Crosses(o, q[0].price) then Matched(q, [], left)
    else if left < q[0].qty then
      Matched([q[0].(qty := q[0].qty - left, status := Modified)] + q[1..],
              [MakeTrade(o, q[0], left, Partial)], 0)
    else
      var t := MakeTrade(o, q[0], q[0].qty, if left == q[0].qty then Full else Partial);
      var m := Match(o, q[1..], left - q[0].qty);
      Matched(m.rest, [t] + m.trades, m.left)
  }

  // ---------------------------------------------------------------- independent measures

  function Executed(ts: seq<Trade>): nat {
    if ts == [] then 0 else ts[0].quantity + Executed(ts[1..])
  }

  /** Total price times quantity. */
  function Notional(ts: seq<Trade>): int {
    if ts == [] then 0 else ts[0].price * ts[0].quantity + Notional(ts[1..])
  }

  /** Quantity of every contra order that crosses, wherever it stands in the queue. */
  function CrossableVolume(o: Ord, q: seq<Ord>): nat {
    if q == [] then 0
    else (if Crosses(o, q[0].price) then q[0].qty else 0) + CrossableVolume(o, q[1..])
  }

  ghost predicate Positive(q: seq<Ord>) {
    forall i :: 0 <= i < |q| ==> q[i].qty > 0
  }

  /** r is x with at most some of its quantity gone. */
  predicate Remainder(r: Ord, x: Ord) {
    && r.id == x.id && r.side == x.side && r.otype == x.otype && r.price == x.price && r.stamp == x.stamp
    && r.session == x.session
    && 0 < r.qty <= x.qty
  }

  // ---------------------------------------------------------------- theorems

  /** Trade i of a pass meets the i-th order of the queue, at that order's price; unless it
      is the last trade it closes that order and is PARTIAL. */
  lemma {:induction false} MatchAt(o: Ord, q: seq<Ord>, left: Quantity, i: nat)
    requires o.side != NoSide && i < |Match(o, q, left).trades|
    ensures |Match(o, q, left).trades| <= |q|
    ensures var t := Match(o, q, left).trades[i];
      && t.price == q[i].price && Crosses(o, t.price)
      && Passive(o, t) == q[i].id && (if o.side == Buy then t.buyId else t.sellId) == o.id
      && t.quantity <= q[i].qty
      && (i < |Match(o, q, left).trades| - 1 ==> t.quantity == q[i].qty && t.tradeType == Partial)
  {
    if left >= q[0].qty {
      var m, n := Match(o, q, left), Match(o, q[1..], left - q[0].qty);
      assert m.trades[1..] == n.trades;
      if i > 0 {
        MatchAt(o, q[1..], left - q[0].qty, i - 1);
        assert m.trades[i] == n.trades[i - 1] && q[i] == q[1..][i - 1];
      } else if |n.trades| > 0 {
        MatchAt(o, q[1..], left - q[0].qty, 0);
      }
    }
  }

  /** The last trade is FULL exactly when it closes both sides. Behind it the queue is as it
      was; if it did not close its order, that order stays in front with the difference and
      the incoming order is done. */
  lemma {:induction false} MatchEnd(o: Ord, q: seq<Ord>, left: Quantity)
    ensures |Match(o, q, left).trades| <= |q|
    ensures var m := Match(o, q, left);
      var k := |m.trades|;
      if k == 0 then m.rest == q && m.left == left
      else
        var last := m.trades[k - 1];
        && (last.tradeType == Full <==> last.quantity == q[k - 1].qty && m.left == 0)
        && (last.quantity == q[k - 1].qty ==> m.rest == q[k..])
        && (last.quantity != q[k - 1].qty ==>
              && last.quantity < q[k - 1].qty && m.left == 0
              && m.rest == [q[k - 1].(qty := q[k - 1].qty - last.quantity, status := Modified)] + q[k..])
  {
    var m := Match(o, q, left);
    if left == 0 || q == [] || !Crosses(o, q[0].price) {
    } else if left >= q[0].qty {
      var n := Match(o, q[1..], left - q[0].qty);
      MatchEnd(o, q[1..], left - q[0].qty);
      var k := |m.trades|;
      assert m.trades[1..] == n.trades && k == |n.trades| + 1;
      if k > 1 {
        assert m.trades[k - 1] == n.trades[k - 2] && q[k - 1] == q[1..][k - 2];
        DropDrop(q, k);
      }
    }
  }

  lemma DropDrop(q: seq<Ord>, k: nat)
    requires 0 < k <= |q|
    ensures q[1..][k - 1..] == q[k..]
  {
  }

  /** rest is a suffix of q in which only the first order may have changed, and that one
      only by losing quantity. */
  ghost predicate Leftover(rest: seq<Ord>, q: seq<Ord>) {
    && |rest| <= |q|
    && (rest != [] ==>
          && Remainder(rest[0], q[|q| - |rest|])
          && rest[1..] == q[|q| - |rest| + 1..])
  }

  lemma LeftoverAt(rest: seq<Ord>, q: seq<Ord>, i: nat)
    requires Leftover(rest, q) && Positive(q) && i < |rest|
    ensures Remainder(rest[i], q[|q| - |rest| + i])
  {
    if i > 0 {
      assert rest[i] == rest[1..][i - 1] == q[|q| - |rest| + 1..][i - 1];
    }
  }

  lemma {:induction false} MatchLeavesSuffix(o: Ord, q: seq<Ord>, left: Quantity)
    requires Positive(q)
    ensures Leftover(Match(o, q, left).rest, q)
    ensures |Match(o, q, left).rest| <= |q| - |Match(o, q, left).trades| + 1
  {
    var rest := Match(o, q, left).rest;
    if left == 0 || q == [] || !Crosses(o, q[0].price) {
    } else if left < q[0].qty {
      assert rest[1..] == q[1..];
    } else {
      MatchLeavesSuffix(o, q[1..], left - q[0].qty);
      assert rest == Match(o, q[1..], left - q[0].qty).rest;
      if rest != [] {
        assert q[1..][|q[1..]| - |rest| + 1..] == q[|q| - |rest| + 1..];
      }
    }
  }

  lemma LeftoverSideOk(side: BuySell, rest: seq<Ord>, q: seq<Ord>, clock: nat)
    requires SideOk(side, q, clock) && Leftover(rest, q)
    ensures SideOk(side, rest, clock) && Ids(rest) <= Ids(q)
  {
    var off := |q| - |rest|;
    forall i | 0 <= i < |rest| ensures Remainder(rest[i], q[off + i]) {
      LeftoverAt(rest, q, i);
    }
    forall i, j | 0 <= i < j < |rest| ensures Prior(side, rest[i], rest[j]) && rest[i].id != rest[j].id {
      assert Prior(side, q[off + i], q[off + j]);
    }
    forall i | 0 <= i < |rest| ensures rest[i].id in Ids(q) {
      assert Remainder(rest[i], q[off + i]);
    }
  }

  /** The side invariant survives a pass. */
  lemma MatchKeepsSide(side: BuySell, o: Ord, q: seq<Ord>, left: Quantity, clock: nat)
    requires SideOk(side, q, clock)
    ensures SideOk(side, Match(o, q, left).rest, clock)
    ensures Ids(Match(o, q, left).rest) <= Ids(q)
    ensures Leftover(Match(o, q, left).rest, q)
  {
    MatchLeavesSuffix(o, q, left);
    LeftoverSideOk(side, Match(o, q, left).rest, q, clock);
  }

  /** Nothing is created or lost: what leaves the contra queue is what was executed, and it
      is what the incoming order no longer wants. */
  lemma {:induction false} MatchConserves(o: Ord, q: seq<Ord>, left: Quantity)
    ensures var m := Match(o, q, left);
      Executed(m.trades) + m.left == left && Sum(m.rest) + Executed(m.trades) == Sum(q)
  {
    var m := Match(o, q, left);
    if left == 0 || q == [] || !Crosses(o, q[0].price) {
    } else if left < q[0].qty {
      assert m.rest[1..] == q[1..];
    } else {
      MatchConserves(o, q[1..], left - q[0].qty);
      assert m.trades[1..] == Match(o, q[1..], left - q[0].qty).trades;
    }
  }

  /** In a sorted queue nothing behind a price that does not cross can cross. */
  lemma {:induction false} NothingBeyondCrosses(side: BuySell, o: Ord, q: seq<Ord>)
    requires o.side != NoSide && side == Opposite(o.side) && Sorted(side, q)
    requires q != [] ==> !Crosses(o, q[0].price)
    ensures CrossableVolume(o, q) == 0
  {
    if |q| > 1 {
      assert Prior(side, q[0], q[1]);
      NothingBeyondCrosses(side, o, q[1..]);
    }
  }

  /** The executed volume is the most that the crossing orders allow, and the pass stops
      only when the order is filled or nothing that is left crosses. */
  lemma {:induction false} MatchVolume(side: BuySell, o: Ord, q: seq<Ord>, left: Quantity)
    requires o.side != NoSide && side == Opposite(o.side) && Sorted(side, q)
    ensures var m := Match(o, q, left);
      && Executed(m.trades) == Min(left, CrossableVolume(o, q))
      && (m.left == 0 || CrossableVolume(o, m.rest) == 0)
      && (m.left == 0 || m.rest == [] || !Crosses(o, m.rest[0].price))
  {
    var m := Match(o, q, left);
    if left == 0 {
    } else if q == [] || !Crosses(o, q[0].price) {
      NothingBeyondCrosses(side, o, q);
    } else if left >= q[0].qty {
      MatchVolume(side, o, q[1..], left - q[0].qty);
      assert m.trades[1..] == Match(o, q[1..], left - q[0].qty).trades;
    }
  }

  /** Trade prices never improve along the pass and a LIMIT order never does worse than its
      own price. */
  lemma MatchPrices(side: BuySell, o: Ord, q: seq<Ord>, left: Quantity)
    requires o.side != NoSide && side == Opposite(o.side) && Sorted(side, q)
    ensures var ts := Match(o, q, left).trades;
      && (forall i, j :: 0 <= i < j < |ts| ==> !Better(side, ts[j].price, ts[i].price))
      && (!Aggressive(o.otype) ==>
            forall i :: 0 <= i < |ts| ==>
              if o.side == Buy then ts[i].price <= o.price else ts[i].price >= o.price)
  {
    var ts := Match(o, q, left).trades;
    forall i | 0 <= i < |ts| ensures |ts| <= |q| && ts[i].price == q[i].price && Crosses(o, ts[i].price) {
      MatchAt(o, q, left, i);
    }
    forall i, j | 0 <= i < j < |ts| ensures !Better(side, ts[j].price, ts[i].price) {
      assert Prior(side, q[i], q[j]);
    }
  }

  /** An IOC (or MARKET) order trades at a price that a LIMIT order with its price would refuse,
      exactly when it asks for more than stands within that price and anything stands beyond. */
  lemma {:induction false} BeyondLimitIff(side: BuySell, o: Ord, q: seq<Ord>, left: Quantity)
    requires o.side != NoSide && side == Opposite(o.side) && Sorted(side, q) && Positive(q) && Aggressive(o.otype)
    ensures var limited := o.(otype := Limit);
      (exists t :: t in Match(o, q, left).trades && !Crosses(limited, t.price))
      <==> CrossableVolume(limited, q) < left && exists x :: x in q && !Crosses(limited, x.price)
  {
    var limited, ts := o.(otype := Limit), Match(o, q, left).trades;
    if left == 0 || q == [] {
    } else if !Crosses(limited, q[0].price) {
      NothingBeyondCrosses(side, limited, q);
      assert ts[0].price == q[0].price && ts[0] in ts;
    } else if left >= q[0].qty {
      BeyondLimitIff(side, o, q[1..], left - q[0].qty);
      var later := Match(o, q[1..], left - q[0].qty).trades;
      assert ts[1..] == later;
      assert forall t :: t in ts <==> t == ts[0] || t in later;
      assert forall x :: x in q <==> x == q[0] || x in q[1..];
    }
  }

  /** One IOC buy of 2 at 100 against 1 at 100 and 1 at 105 pays 105. */
  lemma IocPaysBeyondItsLimit(o: Ord, q: seq<Ord>)
    requires o.side == Buy && o.otype == Ioc && o.price == 100 && o.qty == 2
    requires |q| == 2 && q[0].price == 100 && q[1].price == 105 && q[0].qty == q[1].qty == 1 && Sorted(Sell, q)
    ensures exists t :: t in Match(o, q, o.qty).trades && t.price == 105 > o.price
  {
    var later := Match(o, q[1..], 1).trades;
    assert later[0].price == 105;
    assert Match(o, q, o.qty).trades[1] == later[0];
  }

  /** Trade i closes its resting order exactly when the incoming quantity covers the first
      i + 1 orders of the queue. */
  lemma {:induction false} ClosedIff(o: Ord, q: seq<Ord>, left: Quantity, i: nat)
    requires Positive(q) && i < |Match(o, q, left).trades|
    ensures |Match(o, q, left).trades| <= |q|
    ensures Match(o, q, left).trades[i].quantity == q[i].qty <==> Sum(q[..i + 1]) <= left
  {
    MatchEnd(o, q, left);
    assert q[..i + 1] == [q[0]] + q[1..][..i] && q[..i + 1][1..] == q[1..][..i];
    if left >= q[0].qty {
      var n := Match(o, q[1..], left - q[0].qty);
      assert Match(o, q, left).trades[1..] == n.trades;
      if i > 0 {
        ClosedIff(o, q[1..], left - q[0].qty, i - 1);
      }
    }
  }

  /** The pass goes no further than the i-th order: the quantity is used up there, the queue
      ends, or the next order does not cross. */
  predicate LastMet(o: Ord, q: seq<Ord>, left: Quantity, i: nat)
    requires i < |q|
  {
    left <= Sum(q[..i + 1]) || i + 1 == |q| || !Crosses(o, q[i + 1].price)
  }

  lemma {:induction false} LastTradeIff(o: Ord, q: seq<Ord>, left: Quantity, i: nat)
    requires Positive(q) && i < |Match(o, q, left).trades|
    ensures |Match(o, q, left).trades| <= |q|
    ensures i == |Match(o, q, left).trades| - 1 <==> LastMet(o, q, left, i)
  {
    MatchEnd(o, q, left);
    assert q[..i + 1] == [q[0]] + q[1..][..i] && q[..i + 1][1..] == q[1..][..i];
    if left >= q[0].qty {
      var n := Match(o, q[1..], left - q[0].qty);
      assert Match(o, q, left).trades[1..] == n.trades;
      if i > 0 {
        LastTradeIff(o, q[1..], left - q[0].qty, i - 1);
      }
    }
  }

  lemma NothingBehindCrosses(side: BuySell, o: Ord, q: seq<Ord>, i: nat)
    requires o.side != NoSide && side == Opposite(o.side) && Sorted(side, q) && i < |q|
    requires !Crosses(o, q[0].price)
    ensures !Crosses(o, q[i].price)
  {
    if i > 0 {
      assert Prior(side, q[0], q[i]);
    }
  }

  /** An order of the queue is gone afterwards exactly when it crosses and the incoming quantity
      covers it with everything ahead of it. */
  lemma {:induction false} GoneIff(side: BuySell, o: Ord, q: seq<Ord>, left: Quantity, i: nat)
    requires o.side != NoSide && side == Opposite(o.side) && Sorted(side, q) && Positive(q) && DistinctIds(q)
    requires i < |q|
    ensures q[i].id !in Ids(Match(o, q, left).rest) <==> Crosses(o, q[i].price) && Sum(q[..i + 1]) <= left
  {
    var tail := q[1..];
    assert q[..i + 1] == [q[0]] + tail[..i] && q[..i + 1][1..] == tail[..i];
    assert q[i].id in Ids(q);
    if left == 0 {
    } else if !Crosses(o, q[0].price) {
      NothingBehindCrosses(side, o, q, i);
    } else if left < q[0].qty {
      SameIds(q, Match(o, q, left).rest);
    } else if i == 0 {
      MatchLeavesSuffix(o, tail, left - q[0].qty);
      LeftoverIds(Match(o, tail, left - q[0].qty).rest, tail);
      assert q[0].id !in Ids(tail);
    } else {
      GoneIff(side, o, tail, left - q[0].qty, i - 1);
    }
  }

  lemma SameIds(q: seq<Ord>, r: seq<Ord>)
    requires q != [] && r != [] && q[0].id == r[0].id && q[1..] == r[1..]
    ensures Ids(q) == Ids(r)
  {
    IdsCons(q);
    IdsCons(r);
  }

  lemma LeftoverIds(rest: seq<Ord>, q: seq<Ord>)
    requires Leftover(rest, q) && Positive(q)
    ensures Ids(rest) <= Ids(q)
  {
    forall i | 0 <= i < |rest| ensures rest[i].id in Ids(q) {
      LeftoverAt(rest, q, i);
      assert q[|q| - |rest| + i].id in Ids(q);
    }
  }

  /** Price-time priority: if any order behind `a` traded, `a` is gone from the book and
      was traded for its whole quantity. Priority is compared on price and arrival stamp. */
  lemma MatchRespectsPriority(side: BuySell, o: Ord, q: seq<Ord>, left: Quantity, clock: nat, a: Ord, b: Ord, t: Trade)
    requires o.side != NoSide && side == Opposite(o.side) && SideOk(side, q, clock)
    requires a in q && b in q && Prior(side, a, b)
    requires t in Match(o, q, left).trades && Passive(o, t) == b.id
    ensures a.id !in Ids(Match(o, q, left).rest)
    ensures exists u :: u in Match(o, q, left).trades && Passive(o, u) == a.id && u.quantity == a.qty
  {
    var m := Match(o, q, left);
    var i :| 0 <= i < |m.trades| && m.trades[i] == t;
    var x :| 0 <= x < |q| && q[x] == a;
    var y :| 0 <= y < |q| && q[y] == b;
    assert y == i by { MatchAt(o, q, left, i); }
    assert x < y by {
      assert x > y ==> Prior(side, q[y], q[x]);
    }
    MatchAt(o, q, left, x);
    assert m.trades[x] in m.trades;
    MatchLeavesSuffix(o, q, left);
    forall z | 0 <= z < |m.rest| ensures m.rest[z].id != a.id {
      LeftoverAt(m.rest, q, z);
    }
  }

  /** One order of q1 + q2 and two orders of q1 then q2 (same side, type and limit) leave
      the same contra queue, volume and notional. */
  lemma {:induction false} MatchSplit(o: Ord, o2: Ord, q: seq<Ord>, q1: Quantity, q2: Quantity, both: Quantity)
    requires both == q1 + q2
    requires o2.side == o.side && o2.otype == o.otype && o2.price == o.price
    requires Positive(q)
    ensures SplitAgrees(o, o2, q, q1, q2, both)
  {
    if q == [] || !Crosses(o, q[0].price) {
    } else if q1 == 0 {
      MatchTaker(o, o2, q, q2);
    } else if q1 < q[0].qty {
      MatchSplitInHead(o, o2, q, q1, q2, both);
    } else {
      MatchSplit(o, o2, q[1..], q1 - q[0].qty, q2, both - q[0].qty);
      MatchSplitBeyondHead(o, o2, q, q1, q2, both);
    }
  }

  ghost predicate SplitAgrees(o: Ord, o2: Ord, q: seq<Ord>, q1: Quantity, q2: Quantity, both: Quantity) {
    var whole := Match(o, q, both);
    var first := Match(o, q, q1);
    var second := Match(o2, first.rest, q2);
    && second.rest == whole.rest
    && first.left + second.left == whole.left
    && Executed(first.trades) + Executed(second.trades) == Executed(whole.trades)
    && Notional(first.trades) + Notional(second.trades) == Notional(whole.trades)
  }

  lemma MatchSplitBeyondHead(o: Ord, o2: Ord, q: seq<Ord>, q1: Quantity, q2: Quantity, both: Quantity)
    requires both == q1 + q2
    requires q != [] && Crosses(o, q[0].price) && 0 < q[0].qty <= q1
    requires SplitAgrees(o, o2, q[1..], q1 - q[0].qty, q2, both - q[0].qty)
    ensures SplitAgrees(o, o2, q, q1, q2, both)
  {
    MatchClosesHead(o, q, q1);
    MatchClosesHead(o, q, both);
  }

  lemma MatchClosesHead(o: Ord, q: seq<Ord>, left: Quantity)
    requires q != [] && Crosses(o, q[0].price) && 0 < q[0].qty <= left
    ensures var m := Match(o, q, left);
      var n := Match(o, q[1..], left - q[0].qty);
      && m.rest == n.rest && m.left == n.left
      && Executed(m.trades) == q[0].qty + Executed(n.trades)
      && Notional(m.trades) == q[0].price * q[0].qty + Notional(n.trades)
  {
    assert Match(o, q, left).trades[1..] == Match(o, q[1..], left - q[0].qty).trades;
  }

  lemma MatchReducesHead(o: Ord, q: seq<Ord>, left: Quantity)
    requires q != [] && Crosses(o, q[0].price) && 0 < left < q[0].qty
    ensures var m := Match(o, q, left);
      && m.rest == [q[0].(qty := q[0].qty - left, status := Modified)] + q[1..] && m.left == 0
      && Executed(m.trades) == left
      && Notional(m.trades) == q[0].price * left
  {
    var t := MakeTrade(o, q[0], left, Partial);
    assert Match(o, q, left).trades == [t];
    assert [t][1..] == [];
  }

  lemma MatchNothing(o: Ord, q: seq<Ord>)
    ensures Match(o, q, 0) == Matched(q, [], 0)
    ensures Executed(Match(o, q, 0).trades) == Notional(Match(o, q, 0).trades) == 0
  {
  }

  /** The split falls inside the first order of the queue. */
  lemma MatchSplitInHead(o: Ord, o2: Ord, q: seq<Ord>, q1: Quantity, q2: Quantity, both: Quantity)
    requires both == q1 + q2
    requires o2.side == o.side && o2.otype == o.otype && o2.price == o.price
    requires q != [] && Crosses(o, q[0].price) && 0 < q1 < q[0].qty
    ensures SplitAgrees(o, o2, q, q1, q2, both)
  {
    hide Match, Executed, Notional;
    MatchReducesHead(o, q, q1);
    var rest := Match(o, q, q1).rest;
    assert rest[1..] == q[1..];
    if q2 == 0 {
      MatchNothing(o2, rest);
    } else if q2 < rest[0].qty {
      MatchSplitWithinHead(o, o2, q, q1, q2, both);
    } else {
      MatchClosesHead(o2, rest, q2);
      MatchClosesHead(o, q, both);
      MatchTaker(o, o2, q[1..], q2 - rest[0].qty);
      Distribute(q[0].price, q1, rest[0].qty);
    }
  }

  lemma MatchSplitWithinHead(o: Ord, o2: Ord, q: seq<Ord>, q1: Quantity, q2: Quantity, both: Quantity)
    requires both == q1 + q2
    requires o2.side == o.side && o2.otype == o.otype && o2.price == o.price
    requires q != [] && Crosses(o, q[0].price) && 0 < q1 && 0 < q2 && both < q[0].qty
    ensures SplitAgrees(o, o2, q, q1, q2, both)
  {
    MatchReducesHead(o, q, q1);
    MatchReducesHead(o, q, both);
    var rest := Match(o, q, q1).rest;
    MatchReducesHead(o2, rest, q2);
    assert rest[1..] == q[1..];
    assert rest[0].(qty := rest[0].qty - q2, status := Modified) == q[0].(qty := q[0].qty - both, status := Modified);
    Distribute(q[0].price, q1, q2);
  }

  lemma Distribute(p: int, a: int, b: int)
    ensures p * (a + b) == p * a + p * b
  {
  }

  /** Only side, type and limit of the taker decide what the pass does to the contra side. */
  lemma {:induction false} MatchTaker(o: Ord, o2: Ord, q: seq<Ord>, left: Quantity)
    requires o2.side == o.side && o2.otype == o.otype && o2.price == o.price
    ensures var m := Match(o, q, left);
      var n := Match(o2, q, left);
      && m.rest == n.rest && m.left == n.left
      && Executed(m.trades) == Executed(n.trades) && Notional(m.trades) == Notional(n.trades)
      && (o2.id == o.id ==> m == n)
  {
    if left == 0 || q == [] || !Crosses(o, q[0].price) {
    } else if left < q[0].qty {
    } else {
      MatchTaker(o, o2, q[1..], left - q[0].qty);
      assert Match(o, q, left).trades[1..] == Match(o, q[1..], left - q[0].qty).trades;
      assert Match(o2, q, left).trades[1..] == Match(o2, q[1..], left - q[0].qty).trades;
    }
  }
}
