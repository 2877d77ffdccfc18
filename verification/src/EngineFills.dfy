/** When the leavesQty of an execution report is right: the engine reports the incoming order's
    final quantity with each of its trades, and 0 for the resting order. */
module EngineFills {
  import opened Types
  import opened OrderQueue
  import opened Matching
  import opened Book
  import opened BookRuns
  import opened Engine
  import opened EngineRuns
  import opened EngineMessages
  import opened EngineBooks
  import opened Isolation

  /** In one pass a resting order trades at most once. */
  lemma {:induction false} TradedOnce(o: Ord, q: seq<Ord>, left: Quantity, i: nat)
    requires o.side != NoSide && DistinctIds(q) && i < |Match(o, q, left).trades|
    ensures |Match(o, q, left).trades| <= |q|
    ensures TradedWith(o, Match(o, q, left).trades, q[i].id) == Match(o, q, left).trades[i].quantity
  {
    MatchEnd(o, q, left);
    var ts := Match(o, q, left).trades;
    if left >= q[0].qty {
      var n := Match(o, q[1..], left - q[0].qty);
      assert ts[1..] == n.trades;
      if i > 0 {
        TradedOnce(o, q[1..], left - q[0].qty, i - 1);
      } else {
        assert q[0].id !in Ids(q[1..]);
        MatchIgnores(o, q[1..], left - q[0].qty, q[0].id);
      }
    } else {
      assert ts[1..] == [];
    }
  }

  /** The passive order of trade i is gone afterwards exactly when the incoming quantity covers
      the first i + 1 orders of the other side. */
  lemma PassiveGoneIff(s: Book, o: Ord, i: nat)
    requires Inv(s) && o.id !in s.index && o.side != NoSide && i < |Add(s, o).trades|
    ensures |Add(s, o).trades| <= |Contra(s, o.side)|
    ensures QtyOf(Add(s, o), Passive(o, Add(s, o).trades[i])) == 0 <==> Sum(Contra(s, o.side)[..i + 1]) <= o.qty
  {
    hide Add, Lookup, TradedWith, Match, Sum;
    var q := Contra(s, o.side);
    assert s.(index := s.index - {o.id}) == s;
    StepTrades(s, o);
    AddFreshInvIff(s, o);
    InvSided(s, o.side);
    MatchAt(o, q, o.qty, i);
    TradedOnce(o, q, o.qty, i);
    ClosedIff(o, q, o.qty, i);
    AddFillsEach(s, o, q[i]);
  }

  /** Trade i is the last and the order keeps or has used up what it asked for. */
  predicate FinalAt(o: Ord, q: seq<Ord>, i: nat)
    requires i < |q|
  {
    LastMet(o, q, o.qty, i) && (Aggressive(o.otype) ==> o.qty <= CrossableVolume(o, q))
  }

  lemma {:induction false} ExecutedSplit(ts: seq<Trade>, k: nat)
    requires k <= |ts|
    ensures Executed(ts) == Executed(ts[..k]) + Executed(ts[k..])
  {
    if k > 0 {
      ExecutedSplit(ts[1..], k - 1);
      assert ts[..k][1..] == ts[1..][..k - 1] && ts[1..][k - 1..] == ts[k..];
    } else {
      assert ts[0..] == ts;
    }
  }

  lemma {:induction false} TradesPositive(o: Ord, q: seq<Ord>, left: Quantity)
    requires Positive(q)
    ensures forall t :: t in Match(o, q, left).trades ==> t.quantity > 0
  {
    if left > 0 && q != [] && Crosses(o, q[0].price) && left >= q[0].qty {
      TradesPositive(o, q[1..], left - q[0].qty);
    }
  }

  /** The final quantity is what was open after trade i exactly for the last trade of an order
      that does not lose a remainder. */
  lemma FinalQtyIff(s: Book, o: Ord, i: nat)
    requires Inv(s) && o.side != NoSide && i < |Add(s, o).trades|
    ensures |Add(s, o).trades| <= |Contra(s, o.side)|
    ensures Outcome(s, o).qty == o.qty - Executed(Add(s, o).trades[..i + 1]) <==> FinalAt(o, Contra(s, o.side), i)
  {
    hide Add, Match, CrossableVolume, LastMet;
    var q, ts := Contra(s, o.side), Add(s, o).trades;
    StepTrades(s, o);
    InvSided(s, o.side);
    MatchConserves(o, q, o.qty);
    MatchVolume(Opposite(o.side), o, q, o.qty);
    TradesPositive(o, q, o.qty);
    LastTradeIff(o, q, o.qty, i);
    ExecutedSplit(ts, i + 1);
    if i + 1 < |ts| {
      assert ts[i + 1..][0] == ts[i + 1] && ts[i + 1] in ts;
    }
  }

  /** Of the two reports of trade i, the resting order's has the right leavesQty exactly when
      the incoming quantity covers the first i + 1 orders of the other side, and the incoming
      order's exactly for the last trade of an order that does not lose a remainder: both read
      off the book before the message. */
  lemma LeavesRightIff(e: Engine, c: ClientOrderId, o: Ord, i: nat)
    requires EngineInv(e) && o.id == e.nextOrderId && o.id + 1 < TWO_64
    requires Refusal(o.side, o.otype, o.price, o.qty).None? && i < |Add(e.book, o).trades|
    ensures |Add(e.book, o).trades| <= |Contra(e.book, o.side)|
    ensures |e.sent| + 2 * i + 1 < |Accept(e, c, o).sent|
    ensures var r, ts := Accept(e, c, o).sent[|e.sent| + 2 * i], Add(e.book, o).trades;
      && r.ExecutionReport? && r.orderId == o.id
      && (r.leaves == o.qty - Executed(ts[..i + 1])
          <==> FinalAt(o, Contra(e.book, o.side), i))
    ensures var r := Accept(e, c, o).sent[|e.sent| + 2 * i + 1];
      && r.ExecutionReport? && r.orderId == Passive(o, Add(e.book, o).trades[i])
      && (r.leaves == QtyOf(Accept(e, c, o).book, r.orderId) <==> Sum(Contra(e.book, o.side)[..i + 1]) <= o.qty)
  {
    hide Add, Match, Accept, Refusal, QtyOf, Executed, FinalAt, Sum, Inv, Tracking;
    NewOrderReports(e, c, o);
    AcceptBook(e, c, o);
    Acceptable(e, o);
    FinalQtyIff(e.book, o, i);
    PassiveGoneIff(e.book, o, i);
    var x := TradeOwner(e, o, i);
    assert ReportedAt(e, Accept(e, c, o), Outcome(e.book, o), Add(e.book, o).trades[i], i);
  }

  lemma Acceptable(e: Engine, o: Ord)
    requires EngineInv(e) && o.id == e.nextOrderId && Refusal(o.side, o.otype, o.price, o.qty).None?
    ensures o.side != NoSide && o.id !in e.book.index
  {
    FreshId(e);
  }
}
