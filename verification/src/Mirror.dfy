/** The buy path and the sell path are one algorithm: swapping the sides and reflecting the
    prices commutes with every operation. The reflection is p to -1-p, which reverses the
    order of the 32-bit prices and, unlike negation, is total on them. */
module Mirror {
  import opened Types
  import opened OrderQueue
  import opened Matching
  import opened LevelCache
  import opened Book
  import opened BookRuns

  function Flip(p: Price): Price {
    -1 - p
  }

  function FlipOrd(o: Ord): Ord {
    o.(side := Opposite(o.side), price := Flip(o.price))
  }

  function FlipQueue(q: seq<Ord>): (r: seq<Ord>)
    ensures |r| == |q|
  {
    if q == [] then [] else [FlipOrd(q[0])] + FlipQueue(q[1..])
  }

  function FlipTrades(ts: seq<Trade>): seq<Trade> {
    if ts == [] then []
    else [Trade(Flip(ts[0].price), ts[0].quantity, ts[0].tradeType, ts[0].sellId, ts[0].buyId)] + FlipTrades(ts[1..])
  }

  ghost function FlipCache(c: Cache): Cache {
    map p: Price | Flip(p) in c :: c[Flip(p)].(price := Flip(c[Flip(p)].price))
  }

  ghost function FlipBook(s: Book): Book {
    Book(FlipQueue(s.asks), FlipQueue(s.bids), s.index, FlipCache(s.cache), FlipTrades(s.trades), s.clock)
  }

  ghost function FlipOp(op: Op): Op {
    match op
    case AddOp(o) => AddOp(FlipOrd(o))
    case ModifyOp(id, p, x) => ModifyOp(id, Flip(p), x)
    case CancelOp(_) => op
  }

  lemma {:induction false} FlipIds(q: seq<Ord>)
    ensures Ids(FlipQueue(q)) == Ids(q)
  {
    if q != [] {
      FlipIds(q[1..]);
      IdsCons(q);
      IdsCons(FlipQueue(q));
      assert FlipQueue(q)[1..] == FlipQueue(q[1..]);
    }
  }

  lemma FlipFill(c: Cache, p: Price, x: Quantity, closed: bool)
    ensures FillLevel(FlipCache(c), Flip(p), x, closed) == FlipCache(FillLevel(c, p, x, closed))
  {
    var l, r := FillLevel(FlipCache(c), Flip(p), x, closed), FlipCache(FillLevel(c, p, x, closed));
    forall k: Price ensures k in l <==> k in r {
      assert k == Flip(p) <==> Flip(k) == p;
    }
    forall k: Price | k in l ensures l[k] == r[k] {
      assert k == Flip(p) <==> Flip(k) == p;
    }
  }

  lemma FlipAddLevel(c: Cache, p: Price, x: Quantity)
    ensures AddLevel(FlipCache(c), Flip(p), x) == FlipCache(AddLevel(c, p, x))
  {
    var l, r := AddLevel(FlipCache(c), Flip(p), x), FlipCache(AddLevel(c, p, x));
    forall k: Price ensures k in l <==> k in r {
      assert k == Flip(p) <==> Flip(k) == p;
    }
    forall k: Price | k in l ensures l[k] == r[k] {
      assert k == Flip(p) <==> Flip(k) == p;
    }
  }

  lemma {:induction false} FlipInsert(q: seq<Ord>, o: Ord)
    requires o.side != NoSide
    ensures Insert(FlipQueue(q), FlipOrd(o)) == FlipQueue(Insert(q, o))
  {
    if q == [] || Better(o.side, o.price, q[0].price) {
      assert ([o] + q)[1..] == q;
    } else {
      FlipInsert(q[1..], o);
      assert FlipQueue(q)[1..] == FlipQueue(q[1..]);
      assert Insert(q, o)[1..] == Insert(q[1..], o);
    }
  }

  lemma {:induction false} FlipRemove(q: seq<Ord>, id: OrderId)
    ensures Remove(FlipQueue(q), id) == FlipQueue(Remove(q, id))
  {
    if q != [] {
      assert FlipQueue(q)[1..] == FlipQueue(q[1..]);
      if q[0].id != id {
        FlipRemove(q[1..], id);
        assert Remove(q, id)[1..] == Remove(q[1..], id);
      }
    }
  }

  lemma {:induction false} FlipFind(q: seq<Ord>, id: OrderId)
    ensures Find(FlipQueue(q), id) == if Find(q, id).Some? then Some(FlipOrd(Find(q, id).value)) else None
  {
    if q != [] {
      assert FlipQueue(q)[1..] == FlipQueue(q[1..]);
      FlipFind(q[1..], id);
    }
  }

  /** The matching pass commutes with the mirror. */
  lemma {:induction false} FlipMatch(o: Ord, q: seq<Ord>, left: Quantity)
    requires o.side != NoSide
    ensures var m := Match(o, q, left);
      Match(FlipOrd(o), FlipQueue(q), left) == Matched(FlipQueue(m.rest), FlipTrades(m.trades), m.left)
  {
    if q != [] {
      assert FlipQueue(q)[1..] == FlipQueue(q[1..]);
    }
    if left == 0 || q == [] || !Crosses(o, q[0].price) {
    } else if left < q[0].qty {
      var m := Match(o, q, left);
      assert m.rest[1..] == q[1..];
      assert FlipTrades(m.trades[1..]) == [];
    } else {
      FlipMatch(o, q[1..], left - q[0].qty);
      var m := Match(o, q, left);
      assert m.trades[1..] == Match(o, q[1..], left - q[0].qty).trades;
    }
  }

  lemma {:induction false} FlipMatchCache(c: Cache, o: Ord, q: seq<Ord>, left: Quantity)
    requires o.side != NoSide
    ensures MatchCache(FlipCache(c), FlipOrd(o), FlipQueue(q), left) == FlipCache(MatchCache(c, o, q, left))
    decreases |q|
  {
    hide FillLevel, FlipCache;
    if q != [] {
      assert FlipQueue(q)[1..] == FlipQueue(q[1..]);
    }
    if left == 0 || q == [] || !Crosses(o, q[0].price) {
    } else if left < q[0].qty {
      FlipFill(c, q[0].price, left, false);
    } else {
      FlipFill(c, q[0].price, q[0].qty, true);
      FlipMatchCache(FillLevel(c, q[0].price, q[0].qty, true), o, q[1..], left - q[0].qty);
    }
  }

  lemma FlipTake(s: Book, o: Ord)
    requires o.side != NoSide
    ensures Take(FlipBook(s), FlipOrd(o)) == FlipBook(Take(s, o))
  {
    var q := Contra(s, o.side);
    FlipMatch(o, q, o.qty);
    FlipMatchCache(s.cache, o, q, o.qty);
    FlipIds(q);
    FlipIds(Match(o, q, o.qty).rest);
  }

  lemma FlipAdd(s: Book, o: Ord)
    requires o.side != NoSide
    ensures Add(FlipBook(s), FlipOrd(o)) == FlipBook(Add(s, o))
  {
    FlipTake(s, o);
    FlipMatch(o, Contra(s, o.side), o.qty);
    var done := Outcome(s, o);
    assert Outcome(FlipBook(s), FlipOrd(o)) == FlipOrd(done);
    FlipInsert(Own(s, o.side), done);
    FlipAddLevel(Take(s, o).cache, o.price, done.qty);
  }

  lemma FlipWithdraw(s: Book, o: Ord)
    requires o.side != NoSide
    ensures Withdraw(FlipBook(s), FlipOrd(o)) == FlipBook(Withdraw(s, o))
  {
    FlipRemove(Own(s, o.side), o.id);
    FlipFill(s.cache, o.price, o.qty, true);
  }

  lemma FlipLookup(s: Book, id: OrderId)
    requires Inv(s)
    ensures Lookup(FlipBook(s), id)
         == if Lookup(s, id).Some? then Some(FlipOrd(Lookup(s, id).value)) else None
  {
    FlipFind(s.bids, id);
    FlipFind(s.asks, id);
    FindIn(s.bids, id);
    FindIn(s.asks, id);
  }

  lemma FlipStep(s: Book, op: Op)
    requires Inv(s) && Legal(s, op)
    ensures Step(FlipBook(s), FlipOp(op)) == FlipBook(Step(s, op))
  {
    match op
    case AddOp(o) => FlipAdd(s, o);
    case CancelOp(id) =>
      FlipLookup(s, id);
      LookupIn(s, id);
      if Lookup(s, id).Some? {
        FlipWithdraw(s, Lookup(s, id).value);
      }
    case ModifyOp(id, p, x) =>
      FlipLookup(s, id);
      LookupIn(s, id);
      if Lookup(s, id).Some? {
        var o := Lookup(s, id).value;
        FlipWithdraw(s, o);
        FlipAdd(Withdraw(s, o), o.(price := p, qty := x, status := Modified));
      }
  }

  ghost function FlipOps(ops: seq<Op>): seq<Op> {
    if ops == [] then [] else [FlipOp(ops[0])] + FlipOps(ops[1..])
  }

  /** A run with every buy and sell exchanged is the mirror image of the run. */
  lemma {:induction false} FlipRun(s: Book, ops: seq<Op>)
    requires Inv(s) && LegalRun(s, ops)
    ensures Run(FlipBook(s), FlipOps(ops)) == FlipBook(Run(s, ops))
    decreases |ops|
  {
    if ops != [] {
      FlipStep(s, ops[0]);
      StepInv(s, ops[0]);
      FlipRun(Step(s, ops[0]), ops[1..]);
      assert FlipOps(ops)[1..] == FlipOps(ops[1..]);
    }
  }
}
