/** Orderbook::AddOrder, ModifyOrder and CancelOrder on values, and the invariant they keep. */
module Book {
  import opened Types
  import opened OrderQueue
  import opened Matching
  import opened LevelCache

  datatype Option<T> = None | Some(value: T)

  /** bids_, asks_, the keys of orders_, price_to_leveldata_, trades; and the arrival clock. */
  datatype Book = Book(
    bids: seq<Ord>,
    asks: seq<Ord>,
    index: set<OrderId>,
    cache: Cache,
    trades: seq<Trade>,
    clock: nat)

  /** The book as constructed. */
  ghost predicate IsNew(s: Book) {
    s.bids == [] && s.asks == [] && s.index == {} && s.cache == map[] && s.trades == []
  }

  // ---------------------------------------------------------------- operations

  /** The side an incoming order is matched against. */
  function Contra(s: Book, side: BuySell): seq<Ord> {
    match side
    case Buy => s.asks
    case Sell => s.bids
    case NoSide => []
  }

  /** The side an order rests on: asks_ for everything that is not a buy. */
  function Own(s: Book, side: BuySell): seq<Ord> {
    if side == Buy then s.bids else s.asks
  }

  function WithContra(s: Book, side: BuySell, q: seq<Ord>): Book {
    match side
    case Buy => s.(asks := q)
    case Sell => s.(bids := q)
    case NoSide => s
  }

  function WithOwn(s: Book, side: BuySell, q: seq<Ord>): Book {
    if side == Buy then s.(bids := q) else s.(asks := q)
  }

  predicate Rests(o: Ord, left: Quantity) {
    !Aggressive(o.otype) && left > 0
  }

  function FinalStatus(o: Ord, left: Quantity): OrderStatus {
    if left == 0 && o.qty > 0 then Traded
    else if Aggressive(o.otype) then Cancelled
    else if left < o.qty || o.status == Modified then Modified
    else New
  }

  /** What the caller's order object holds after the add. */
  function Outcome(s: Book, o: Ord): Ord {
    var left := Match(o, Contra(s, o.side), o.qty).left;
    o.(qty := if Aggressive(o.otype) then 0 else left,
       status := FinalStatus(o, left),
       stamp := if Rests(o, left) then s.clock else o.stamp)
  }

  /** The matching phase: trades, contra side, cache and index of closed orders. */
  ghost function Take(s: Book, o: Ord): Book {
    var q := Contra(s, o.side);
    var m := Match(o, q, o.qty);
    WithContra(s, o.side, m.rest).(
      cache := MatchCache(s.cache, o, q, o.qty),
      trades := m.trades,
      index := s.index - (Ids(q) - Ids(m.rest)))
  }

  /** push_back on the own side, with level data and index entry. */
  function Place(s: Book, o: Ord): Book {
    WithOwn(s, o.side, Insert(Own(s, o.side), o)).(
      cache := AddLevel(s.cache, o.price, o.qty),
      index := s.index + {o.id},
      clock := s.clock + 1)
  }

  ghost function Add(s: Book, o: Ord): Book {
    var done := Outcome(s, o);
    if done.status == Traded then Take(s, o).(index := Take(s, o).index - {o.id})
    else if Rests(o, done.qty) then Place(Take(s, o), done)
    else Take(s, o)
  }

  function Find(q: seq<Ord>, id: OrderId): Option<Ord> {
    if q == [] then None
    else if q[0].id == id then Some(q[0])
    else Find(q[1..], id)
  }

  function Lookup(s: Book, id: OrderId): Option<Ord> {
    if Find(s.bids, id).Some? then Find(s.bids, id) else Find(s.asks, id)
  }

  /** updateLevelOnFill then removeOrderFromBook; the index is left to the caller. */
  function Withdraw(s: Book, o: Ord): Book {
    WithOwn(s, o.side, Remove(Own(s, o.side), o.id)).(cache := FillLevel(s.cache, o.price, o.qty, true))
  }

  function Cancel(s: Book, id: OrderId): Book {
    match Lookup(s, id)
    case None => s
    case Some(o) => Withdraw(s, o).(index := s.index - {id})
  }

  ghost function Modify(s: Book, id: OrderId, p: Price, x: Quantity): Book {
    match Lookup(s, id)
    case None => s
    case Some(o) =>
      if o.price == p && o.qty == x then s
      else Add(Withdraw(s, o), o.(price := p, qty := x, status := Modified))
  }

  // ---------------------------------------------------------------- invariant

  /** Every price of `own` is strictly on its own side of every price of `contra`. */
  ghost predicate Apart(side: BuySell, own: seq<Ord>, contra: seq<Ord>) {
    forall a, b :: a in own && b in contra ==> Better(Opposite(side), a.price, b.price)
  }

  /** Each side in strict price-time order with positive resting quantities, no id twice,
      the index exactly the resting ids, and the book neither crossed nor locked. */
  ghost predicate SidesOk(side: BuySell, own: seq<Ord>, contra: seq<Ord>, index: set<OrderId>, clock: nat) {
    && SideOk(side, own, clock)
    && SideOk(Opposite(side), contra, clock)
    && Ids(own) !! Ids(contra)
    && index == Ids(own) + Ids(contra)
    && Apart(side, own, contra)
  }

  ghost predicate Inv(s: Book) {
    SidesOk(Buy, s.bids, s.asks, s.index, s.clock)
  }

  ghost predicate InSync(s: Book) {
    Agrees(s.cache, s.bids, s.asks)
  }

  lemma NewInv(s: Book)
    requires IsNew(s)
    ensures Inv(s) && InSync(s) && Fits(s.bids, s.asks)
  {
    forall p: Price ensures AgreesAt(s.cache, s.bids, s.asks, p) {}
  }

  /** The invariant read from either side. */
  lemma InvSided(s: Book, side: BuySell)
    requires side != NoSide
    ensures Inv(s) <==> SidesOk(side, Own(s, side), Contra(s, side), s.index, s.clock)
  {
  }

  lemma InSyncSided(s: Book, side: BuySell)
    requires side != NoSide
    ensures InSync(s) <==> Agrees(s.cache, Own(s, side), Contra(s, side))
    ensures InSync(s) <==> Agrees(s.cache, Contra(s, side), Own(s, side))
  {
    AgreesSwap(s.cache, s.bids, s.asks);
  }

  lemma {:induction false} FindIn(q: seq<Ord>, id: OrderId)
    ensures Find(q, id).None? <==> id !in Ids(q)
    ensures Find(q, id).Some? ==> Find(q, id).value in q && Find(q, id).value.id == id
    ensures DistinctIds(q) ==> forall x :: x in q && x.id == id ==> Find(q, id) == Some(x)
  {
    if q != [] {
      FindIn(q[1..], id);
      IdsCons(q);
      forall x | DistinctIds(q) && x in q && x.id == id ensures Find(q, id) == Some(x) {
        if q[0].id == id {
          if x in q[1..] { assert false; }
        } else {
          assert x in q[1..];
        }
      }
    }
  }

  lemma LookupIn(s: Book, id: OrderId)
    requires Inv(s)
    ensures Lookup(s, id).None? <==> id !in s.index
    ensures forall o :: Lookup(s, id) == Some(o) ==>
      o.id == id && o.side != NoSide && o in Own(s, o.side) && id !in Ids(Contra(s, o.side))
    ensures forall o :: (o in s.bids || o in s.asks) && o.id == id ==> Lookup(s, id) == Some(o)
  {
    FindIn(s.bids, id);
    FindIn(s.asks, id);
    forall o | o in s.bids ensures o.id in Ids(s.bids) {}
    forall o | o in s.asks ensures o.id in Ids(s.asks) {}
  }

  // ---------------------------------------------------------------- preservation

  lemma SidesOkMatch(side: BuySell, own: seq<Ord>, q: seq<Ord>, index: set<OrderId>, clock: nat, o: Ord)
    requires SidesOk(side, own, q, index, clock) && o.side == side != NoSide
    ensures var rest := Match(o, q, o.qty).rest;
      SidesOk(side, own, rest, index - (Ids(q) - Ids(rest)), clock)
  {
    MatchKeepsSide(Opposite(side), o, q, o.qty, clock);
    var rest := Match(o, q, o.qty).rest;
    forall a, b | a in own && b in rest ensures Better(Opposite(side), a.price, b.price) {
      var j :| 0 <= j < |rest| && rest[j] == b;
      LeftoverAt(rest, q, j);
      assert q[|q| - |rest| + j] in q;
    }
  }

  lemma NothingLeftCrosses(side: BuySell, q: seq<Ord>, o: Ord)
    requires o.side != NoSide && side == Opposite(o.side) && Sorted(side, q)
    requires Sorted(side, Match(o, q, o.qty).rest) && Match(o, q, o.qty).left > 0
    ensures forall b :: b in Match(o, q, o.qty).rest ==> !Crosses(o, b.price)
  {
    MatchVolume(side, o, q, o.qty);
    var rest := Match(o, q, o.qty).rest;
    forall j | 0 <= j < |rest| ensures !Crosses(o, rest[j].price) {
      assert j == 0 || Prior(side, rest[0], rest[j]);
    }
  }

  /** After the matching phase the remainder, if any, does not cross what is left. */
  lemma TakeInv(s: Book, o: Ord)
    requires Inv(s) && o.side != NoSide
    ensures Inv(Take(s, o))
    ensures Own(Take(s, o), o.side) == Own(s, o.side) && Take(s, o).clock == s.clock
    ensures Match(o, Contra(s, o.side), o.qty).left > 0 ==>
      forall b :: b in Contra(Take(s, o), o.side) ==> !Crosses(o, b.price)
    ensures Take(s, o).index <= s.index
  {
    InvSided(s, o.side);
    var q := Contra(s, o.side);
    SidesOkMatch(o.side, Own(s, o.side), q, s.index, s.clock, o);
    if Match(o, q, o.qty).left > 0 {
      NothingLeftCrosses(Opposite(o.side), q, o);
    }
    InvSided(Take(s, o), o.side);
  }

  lemma PlaceInv(s: Book, o: Ord)
    requires Inv(s) && o.side != NoSide && o.id !in s.index
    requires o.qty > 0 && !Aggressive(o.otype) && o.stamp == s.clock
    requires forall b :: b in Contra(s, o.side) ==> !Crosses(o, b.price)
    ensures Inv(Place(s, o))
  {
    var own := Own(s, o.side);
    InvSided(s, o.side);
    InsertOk(own, o, s.clock);
    InsertMembers(own, o);
    SideOkLater(Opposite(o.side), Contra(s, o.side), s.clock);
    InvSided(Place(s, o), o.side);
  }

  /** Adding with a fresh id keeps the invariant for every type, price and quantity; the
      only failure is an order without a side that comes to rest. */
  lemma AddFreshInvIff(s: Book, o: Ord)
    requires Inv(s) && o.id !in s.index
    ensures Inv(Add(s, o)) <==> o.side != NoSide || !Rests(o, o.qty)
  {
    hide Add, Inv;
    AddInvIff(s, o);
  }

  lemma {:induction false} InsertFound(q: seq<Ord>, o: Ord)
    ensures o in Insert(q, o)
  {
    if !(q == [] || Better(o.side, o.price, q[0].price)) {
      InsertFound(q[1..], o);
    }
  }

  /** The three endings of an add whose order rests nowhere else; a record of its own id may be
      left over if the order is one that trades out or rests. */
  lemma AddEnds(s: Book, o: Ord)
    requires o.side != NoSide && (o.id in s.index ==> Rests(o, o.qty))
    ensures var t, done := Take(s.(index := s.index - {o.id}), o), Outcome(s, o);
      Add(s, o) == if done.status != Traded && Rests(o, done.qty) then Place(t, done) else t
  {
    hide Match, MatchCache, Ids;
    var q := Contra(s, o.side);
    MatchConserves(o, q, o.qty);
    var gone := Ids(q) - Ids(Match(o, q, o.qty).rest);
    IndexWithout(s.index, gone, o.id);
  }

  lemma IndexWithout(index: set<OrderId>, gone: set<OrderId>, id: OrderId)
    ensures index - {id} - gone == index - gone - {id}
    ensures index - {id} - gone + {id} == index - gone + {id}
    ensures id !in index ==> index - {id} - gone == index - gone
  {
  }

  lemma AddInv(s: Book, o: Ord)
    requires o.side != NoSide && (o.id in s.index ==> o.id !in Ids(s.bids) + Ids(s.asks))
    requires Inv(s.(index := s.index - {o.id}))
    requires o.id in s.index ==> Rests(o, o.qty)
    ensures Inv(Add(s, o))
  {
    hide Add, Place, SideOk, Apart;
    var u := s.(index := s.index - {o.id});
    TakeInv(u, o);
    AddEnds(s, o);
    if Outcome(s, o).status != Traded && Rests(o, Outcome(s, o).qty) {
      PlaceInv(Take(u, o), Outcome(s, o));
    }
  }

  // ---------------------------------------------------------------- adds of any id

  /** The order that already rests under this id is on the other side, crosses, and is covered
      by the incoming quantity with everything ahead of it: matching clears it away. */
  ghost predicate ClearsItsId(o: Ord, q: seq<Ord>) {
    exists i :: 0 <= i < |q| && q[i].id == o.id && Crosses(o, q[i].price) && Sum(q[..i + 1]) <= o.qty
  }

  /** The order neither trades out nor rests, so its own id is never touched. */
  ghost predicate Vanishes(o: Ord, q: seq<Ord>) {
    o.qty == 0 || (Aggressive(o.otype) && CrossableVolume(o, q) < o.qty)
  }

  ghost predicate MayEnter(s: Book, o: Ord) {
    if o.side == NoSide then !Rests(o, o.qty)
    else
      var q := Contra(s, o.side);
      o.id !in s.index || ClearsItsId(o, q) || Vanishes(o, q)
  }

  /** After matching an order of the same id still rests, and the incoming one would overwrite
      or drop its record. */
  ghost predicate Clashes(s: Book, o: Ord) {
    var t, done := Take(s, o), Outcome(s, o);
    o.id in Ids(t.bids) + Ids(t.asks) && (done.status == Traded || Rests(o, done.qty))
  }

  lemma VanishesIff(s: Book, o: Ord)
    requires Inv(s) && o.side != NoSide
    ensures Vanishes(o, Contra(s, o.side)) <==> !(Outcome(s, o).status == Traded || Rests(o, Outcome(s, o).qty))
  {
    hide CrossableVolume;
    var q := Contra(s, o.side);
    InvSided(s, o.side);
    MatchConserves(o, q, o.qty);
    MatchVolume(Opposite(o.side), o, q, o.qty);
  }

  lemma ClearsIff(s: Book, o: Ord)
    requires Inv(s) && o.side != NoSide && o.id in s.index
    ensures ClearsItsId(o, Contra(s, o.side)) <==> o.id !in Ids(Take(s, o).bids) + Ids(Take(s, o).asks)
  {
    hide Match, Sum, SideOk, Apart, MatchCache, ClearsItsId;
    var q, own := Contra(s, o.side), Own(s, o.side);
    InvSided(s, o.side);
    var rest := Match(o, q, o.qty).rest;
    MatchKeepsSide(Opposite(o.side), o, q, o.qty, s.clock);
    assert Ids(Take(s, o).bids) + Ids(Take(s, o).asks) == Ids(own) + Ids(rest);
    ClearsItsIdIff(Opposite(o.side), o, q, s.clock);
  }

  lemma ClearsItsIdIff(side: BuySell, o: Ord, q: seq<Ord>, clock: nat)
    requires o.side != NoSide && side == Opposite(o.side) && SideOk(side, q, clock)
    ensures ClearsItsId(o, q) <==> o.id in Ids(q) && o.id !in Ids(Match(o, q, o.qty).rest)
  {
    hide Match, Sum, Crosses;
    if o.id in Ids(q) {
      var i :| 0 <= i < |q| && q[i].id == o.id;
      GoneIff(side, o, q, o.qty, i);
      assert forall j :: 0 <= j < |q| && q[j].id == o.id ==> j == i;
    }
  }

  lemma ClashIff(s: Book, o: Ord)
    requires Inv(s)
    ensures MayEnter(s, o) <==> (o.side != NoSide || !Rests(o, o.qty)) && !Clashes(s, o)
  {
    hide Take, Outcome, Vanishes, ClearsItsId;
    if o.side == NoSide {
      NoSideTakesNothing(s, o);
    } else {
      VanishesIff(s, o);
      if o.id in s.index {
        ClearsIff(s, o);
      } else {
        TakeInv(s, o);
      }
    }
  }

  lemma NoSideTakesNothing(s: Book, o: Ord)
    requires o.side == NoSide
    ensures Take(s, o) == s.(trades := [])
    ensures Clashes(s, o) ==> Rests(o, o.qty)
  {
    assert s.index - ({} - {}) == s.index;
  }

  /** A clash breaks the book: a resting order without a record, or two of one id. */
  lemma ClashBreaks(s: Book, o: Ord)
    requires Inv(s) && o.side != NoSide && Clashes(s, o)
    ensures !Inv(Add(s, o))
  {
    var t, done := Take(s, o), Outcome(s, o);
    TakeInv(s, o);
    InvSided(t, o.side);
    if done.status != Traded {
      PlaceTwice(t, done);
    }
  }

  lemma PlaceTwice(t: Book, done: Ord)
    requires Inv(t) && done.side != NoSide && done.stamp == t.clock && done.id in Ids(t.bids) + Ids(t.asks)
    ensures !Inv(Place(t, done))
  {
    var own, u := Own(t, done.side), Place(t, done);
    InvSided(t, done.side);
    InvSided(u, done.side);
    InsertMembers(own, done);
    if done.id in Ids(own) {
      var i :| 0 <= i < |own| && own[i].id == done.id;
      var now := Insert(own, done);
      assert own[i] in now && done in now && own[i] != done;
      if DistinctIds(now) {
        FindIn(now, done.id);
      }
    }
  }

  /** An add of any order, whatever its id: the book stays sound exactly when the order may
      enter, which the caller can tell from the book before the call. */
  lemma AddInvIff(s: Book, o: Ord)
    requires Inv(s)
    ensures Inv(Add(s, o)) <==> MayEnter(s, o)
    ensures MayEnter(s, o) ==> !Clashes(s, o)
  {
    hide MayEnter, Clashes;
    ClashIff(s, o);
    if o.side == NoSide {
      NoSideAdd(s, o);
    } else if Clashes(s, o) {
      ClashBreaks(s, o);
    } else {
      NoClashKeeps(s, o);
    }
  }

  lemma NoSideAdd(s: Book, o: Ord)
    requires Inv(s) && o.side == NoSide
    ensures Inv(Add(s, o)) <==> !Rests(o, o.qty)
    ensures !Rests(o, o.qty) ==> !Clashes(s, o)
  {
    NoSideTakesNothing(s, o);
    if Rests(o, o.qty) {
      var done := Outcome(s, o);
      assert Add(s, o).asks == Insert(s.asks, done);
      InsertFound(s.asks, done);
      assert !SideOk(Sell, Add(s, o).asks, Add(s, o).clock);
    } else {
      assert Add(s, o) == s.(trades := []);
    }
  }

  lemma NoClashKeeps(s: Book, o: Ord)
    requires Inv(s) && o.side != NoSide && !Clashes(s, o)
    ensures Inv(Add(s, o))
  {
    TakeInv(s, o);
    var t, done := Take(s, o), Outcome(s, o);
    MatchConserves(o, Contra(s, o.side), o.qty);
    if done.status == Traded {
      assert t.index - {o.id} == t.index;
    } else if Rests(o, done.qty) {
      PlaceInv(t, done);
    }
  }

  lemma WithdrawInv(s: Book, o: Ord)
    requires Inv(s) && o.side != NoSide && o in Own(s, o.side)
    ensures Inv(Withdraw(s, o).(index := s.index - {o.id}))
    ensures o.id !in Ids(Withdraw(s, o).bids) + Ids(Withdraw(s, o).asks)
  {
    InvSided(s, o.side);
    RemoveOk(o.side, Own(s, o.side), o.id, s.clock);
    assert o.id in Ids(Own(s, o.side));
    InvSided(Withdraw(s, o).(index := s.index - {o.id}), o.side);
  }

  lemma CancelInv(s: Book, id: OrderId)
    requires Inv(s)
    ensures Inv(Cancel(s, id)) && Cancel(s, id).index == s.index - {id}
  {
    LookupIn(s, id);
    match Lookup(s, id)
    case None =>
    case Some(o) => WithdrawInv(s, o);
  }

  /** ModifyOrder keeps the invariant exactly when the new quantity is positive or the id
      is unknown: with quantity zero the record stays in orders_ and nothing rests. */
  lemma ModifyInvIff(s: Book, id: OrderId, p: Price, x: Quantity)
    requires Inv(s)
    ensures Inv(Modify(s, id, p, x)) <==> x > 0 || id !in s.index
  {
    LookupIn(s, id);
    match Lookup(s, id)
    case None =>
    case Some(o) =>
      var w, n := Withdraw(s, o), o.(price := p, qty := x, status := Modified);
      WithdrawInv(s, o);
      InvSided(s, o.side);
      if o.price == p && o.qty == x {
      } else if x > 0 {
        AddInv(w, n);
      } else {
        assert Match(n, Contra(w, n.side), 0) == Matched(Contra(w, n.side), [], 0);
        assert id in Add(w, n).index;
        assert Add(w, n).bids == w.bids && Add(w, n).asks == w.asks;
      }
  }
}
