/** MPSCQueue: the same ring behind a spin lock on the producer side. Every producer has its
    own program counter and locals; the lock is one shared flag. What a producer knows of
    head_ and tail_ travels with the lock: the release store of false publishes the holder's
    view, and the exchange that acquires the lock takes it over. */
module Mpsc {
  import opened Mask
  import R = Spsc

  type Writer = nat

  datatype WriterPc<T> =
    | Out
    | Spinning(item: T)
    | Locked(item: T)                        // the exchange returned false
    | Loaded(item: T, at: nat)
    | Admitted(item: T, at: nat, next: nat)
    | Written(item: T, at: nat, next: nat)
    | Leaving(ok: bool)                      // about to store false to the lock and return ok

  /** The newest head_ and tail_ stores known, as counts. */
  datatype View = View(head: nat, tail: nat)

  function Join(a: View, b: View): View {
    View(if a.head < b.head then b.head else a.head, if a.tail < b.tail then b.tail else a.tail)
  }

  /** The last fields are history: who holds the lock, the critical sections entered so far,
      for each pushed item its producer and its section, and for each producer the items it
      called push with and the values those calls returned, in its own program order. No
      step reads them. */
  datatype Queue<T> = Queue(
    cap: nat,
    buf: seq<T>,
    head: nat,
    tail: nat,
    lock: bool,
    lockView: View,
    writers: map<Writer, WriterPc<T>>,
    views: map<Writer, View>,
    consumer: R.ConsumerPc<T>,
    seenTail: nat,
    pushed: seq<T>,
    popped: seq<T>,
    owner: set<Writer>,
    entered: seq<Writer>,
    author: seq<Writer>,
    section: seq<nat>,
    calls: map<Writer, seq<T>>,
    results: map<Writer, seq<bool>>)

  datatype Step<T> =
    | Call(w: Writer, item: T)
    | Exchange(w: Writer)
    | LoadTail(w: Writer, t: nat)
    | CheckRoom(w: Writer, h: nat)
    | WriteSlot(w: Writer)
    | StoreTail(w: Writer)
    | Unlock(w: Writer)
    | StartPop
    | CheckItem(t: nat)
    | TakeSlot(husk: T)
    | StoreHead

  function Pc<T>(q: Queue<T>, w: Writer): WriterPc<T> {
    if w in q.writers then q.writers[w] else Out
  }

  function ViewOf<T>(q: Queue<T>, w: Writer): View {
    if w in q.views then q.views[w] else View(0, 0)
  }

  /** The items w called push with, in order. */
  function Calls<T>(q: Queue<T>, w: Writer): seq<T> {
    if w in q.calls then q.calls[w] else []
  }

  /** What those calls returned, but for one still running. */
  function Results<T>(q: Queue<T>, w: Writer): seq<bool> {
    if w in q.results then q.results[w] else []
  }

  predicate Critical<T>(pc: WriterPc<T>) {
    !pc.Out? && !pc.Spinning?
  }

  predicate Enabled<T>(q: Queue<T>, s: Step<T>) {
    match s
    case Call(w, _) => Pc(q, w).Out?
    case Exchange(w) => Pc(q, w).Spinning?
    case LoadTail(w, t) => Pc(q, w).Locked? && ViewOf(q, w).tail <= t <= |q.pushed|
    case CheckRoom(w, h) => Pc(q, w).Loaded? && ViewOf(q, w).head <= h <= |q.popped|
    case WriteSlot(w) => Pc(q, w).Admitted?
    case StoreTail(w) => Pc(q, w).Written?
    case Unlock(w) => Pc(q, w).Leaving?
    case StartPop => q.consumer.Waiting?
    case CheckItem(t) => q.consumer.HeadLoaded? && q.seenTail <= t <= |q.pushed|
    case TakeSlot(_) => q.consumer.Nonempty?
    case StoreHead => q.consumer.Taken?
  }

  ghost predicate WellFormed<T>(q: Queue<T>) {
    && q.cap > 0 && |q.buf| == q.cap
    && (forall w :: Pc(q, w).Admitted? ==> Pc(q, w).at < q.cap)
    && (q.consumer.Nonempty? ==> q.consumer.at < q.cap)
  }

  ghost function SetPc<T>(q: Queue<T>, w: Writer, pc: WriterPc<T>): Queue<T> {
    q.(writers := q.writers[w := pc])
  }

  ghost function Do<T>(q: Queue<T>, s: Step<T>): Queue<T>
    requires WellFormed(q) && Enabled(q, s)
  {
    match s
    case Call(w, x) => SetPc(q, w, Spinning(x)).(calls := q.calls[w := Calls(q, w) + [x]])
    case Exchange(w) =>
      if q.lock then q
      else SetPc(q, w, Locked(Pc(q, w).item)).(
        lock := true, views := q.views[w := Join(ViewOf(q, w), q.lockView)],
        owner := {w}, entered := q.entered + [w])
    case LoadTail(w, t) =>
      SetPc(q, w, Loaded(Pc(q, w).item, R.Slot(t, q.cap))).(views := q.views[w := View(ViewOf(q, w).head, t)])
    case CheckRoom(w, h) =>
      var pc, next := Pc(q, w), Next(Pc(q, w).at, q.cap);
      SetPc(q, w, if next == R.Slot(h, q.cap) then Leaving(false) else Admitted(pc.item, pc.at, next)).(
        views := q.views[w := View(h, ViewOf(q, w).tail)])
    case WriteSlot(w) =>
      var pc := Pc(q, w);
      SetPc(q, w, Written(pc.item, pc.at, pc.next)).(buf := q.buf[pc.at := pc.item])
    case StoreTail(w) =>
      var pc := Pc(q, w);
      SetPc(q, w, Leaving(true)).(
        tail := pc.next, pushed := q.pushed + [pc.item],
        views := q.views[w := View(ViewOf(q, w).head, |q.pushed| + 1)],
        author := q.author + [w], section := q.section + [|q.entered|])
    case Unlock(w) =>
      SetPc(q, w, Out).(
        lock := false, lockView := ViewOf(q, w), owner := {},
        results := q.results[w := Results(q, w) + [Pc(q, w).ok]])
    case StartPop => q.(consumer := R.HeadLoaded(q.head))
    case CheckItem(t) =>
      q.(seenTail := t,
         consumer := if q.consumer.at == R.Slot(t, q.cap) then R.Waiting else R.Nonempty(q.consumer.at))
    case TakeSlot(husk) =>
      q.(buf := q.buf[q.consumer.at := husk], consumer := R.Taken(q.consumer.at, q.buf[q.consumer.at]))
    case StoreHead =>
      q.(head := Next(q.consumer.at, q.cap), popped := q.popped + [q.consumer.item], consumer := R.Waiting)
  }

  // ---------------------------------------------------------------- one producer at a time

  /** The holder seen as the single producer of an SPSC ring. */
  function AsProducer<T>(pc: WriterPc<T>): R.ProducerPc<T> {
    match pc
    case Loaded(x, at) => R.Loaded(x, at)
    case Admitted(x, at, next) => R.Admitted(x, at, next)
    case Written(x, at, next) => R.Written(x, at, next)
    case _ => R.Idle
  }

  ghost function RingOf<T>(q: Queue<T>, w: Writer): R.Ring<T> {
    R.Ring(q.cap, q.buf, q.head, q.tail,
           if q.lock then AsProducer(Pc(q, w)) else R.Idle,
           q.consumer, q.pushed, q.popped,
           if q.lock then ViewOf(q, w).head else q.lockView.head, q.seenTail)
  }

  /** The items that w pushed. */
  function From<T>(items: seq<T>, author: seq<Writer>, w: Writer): seq<T>
    requires |items| == |author|
  {
    if items == [] then []
    else
      var n := |items| - 1;
      From(items[..n], author[..n], w) + if author[n] == w then [items[n]] else []
  }

  /** Exactly the holder, if any, is in the critical section. */
  ghost predicate Exclusive<T>(q: Queue<T>) {
    && (q.lock <==> q.owner != {})
    && (forall w :: Critical(Pc(q, w)) <==> w in q.owner)
    && (forall v, w :: v in q.owner && w in q.owner ==> v == w)
  }

  ghost predicate ViewsOk<T>(q: Queue<T>) {
    && q.lockView.head <= |q.popped| && q.lockView.tail <= |q.pushed|
    && (forall w :: ViewOf(q, w).head <= |q.popped| && ViewOf(q, w).tail <= |q.pushed|)
    && (!q.lock ==> q.lockView.tail == |q.pushed|)
    && (forall w :: w in q.owner ==> ViewOf(q, w).tail == |q.pushed| && q.lockView.head <= ViewOf(q, w).head)
  }

  /** The pushes follow the critical sections in the order the lock was acquired. */
  ghost predicate InLockOrder<T>(q: Queue<T>) {
    && |q.author| == |q.section| == |q.pushed|
    && (forall i :: 0 <= i < |q.section| ==>
          0 < q.section[i] <= |q.entered| && q.entered[q.section[i] - 1] == q.author[i])
    && (forall i, j :: 0 <= i < j < |q.section| ==> q.section[i] < q.section[j])
    && (forall w :: w in q.owner ==> |q.entered| > 0 && q.entered[|q.entered| - 1] == w)
    && (forall w, i :: w in q.owner && !Pc(q, w).Leaving? && 0 <= i < |q.section| ==> q.section[i] < |q.entered|)
  }

  /** The items whose calls returned true. */
  function Succeeded<T>(items: seq<T>, results: seq<bool>): seq<T>
    requires |items| == |results|
  {
    if items == [] then []
    else
      var n := |items| - 1;
      Succeeded(items[..n], results[..n]) + if results[n] then [items[n]] else []
  }

  /** What w pushed: in the order of its calls, the items of those that returned true, and of
      the running one if it has stored the tail. */
  ghost predicate InCallOrder<T>(q: Queue<T>, w: Writer)
    requires |q.author| == |q.pushed|
  {
    var pc, items, n := Pc(q, w), Calls(q, w), |Results(q, w)|;
    && |items| == (if pc.Out? then n else n + 1)
    && (pc.Out? || pc.Leaving? || pc.item == items[n])
    && From(q.pushed, q.author, w)
       == Succeeded(items[..n], Results(q, w)) + (if pc.Leaving? && pc.ok then [items[n]] else [])
  }

  ghost predicate PerProducer<T>(q: Queue<T>) {
    |q.author| == |q.pushed| && forall w :: InCallOrder(q, w)
  }

  ghost predicate Inv<T>(q: Queue<T>) {
    && Exclusive(q) && ViewsOk(q) && InLockOrder(q) && PerProducer(q)
    && (forall w :: (q.lock ==> w in q.owner) ==> R.Inv(RingOf(q, w)))
  }

  ghost predicate IsNew<T>(q: Queue<T>) {
    && Capacity(q.cap) && |q.buf| == q.cap && q.head == q.tail == 0
    && !q.lock && q.lockView == View(0, 0) && q.writers == map[] && q.views == map[]
    && q.consumer == R.Waiting && q.seenTail == 0 && q.pushed == q.popped == []
    && q.owner == {} && q.entered == [] && q.author == [] && q.section == []
    && q.calls == map[] && q.results == map[]
  }

  lemma NewInv<T>(q: Queue<T>)
    requires IsNew(q)
    ensures Inv(q)
  {
    forall w ensures R.Inv(RingOf(q, w)) {
      R.NewInv(RingOf(q, w));
    }
  }

  lemma InvWellFormed<T>(q: Queue<T>)
    requires Inv(q)
    ensures WellFormed(q)
  {
    var any: Writer := 0;
    if q.lock { any := Holder(q); }
    assert R.Inv(RingOf(q, any));
    forall w | Pc(q, w).Admitted? ensures Pc(q, w).at < q.cap {
      assert Critical(Pc(q, w));
      assert R.Inv(RingOf(q, w));
    }
  }

  lemma Holder<T>(q: Queue<T>) returns (w: Writer)
    requires Exclusive(q) && q.lock
    ensures q.owner == {w}
  {
    w :| w in q.owner;
    assert forall v :: v in q.owner ==> v == w;
  }

  // ---------------------------------------------------------------- preservation, step by step

  /** Seeing a newer head only gives the producer more room. */
  lemma RaiseSeenHead<T>(r: R.Ring<T>, h: nat)
    requires R.Inv(r) && r.seenHead <= h <= |r.popped| && r.producer.Idle?
    ensures R.Inv(r.(seenHead := h))
  {
    var t := r.(seenHead := h);
    forall i | R.FirstKept(t) <= i < |t.pushed| ensures R.Kept(t, i) {
      assert R.Kept(r, i);
    }
  }

  /** A producer goes on with its call, having stored nothing. */
  ghost predicate GoesOn<T>(pc: WriterPc<T>, next: WriterPc<T>) {
    && !pc.Out? && !pc.Leaving? && !next.Out?
    && (if next.Leaving? then !next.ok else next.item == pc.item)
  }

  lemma ProducersFrame<T>(q: Queue<T>, t: Queue<T>, w: Writer)
    requires PerProducer(q) && t.pushed == q.pushed && t.author == q.author
    requires t.calls == q.calls && t.results == q.results
    requires forall v :: v != w ==> Pc(t, v) == Pc(q, v)
    requires Pc(t, w) == Pc(q, w) || GoesOn(Pc(q, w), Pc(t, w))
    ensures PerProducer(t)
  {
    forall v ensures InCallOrder(t, v) {
      assert InCallOrder(q, v);
    }
  }

  lemma CallProducers<T>(q: Queue<T>, w: Writer, x: T)
    requires PerProducer(q) && WellFormed(q) && Pc(q, w).Out?
    ensures PerProducer(Do(q, Call(w, x)))
  {
    hide From, Succeeded;
    var t := Do(q, Call(w, x));
    forall v ensures InCallOrder(t, v) {
      assert InCallOrder(q, v);
      if v == w {
        var items := Calls(q, w);
        assert Calls(t, w)[..|items|] == items == items[..|items|];
      }
    }
  }

  lemma CallInv<T>(q: Queue<T>, w: Writer, x: T)
    requires Inv(q) && WellFormed(q) && Pc(q, w).Out?
    ensures Inv(Do(q, Call(w, x)))
  {
    hide PerProducer, R.Inv;
    var t := Do(q, Call(w, x));
    CallProducers(q, w, x);
    assert forall v :: Pc(t, v) == if v == w then Spinning(x) else Pc(q, v);
    assert forall v :: ViewOf(t, v) == ViewOf(q, v);
    assert !Critical(Pc(q, w));
    forall v | t.lock ==> v in t.owner ensures R.Inv(RingOf(t, v)) {
      assert RingOf(t, v) == RingOf(q, v);
    }
  }

  /** The only holder is w. */
  lemma OnlyHolder<T>(q: Queue<T>, w: Writer)
    requires Inv(q) && Critical(Pc(q, w))
    ensures q.lock && q.owner == {w} && R.Inv(RingOf(q, w)) && ViewOf(q, w).tail == |q.pushed|
  {
    assert w in q.owner;
    assert forall v :: v in q.owner ==> v == w;
  }

  /** A step of the holder inside the critical section, before the tail is stored. */
  lemma HolderMoves<T>(q: Queue<T>, t: Queue<T>, w: Writer, pc: WriterPc<T>, view: View)
    requires Inv(q) && Critical(Pc(q, w)) && !Pc(q, w).Leaving? && Critical(pc)
    requires t == q.(writers := q.writers[w := pc], views := q.views[w := view], buf := t.buf)
    requires GoesOn(Pc(q, w), pc)
    requires view.tail == |q.pushed| && ViewOf(q, w).head <= view.head <= |q.popped|
    requires R.Inv(RingOf(t, w))
    ensures Inv(t)
  {
    hide R.Inv, PerProducer;
    OnlyHolder(q, w);
    assert forall v :: Pc(t, v) == if v == w then pc else Pc(q, v);
    assert forall v :: ViewOf(t, v) == if v == w then view else ViewOf(q, v);
    ProducersFrame(q, t, w);
  }

  lemma LoadTailInv<T>(q: Queue<T>, w: Writer, n: nat)
    requires Inv(q) && WellFormed(q) && Enabled(q, LoadTail(w, n))
    ensures Inv(Do(q, LoadTail(w, n))) && n == |q.pushed|
  {
    OnlyHolder(q, w);
    var t, r := Do(q, LoadTail(w, n)), RingOf(q, w);
    R.InvWellFormed(r);
    assert RingOf(t, w) == R.Do(r, R.StartPush(Pc(q, w).item));
    R.StepInv(r, R.StartPush(Pc(q, w).item));
    HolderMoves(q, t, w, Pc(t, w), ViewOf(t, w));
  }

  lemma CheckRoomInv<T>(q: Queue<T>, w: Writer, h: nat)
    requires Inv(q) && WellFormed(q) && Enabled(q, CheckRoom(w, h))
    ensures Inv(Do(q, CheckRoom(w, h)))
  {
    OnlyHolder(q, w);
    var t, r := Do(q, CheckRoom(w, h)), RingOf(q, w);
    R.InvWellFormed(r);
    assert RingOf(t, w) == R.Do(r, R.CheckRoom(h));
    R.StepInv(r, R.CheckRoom(h));
    HolderMoves(q, t, w, Pc(t, w), ViewOf(t, w));
  }

  lemma WriteSlotInv<T>(q: Queue<T>, w: Writer)
    requires Inv(q) && WellFormed(q) && Enabled(q, WriteSlot(w))
    ensures Inv(Do(q, WriteSlot(w)))
  {
    OnlyHolder(q, w);
    var t, r := Do(q, WriteSlot(w)), RingOf(q, w);
    R.InvWellFormed(r);
    assert RingOf(t, w) == R.Do(r, R.WriteSlot);
    R.StepInv(r, R.WriteSlot);
    var u := t.(views := q.views[w := ViewOf(q, w)]);
    HolderMoves(q, u, w, Pc(t, w), ViewOf(q, w));
    assert forall v :: ViewOf(u, v) == ViewOf(t, v) && Pc(u, v) == Pc(t, v);
    ProducersFrame(u, t, w);
    forall v | t.lock ==> v in t.owner ensures R.Inv(RingOf(t, v)) {
      assert RingOf(t, v) == RingOf(u, v);
    }
  }

  lemma {:induction false} FromAppend<T>(items: seq<T>, author: seq<Writer>, x: T, a: Writer, w: Writer)
    requires |items| == |author|
    ensures From(items + [x], author + [a], w) == From(items, author, w) + if a == w then [x] else []
  {
    assert (items + [x])[..|items|] == items && (author + [a])[..|items|] == author;
  }

  lemma StoreTailRing<T>(q: Queue<T>, w: Writer)
    requires Inv(q) && WellFormed(q) && Enabled(q, StoreTail(w))
    ensures R.Inv(RingOf(Do(q, StoreTail(w)), w))
  {
    OnlyHolder(q, w);
    R.InvWellFormed(RingOf(q, w));
    assert RingOf(Do(q, StoreTail(w)), w) == R.Do(RingOf(q, w), R.StoreTail);
    R.StepInv(RingOf(q, w), R.StoreTail);
  }

  /** The stored item is the one of the running call, which now will return true. */
  lemma StoreTailProducers<T>(q: Queue<T>, w: Writer)
    requires PerProducer(q) && WellFormed(q) && Enabled(q, StoreTail(w))
    ensures PerProducer(Do(q, StoreTail(w)))
  {
    var t, x := Do(q, StoreTail(w)), Pc(q, w).item;
    forall v ensures InCallOrder(t, v) {
      FromAppend(q.pushed, q.author, x, w, v);
      assert InCallOrder(q, v);
    }
  }

  lemma StoreTailOrder<T>(q: Queue<T>, w: Writer)
    requires InLockOrder(q) && WellFormed(q) && Enabled(q, StoreTail(w)) && q.owner == {w}
    ensures InLockOrder(Do(q, StoreTail(w)))
  {
    assert w in q.owner;
  }

  lemma StoreTailInv<T>(q: Queue<T>, w: Writer)
    requires Inv(q) && WellFormed(q) && Enabled(q, StoreTail(w))
    ensures Inv(Do(q, StoreTail(w)))
  {
    hide InLockOrder, PerProducer, R.Inv;
    OnlyHolder(q, w);
    StoreTailRing(q, w);
    StoreTailProducers(q, w);
    StoreTailOrder(q, w);
    var t := Do(q, StoreTail(w));
    assert forall v :: Pc(t, v) == if v == w then Leaving(true) else Pc(q, v);
    assert forall v :: ViewOf(t, v) == if v == w then View(ViewOf(q, w).head, |t.pushed|) else ViewOf(q, v);
  }

  lemma {:induction false} SucceededAppend<T>(items: seq<T>, results: seq<bool>, x: T, ok: bool)
    requires |items| == |results|
    ensures Succeeded(items + [x], results + [ok]) == Succeeded(items, results) + if ok then [x] else []
  {
    assert (items + [x])[..|items|] == items && (results + [ok])[..|items|] == results;
  }

  /** The call returns what its store, or its refusal, decided. */
  lemma UnlockOwn<T>(q: Queue<T>, t: Queue<T>, w: Writer)
    requires |q.author| == |q.pushed| && t.pushed == q.pushed && t.author == q.author && InCallOrder(q, w)
    requires Pc(q, w).Leaving? && Pc(t, w).Out? && Calls(t, w) == Calls(q, w)
    requires Results(t, w) == Results(q, w) + [Pc(q, w).ok]
    ensures InCallOrder(t, w)
  {
    hide From, Succeeded;
    var items, n := Calls(q, w), |Results(q, w)|;
    SucceededAppend(items[..n], Results(q, w), items[n], Pc(q, w).ok);
    assert items[..n] + [items[n]] == items[..n + 1] == items;
  }

  lemma UnlockProducers<T>(q: Queue<T>, w: Writer)
    requires PerProducer(q) && WellFormed(q) && Enabled(q, Unlock(w))
    ensures PerProducer(Do(q, Unlock(w)))
  {
    hide From, Succeeded;
    var t := Do(q, Unlock(w));
    forall v ensures InCallOrder(t, v) {
      assert InCallOrder(q, v);
      if v == w {
        UnlockOwn(q, t, w);
      }
    }
  }

  lemma UnlockInv<T>(q: Queue<T>, w: Writer)
    requires Inv(q) && WellFormed(q) && Enabled(q, Unlock(w))
    ensures Inv(Do(q, Unlock(w)))
  {
    hide PerProducer, R.Inv;
    OnlyHolder(q, w);
    var t := Do(q, Unlock(w));
    UnlockProducers(q, w);
    assert forall v :: Pc(t, v) == if v == w then Out else Pc(q, v);
    assert forall v :: ViewOf(t, v) == ViewOf(q, v);
    forall v ensures R.Inv(RingOf(t, v)) {
      assert RingOf(t, v) == RingOf(q, w);
    }
  }

  lemma ExchangeInv<T>(q: Queue<T>, w: Writer)
    requires Inv(q) && WellFormed(q) && Enabled(q, Exchange(w))
    ensures Inv(Do(q, Exchange(w)))
  {
    hide PerProducer;
    if !q.lock {
      var t := Do(q, Exchange(w));
      assert forall v :: Pc(t, v) == if v == w then Locked(Pc(q, w).item) else Pc(q, v);
      assert forall v :: ViewOf(t, v) == if v == w then Join(ViewOf(q, w), q.lockView) else ViewOf(q, v);
      ProducersFrame(q, t, w);
      assert R.Inv(RingOf(q, w));
      RaiseSeenHead(RingOf(q, w), ViewOf(t, w).head);
      assert RingOf(t, w) == RingOf(q, w).(seenHead := ViewOf(t, w).head);
      assert InLockOrder(t);
    }
  }

  ghost predicate ByConsumer<T>(s: Step<T>) {
    s.StartPop? || s.CheckItem? || s.TakeSlot? || s.StoreHead?
  }

  function AsConsumer<T>(s: Step<T>): R.Step<T>
    requires ByConsumer(s)
  {
    match s
    case StartPop => R.StartPop
    case CheckItem(t) => R.CheckItem(t)
    case TakeSlot(husk) => R.TakeSlot(husk)
    case StoreHead => R.StoreHead
  }

  lemma ConsumerInv<T>(q: Queue<T>, s: Step<T>)
    requires Inv(q) && WellFormed(q) && Enabled(q, s) && ByConsumer(s)
    ensures Inv(Do(q, s))
  {
    hide R.Inv, InLockOrder, PerProducer;
    var t := Do(q, s);
    assert forall v :: Pc(t, v) == Pc(q, v) && ViewOf(t, v) == ViewOf(q, v);
    ConsumerHistory(q, s);
    forall v | t.lock ==> v in t.owner ensures R.Inv(RingOf(t, v)) {
      ConsumerRing(q, s, v);
    }
  }

  lemma ConsumerHistory<T>(q: Queue<T>, s: Step<T>)
    requires WellFormed(q) && Enabled(q, s) && ByConsumer(s) && InLockOrder(q) && PerProducer(q)
    ensures InLockOrder(Do(q, s)) && PerProducer(Do(q, s))
  {
    var t := Do(q, s);
    assert forall v :: Pc(t, v) == Pc(q, v);
    ProducersFrame(q, t, 0);
  }

  lemma ConsumerRing<T>(q: Queue<T>, s: Step<T>, v: Writer)
    requires WellFormed(q) && Enabled(q, s) && ByConsumer(s) && R.Inv(RingOf(q, v))
    ensures R.Inv(RingOf(Do(q, s), v))
  {
    R.InvWellFormed(RingOf(q, v));
    R.StepInv(RingOf(q, v), AsConsumer(s));
    assert RingOf(Do(q, s), v) == R.Do(RingOf(q, v), AsConsumer(s));
  }

  /** Every step of every thread, with any admissible stale read, keeps the invariant. */
  lemma StepInv<T>(q: Queue<T>, s: Step<T>)
    requires Inv(q) && Enabled(q, s)
    ensures WellFormed(q) && Inv(Do(q, s))
  {
    InvWellFormed(q);
    match s
    case Call(w, x) => CallInv(q, w, x);
    case Exchange(w) => ExchangeInv(q, w);
    case LoadTail(w, t) => LoadTailInv(q, w, t);
    case CheckRoom(w, h) => CheckRoomInv(q, w, h);
    case WriteSlot(w) => WriteSlotInv(q, w);
    case StoreTail(w) => StoreTailInv(q, w);
    case Unlock(w) => UnlockInv(q, w);
    case _ => ConsumerInv(q, s);
  }

  ghost predicate Reaches<T>(q: Queue<T>, steps: seq<Step<T>>, t: Queue<T>)
    decreases |steps|
  {
    if steps == [] then q == t
    else WellFormed(q) && Enabled(q, steps[0]) && Reaches(Do(q, steps[0]), steps[1..], t)
  }

  lemma {:induction false} ReachesInv<T>(q: Queue<T>, steps: seq<Step<T>>, t: Queue<T>)
    requires Inv(q) && Reaches(q, steps, t)
    ensures Inv(t)
    decreases |steps|
  {
    if steps != [] {
      StepInv(q, steps[0]);
      ReachesInv(Do(q, steps[0]), steps[1..], t);
    }
  }

  /** For any number of producers and every interleaving from a new queue: at most one
      producer is between its lock and its unlock; the popped items are a prefix of the
      pushed ones; the pushes happened in the order in which their producers acquired the
      lock; and of each producer the queue has taken, in the order of its calls, exactly the
      items of the calls that returned true and of at most one that is about to. */
  lemma Correct<T>(q: Queue<T>, steps: seq<Step<T>>, t: Queue<T>)
    requires IsNew(q) && Reaches(q, steps, t)
    ensures forall v, w :: Critical(Pc(t, v)) && Critical(Pc(t, w)) ==> v == w
    ensures t.popped <= t.pushed && |t.pushed| - |t.popped| <= t.cap - 1
    ensures |t.author| == |t.section| == |t.pushed|
    ensures forall i, j :: 0 <= i < j < |t.pushed| ==> t.section[i] < t.section[j]
    ensures forall i :: 0 <= i < |t.pushed| ==>
      0 < t.section[i] <= |t.entered| && t.entered[t.section[i] - 1] == t.author[i]
    ensures forall w :: InCallOrder(t, w)
    ensures t.cap > 0 && SizeOf(t.head, t.tail, t.cap) == |t.pushed| - |t.popped|
  {
    NewInv(q);
    ReachesInv(q, steps, t);
    HeldAndSize(t);
  }

  lemma HeldAndSize<T>(t: Queue<T>)
    requires Inv(t)
    ensures t.popped <= t.pushed && |t.pushed| - |t.popped| <= t.cap - 1
    ensures t.cap > 0 && SizeOf(t.head, t.tail, t.cap) == |t.pushed| - |t.popped|
  {
    hide InLockOrder, PerProducer, ViewsOk, SizeOf;
    var any: Writer := 0;
    if t.lock { any := Holder(t); }
    assert R.Inv(RingOf(t, any));
    SizeIsCount(|t.popped|, |t.pushed|, t.cap);
  }

  /** No slot is written while it may be read, nor by two producers: the one that may write is
      the holder of the lock, what it overwrites was taken by a pop whose head_ store it knows,
      and what the consumer takes was written before a tail_ store the consumer has acquired. */
  lemma SlotsNotShared<T>(q: Queue<T>, steps: seq<Step<T>>, t: Queue<T>)
    requires IsNew(q) && Reaches(q, steps, t)
    ensures forall v, w :: Pc(t, v).Admitted? && Pc(t, w).Admitted? ==> v == w
    ensures forall w :: Pc(t, w).Admitted? ==>
      && |t.pushed| - t.cap < ViewOf(t, w).head <= |t.popped| && ViewOf(t, w).tail == |t.pushed|
      && (t.consumer.Nonempty? ==> Pc(t, w).at != t.consumer.at)
    ensures t.consumer.Nonempty? ==> |t.popped| < t.seenTail <= |t.pushed|
  {
    hide R.Inv, InLockOrder, PerProducer;
    NewInv(q);
    ReachesInv(q, steps, t);
    forall w | Pc(t, w).Admitted?
      ensures |t.pushed| - t.cap < ViewOf(t, w).head <= |t.popped| && ViewOf(t, w).tail == |t.pushed|
      ensures t.consumer.Nonempty? ==> Pc(t, w).at != t.consumer.at
    {
      OnlyHolder(t, w);
      R.SlotsNotShared(RingOf(t, w));
    }
    var any: Writer := 0;
    if t.lock { any := Holder(t); }
    R.SlotsNotShared(RingOf(t, any));
    SeenTailBound(t);
  }

  /** Once every call has returned, the queue has taken from w exactly the items of the calls
      that returned true, in the order of the calls. */
  lemma AllReturned<T>(q: Queue<T>, w: Writer)
    requires PerProducer(q) && Pc(q, w).Out?
    ensures |Calls(q, w)| == |Results(q, w)|
    ensures From(q.pushed, q.author, w) == Succeeded(Calls(q, w), Results(q, w))
  {
    hide From, Succeeded;
    assert InCallOrder(q, w);
    assert Calls(q, w)[..|Results(q, w)|] == Calls(q, w);
  }

  // ---------------------------------------------------------------- for the whole system

  /** The author of the last push knows it. */
  ghost predicate LastAuthorKnows<T>(q: Queue<T>) {
    |q.author| == |q.pushed| && (|q.pushed| > 0 ==> ViewOf(q, q.author[|q.pushed| - 1]).tail >= |q.pushed|)
  }

  lemma LastAuthorKept<T>(q: Queue<T>, s: Step<T>)
    requires LastAuthorKnows(q) && WellFormed(q) && Enabled(q, s)
    ensures LastAuthorKnows(Do(q, s))
  {
  }

  /** What a producer's step leaves alone. */
  lemma ProducerStep<T>(q: Queue<T>, s: Step<T>)
    requires WellFormed(q) && Enabled(q, s) && !ByConsumer(s)
    ensures var t := Do(q, s);
      && t.popped == q.popped && t.consumer == q.consumer && t.seenTail == q.seenTail && q.pushed <= t.pushed
      && (forall w :: w != s.w ==> Pc(t, w) == Pc(q, w) && ViewOf(t, w) == ViewOf(q, w))
      && (!s.Call? ==> !Pc(q, s.w).Out?)
  {
  }

  lemma ConsumerStep<T>(q: Queue<T>, s: Step<T>)
    requires WellFormed(q) && Enabled(q, s) && ByConsumer(s)
    ensures var t := Do(q, s);
      && t.pushed == q.pushed && t.author == q.author && q.seenTail <= t.seenTail <= Larger(q.seenTail, |q.pushed|)
      && t.popped == (if s.StoreHead? then q.popped + [q.consumer.item] else q.popped)
      && (forall w :: Pc(t, w) == Pc(q, w) && ViewOf(t, w) == ViewOf(q, w))
  {
  }

  function Larger(a: nat, b: nat): nat {
    if a < b then b else a
  }

  /** pop finds nothing exactly when everything up to the tail it saw has been popped. */
  lemma EmptyVerdict<T>(q: Queue<T>, n: nat)
    requires Inv(q) && WellFormed(q) && Enabled(q, CheckItem(n))
    ensures Do(q, CheckItem(n)).consumer.Waiting? <==> |q.popped| == n
  {
    var any: Writer := 0;
    if q.lock { any := Holder(q); }
    R.ItemVerdict(RingOf(q, any), n);
  }

  lemma LockOrderFrame<T>(q: Queue<T>, t: Queue<T>)
    requires InLockOrder(q) && t.pushed == q.pushed && t.author == q.author && t.section == q.section
    requires t.entered == q.entered && t.owner == q.owner && t.writers == q.writers
    ensures InLockOrder(t)
  {
    assert forall v :: Pc(t, v) == Pc(q, v);
  }

  /** Learning of a newer tail by other means keeps the invariant. */
  lemma RaiseSeenTail<T>(q: Queue<T>, n: nat)
    requires Inv(q) && q.seenTail <= n <= |q.pushed|
    ensures Inv(q.(seenTail := n))
  {
    hide PerProducer, InLockOrder;
    var t := q.(seenTail := n);
    LockOrderFrame(q, t);
    assert forall v :: Pc(t, v) == Pc(q, v) && ViewOf(t, v) == ViewOf(q, v);
    ProducersFrame(q, t, 0);
    forall v | t.lock ==> v in t.owner ensures R.Inv(RingOf(t, v)) {
      var r := RingOf(q, v);
      assert RingOf(t, v) == r.(seenTail := n);
      forall i | R.FirstKept(r) <= i < |r.pushed| ensures R.Kept(r.(seenTail := n), i) {
        assert R.Kept(r, i);
      }
    }
  }

  lemma SeenTailBound<T>(q: Queue<T>)
    requires Inv(q)
    ensures |q.popped| <= q.seenTail <= |q.pushed|
  {
    var any: Writer := 0;
    if q.lock { any := Holder(q); }
    assert R.Inv(RingOf(q, any));
  }

  lemma IndicesFromCounts<T>(q: Queue<T>)
    requires Inv(q) && |q.popped| == |q.pushed|
    ensures q.popped == q.pushed && q.head == q.tail
  {
    var any: Writer := 0;
    if q.lock { any := Holder(q); }
    assert R.Inv(RingOf(q, any));
  }
}
