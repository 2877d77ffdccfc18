/** SPSCQueue as a system of atomic steps. Each side may see an old value of the other
    side's index: an acquire load returns any value stored since the newest one the thread
    has seen before (read-read coherence, sections 6.9.2.1 and 31.4 of ISO/IEC 14882:2020).
    Counts of completed operations stand in for positions in the modification order. */
module Spsc {
  import opened Mask

  datatype ProducerPc<T> =
    | Idle
    | Loaded(item: T, at: nat)               // currentTail read
    | Admitted(item: T, at: nat, next: nat)  // room was seen; the slot may be written
    | Written(item: T, at: nat, next: nat)   // slot written, tail_ not yet stored

  datatype ConsumerPc<T> =
    | Waiting
    | HeadLoaded(at: nat)     // currentHead read
    | Nonempty(at: nat)       // an item was seen; the slot may be read
    | Taken(at: nat, item: T) // slot moved out, head_ not yet stored

  /** `pushed` and `popped` list the items whose tail_ (head_) store has happened;
      seenHead and seenTail are the newest such counts the other side has observed. */
  datatype Ring<T> = Ring(
    cap: nat,
    buf: seq<T>,
    head: nat,
    tail: nat,
    producer: ProducerPc<T>,
    consumer: ConsumerPc<T>,
    pushed: seq<T>,
    popped: seq<T>,
    seenHead: nat,
    seenTail: nat)

  datatype Step<T> =
    | StartPush(item: T)
    | CheckRoom(h: nat)     // loads the head_ stored by the h-th pop
    | WriteSlot
    | StoreTail
    | StartPop
    | CheckItem(t: nat)     // loads the tail_ stored by the t-th push
    | TakeSlot(husk: T)     // the move leaves some value behind
    | StoreHead

  predicate Enabled<T>(r: Ring<T>, s: Step<T>) {
    match s
    case StartPush(_) => r.producer.Idle?
    case CheckRoom(h) => r.producer.Loaded? && r.seenHead <= h <= |r.popped|
    case WriteSlot => r.producer.Admitted?
    case StoreTail => r.producer.Written?
    case StartPop => r.consumer.Waiting?
    case CheckItem(t) => r.consumer.HeadLoaded? && r.seenTail <= t <= |r.pushed|
    case TakeSlot(_) => r.consumer.Nonempty?
    case StoreHead => r.consumer.Taken?
  }

  function Slot(i: nat, cap: nat): nat
    requires cap > 0
  {
    i % cap
  }

  ghost predicate WellFormed<T>(r: Ring<T>) {
    && r.cap > 0 && |r.buf| == r.cap
    && (r.producer.Admitted? ==> r.producer.at < r.cap)
    && (r.consumer.Nonempty? ==> r.consumer.at < r.cap)
  }

  ghost function Do<T>(r: Ring<T>, s: Step<T>): Ring<T>
    requires WellFormed(r) && Enabled(r, s)
  {
    match s
    case StartPush(x) => r.(producer := Loaded(x, r.tail))
    case CheckRoom(h) =>
      var next := Next(r.producer.at, r.cap);
      r.(seenHead := h,
         producer := if next == Slot(h, r.cap) then Idle else Admitted(r.producer.item, r.producer.at, next))
    case WriteSlot =>
      r.(buf := r.buf[r.producer.at := r.producer.item],
         producer := Written(r.producer.item, r.producer.at, r.producer.next))
    case StoreTail =>
      r.(tail := r.producer.next, pushed := r.pushed + [r.producer.item], producer := Idle)
    case StartPop => r.(consumer := HeadLoaded(r.head))
    case CheckItem(t) =>
      r.(seenTail := t,
         consumer := if r.consumer.at == Slot(t, r.cap) then Waiting else Nonempty(r.consumer.at))
    case TakeSlot(husk) =>
      r.(buf := r.buf[r.consumer.at := husk], consumer := Taken(r.consumer.at, r.buf[r.consumer.at]))
    case StoreHead =>
      r.(head := Next(r.consumer.at, r.cap), popped := r.popped + [r.consumer.item], consumer := Waiting)
  }

  // ---------------------------------------------------------------- invariant

  /** First index whose item is still in its slot. */
  function FirstKept<T>(r: Ring<T>): nat {
    |r.popped| + if r.consumer.Taken? then 1 else 0
  }

  ghost predicate Kept<T>(r: Ring<T>, i: nat)
    requires r.cap > 0 && |r.buf| == r.cap && i < |r.pushed|
  {
    r.buf[Slot(i, r.cap)] == r.pushed[i]
  }

  ghost predicate ProducerOk<T>(r: Ring<T>)
    requires r.cap > 0 && |r.buf| == r.cap
  {
    var n := |r.pushed|;
    match r.producer
    case Idle => true
    case Loaded(_, at) => at == Slot(n, r.cap)
    case Admitted(_, at, next) => at == Slot(n, r.cap) && next == Slot(n + 1, r.cap) && n + 1 < r.seenHead + r.cap
    case Written(x, at, next) =>
      && at == Slot(n, r.cap) && next == Slot(n + 1, r.cap) && n + 1 < r.seenHead + r.cap
      && r.buf[at] == x
  }

  ghost predicate ConsumerOk<T>(r: Ring<T>)
    requires r.cap > 0
  {
    var n := |r.popped|;
    match r.consumer
    case Waiting => true
    case HeadLoaded(at) => at == Slot(n, r.cap)
    case Nonempty(at) => at == Slot(n, r.cap) && n < r.seenTail
    case Taken(at, x) => at == Slot(n, r.cap) && n < r.seenTail && n < |r.pushed| && x == r.pushed[n]
  }

  /** First in, first out; each side's view lags the other by less than a lap; and every
      item not yet taken is still in its slot. */
  ghost predicate Inv<T>(r: Ring<T>) {
    && Capacity(r.cap) && |r.buf| == r.cap
    && r.popped <= r.pushed
    && r.head == Slot(|r.popped|, r.cap) && r.tail == Slot(|r.pushed|, r.cap)
    && r.seenHead <= |r.popped| <= r.seenTail <= |r.pushed| < r.seenHead + r.cap
    && ProducerOk(r) && ConsumerOk(r)
    && (forall i :: FirstKept(r) <= i < |r.pushed| ==> Kept(r, i))
  }

  lemma InvWellFormed<T>(r: Ring<T>)
    requires Inv(r)
    ensures WellFormed(r)
  {
  }

  ghost predicate IsNew<T>(r: Ring<T>) {
    && Capacity(r.cap) && |r.buf| == r.cap && r.head == r.tail == 0
    && r.producer == Idle && r.consumer == Waiting
    && r.pushed == r.popped == [] && r.seenHead == r.seenTail == 0
  }

  lemma NewInv<T>(r: Ring<T>)
    requires IsNew(r)
    ensures Inv(r)
  {
  }

  // ---------------------------------------------------------------- what the two checks decide

  /** push gives up exactly when the ring is full with respect to the head it saw. */
  lemma RoomVerdict<T>(r: Ring<T>, h: nat)
    requires Inv(r) && r.producer.Loaded? && r.seenHead <= h <= |r.popped|
    ensures Next(r.producer.at, r.cap) == Slot(h, r.cap) <==> |r.pushed| + 1 == h + r.cap
    ensures Next(r.producer.at, r.cap) == Slot(|r.pushed| + 1, r.cap)
  {
    hide Next, And, Kept;
    NextOf(|r.pushed|, r.cap);
    ModUnique(h + r.cap, r.cap, (h + r.cap) / r.cap, (h + r.cap) % r.cap);
    LapSlot(h, r.cap);
    SameSlot(|r.pushed| + 1, h + r.cap, r.cap);
  }

  lemma LapSlot(h: nat, cap: nat)
    requires cap > 0
    ensures Slot(h + cap, cap) == Slot(h, cap)
  {
    var d := h / cap;
    assert h == d * cap + h % cap;
    assert h + cap == (d + 1) * cap + h % cap;
    ModUnique(h + cap, cap, d + 1, h % cap);
  }

  /** pop gives up exactly when it has consumed everything up to the tail it saw. */
  lemma ItemVerdict<T>(r: Ring<T>, t: nat)
    requires Inv(r) && r.consumer.HeadLoaded? && r.seenTail <= t <= |r.pushed|
    ensures r.consumer.at == Slot(t, r.cap) <==> |r.popped| == t
  {
    SameSlot(|r.popped|, t, r.cap);
  }

  /** A push that has loaded the h-th head, old or new, gives up exactly when the ring is full
      with respect to it, and otherwise goes on to the slot. */
  lemma PushRefusedIff<T>(r: Ring<T>, h: nat)
    requires Inv(r) && r.producer.Loaded? && r.seenHead <= h <= |r.popped|
    ensures WellFormed(r) && Enabled(r, CheckRoom(h))
    ensures var t := Do(r, CheckRoom(h));
      && (t.producer.Idle? <==> |r.pushed| + 1 == h + r.cap)
      && (!t.producer.Idle? ==> t.producer.Admitted? && t.producer.item == r.producer.item)
  {
    hide Next;
    InvWellFormed(r);
    RoomVerdict(r, h);
  }

  /** A pop that has loaded the n-th tail gives up exactly when all up to it is consumed, and
      otherwise goes on to take the next item in order. */
  lemma PopEmptyIff<T>(r: Ring<T>, n: nat)
    requires Inv(r) && r.consumer.HeadLoaded? && r.seenTail <= n <= |r.pushed|
    ensures WellFormed(r) && Enabled(r, CheckItem(n))
    ensures var t := Do(r, CheckItem(n));
      && (t.consumer.Waiting? <==> |r.popped| == n)
      && (!t.consumer.Waiting? ==> t.consumer.Nonempty? && r.buf[t.consumer.at] == r.pushed[|r.popped|])
  {
    InvWellFormed(r);
    ItemVerdict(r, n);
    if n > |r.popped| {
      assert Kept(r, |r.popped|);
    }
  }

  // ---------------------------------------------------------------- preservation

  lemma WriteKeeps<T>(r: Ring<T>, i: nat, n: nat, x: T)
    requires Capacity(r.cap) && |r.buf| == r.cap && i < |r.pushed| && Kept(r, i)
    requires i < n < i + r.cap || n < i < n + r.cap
    ensures Kept(r.(buf := r.buf[Slot(n, r.cap) := x]), i)
  {
    if i < n {
      SameSlot(i, n, r.cap);
    } else {
      SameSlot(n, i, r.cap);
    }
  }

  lemma WriteSlotInv<T>(r: Ring<T>)
    requires Inv(r) && r.producer.Admitted?
    ensures Inv(Do(r, WriteSlot))
  {
    var t := Do(r, WriteSlot);
    forall i | FirstKept(t) <= i < |t.pushed| ensures Kept(t, i) {
      assert Kept(r, i);
      WriteKeeps(r, i, |r.pushed|, r.producer.item);
    }
  }

  lemma StoreTailInv<T>(r: Ring<T>)
    requires Inv(r) && r.producer.Written?
    ensures Inv(Do(r, StoreTail))
  {
    var t := Do(r, StoreTail);
    forall i | FirstKept(t) <= i < |t.pushed| ensures Kept(t, i) {
      if i < |r.pushed| {
        assert Kept(r, i);
      }
    }
  }

  lemma TakeSlotInv<T>(r: Ring<T>, husk: T)
    requires Inv(r) && r.consumer.Nonempty?
    ensures Inv(Do(r, TakeSlot(husk)))
  {
    var n, t := |r.popped|, Do(r, TakeSlot(husk));
    assert Kept(r, n);
    forall i | FirstKept(t) <= i < |t.pushed| ensures Kept(t, i) {
      assert Kept(r, i);
      WriteKeeps(r, i, n, husk);
    }
    if r.producer.Written? {
      SameSlot(n, |r.pushed|, r.cap);
    }
  }

  lemma StoreHeadInv<T>(r: Ring<T>)
    requires Inv(r) && r.consumer.Taken?
    ensures Inv(Do(r, StoreHead))
  {
    NextOf(|r.popped|, r.cap);
    var t := Do(r, StoreHead);
    forall i | FirstKept(t) <= i < |t.pushed| ensures Kept(t, i) {
      assert Kept(r, i);
    }
  }

  lemma LoadsInv<T>(r: Ring<T>, s: Step<T>)
    requires Inv(r) && Enabled(r, s) && (s.StartPush? || s.CheckRoom? || s.StartPop? || s.CheckItem?)
    ensures Inv(Do(r, s))
  {
    var t := Do(r, s);
    forall i | FirstKept(t) <= i < |t.pushed| ensures Kept(t, i) {
      assert Kept(r, i);
    }
    match s
    case CheckRoom(h) => RoomVerdict(r, h);
    case CheckItem(n) => ItemVerdict(r, n);
    case _ =>
  }

  /** Every step of either side, with any admissible stale read, keeps the invariant. */
  lemma StepInv<T>(r: Ring<T>, s: Step<T>)
    requires Inv(r) && Enabled(r, s)
    ensures Inv(Do(r, s))
  {
    match s
    case WriteSlot => WriteSlotInv(r);
    case StoreTail => StoreTailInv(r);
    case TakeSlot(husk) => TakeSlotInv(r, husk);
    case StoreHead => StoreHeadInv(r);
    case _ => LoadsInv(r, s);
  }

  ghost predicate Reaches<T>(r: Ring<T>, steps: seq<Step<T>>, t: Ring<T>)
    decreases |steps|
  {
    if steps == [] then r == t
    else WellFormed(r) && Enabled(r, steps[0]) && Reaches(Do(r, steps[0]), steps[1..], t)
  }

  lemma {:induction false} ReachesInv<T>(r: Ring<T>, steps: seq<Step<T>>, t: Ring<T>)
    requires Inv(r) && Reaches(r, steps, t)
    ensures Inv(t)
    decreases |steps|
  {
    if steps != [] {
      StepInv(r, steps[0]);
      ReachesInv(Do(r, steps[0]), steps[1..], t);
    }
  }

  /** For every interleaving from a new ring: the items popped are the items pushed, in
      order, then come the ones still held, each in its slot; at most Capacity - 1 are
      held; and size() is their exact number. */
  lemma Fifo<T>(r: Ring<T>, steps: seq<Step<T>>, t: Ring<T>)
    requires IsNew(r) && Reaches(r, steps, t)
    ensures t.popped <= t.pushed && t.pushed == t.popped + t.pushed[|t.popped|..]
    ensures |t.pushed| - |t.popped| <= t.cap - 1
    ensures forall i :: FirstKept(t) <= i < |t.pushed| ==> |t.buf| == t.cap > 0 && Kept(t, i)
    ensures t.cap > 0 && SizeOf(t.head, t.tail, t.cap) == |t.pushed| - |t.popped|
  {
    NewInv(r);
    ReachesInv(r, steps, t);
    SizeIsCount(|t.popped|, |t.pushed|, t.cap);
  }

  /** A slot is never written while it may be read. The item the producer overwrites was
      taken by a pop whose head_ store the producer has acquired, and the item the consumer
      takes was written before a tail_ store the consumer has acquired: the slot accesses
      are ordered by happens-before. */
  lemma SlotsNotShared<T>(r: Ring<T>)
    requires Inv(r)
    ensures r.producer.Admitted? && r.consumer.Nonempty? ==> r.producer.at != r.consumer.at
    ensures r.producer.Admitted? ==> |r.pushed| - r.cap < r.seenHead
    ensures r.consumer.Nonempty? ==> |r.popped| < r.seenTail
  {
    if r.producer.Admitted? && r.consumer.Nonempty? {
      SameSlot(|r.popped|, |r.pushed|, r.cap);
    }
  }
}
