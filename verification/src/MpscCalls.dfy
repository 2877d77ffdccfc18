/** What single calls on MPSCQueue come to: when the lock is taken, when a push is refused, and
    what push and pop do when no other thread runs in between. */
module MpscCalls {
  import opened Mask
  import opened Mpsc

  /** The exchange takes the lock exactly when it is free. */
  lemma LockTakenIff<T>(q: Queue<T>, w: Writer)
    requires Inv(q) && Enabled(q, Exchange(w))
    ensures WellFormed(q)
    ensures var t := Do(q, Exchange(w));
      && (Pc(t, w) == Locked(Pc(q, w).item) <==> !q.lock)
      && (q.lock ==> t == q)
      && (!q.lock ==> t.lock && t.entered == q.entered + [w])
  {
    InvWellFormed(q);
  }

  /** A push that has loaded the h-th head, old or new, is refused exactly when the ring is full
      with respect to it, and otherwise goes on to the slot. */
  lemma RefusedIff<T>(q: Queue<T>, w: Writer, h: nat)
    requires Inv(q) && Enabled(q, CheckRoom(w, h))
    ensures WellFormed(q)
    ensures var t := Do(q, CheckRoom(w, h));
      && (Pc(t, w) == Leaving(false) <==> |q.pushed| + 1 == h + q.cap)
      && (Pc(t, w) != Leaving(false) ==> Pc(t, w).Admitted? && Pc(t, w).item == Pc(q, w).item)
  {
    hide Next, InLockOrder, PerProducer, R.Inv;
    InvWellFormed(q);
    OnlyHolder(q, w);
    R.RoomVerdict(RingOf(q, w), h);
  }

  /** The newest head refuses a push exactly when Capacity - 1 items are held. */
  lemma RefusedWhenFullIff<T>(q: Queue<T>, w: Writer)
    requires Inv(q) && Enabled(q, CheckRoom(w, |q.popped|))
    ensures WellFormed(q)
    ensures Pc(Do(q, CheckRoom(w, |q.popped|)), w) == Leaving(false) <==> |q.pushed| - |q.popped| == q.cap - 1
  {
    RefusedIff(q, w, |q.popped|);
  }

  // ---------------------------------------------------------------- runs

  lemma Prepend<T>(q: Queue<T>, s: Step<T>, rest: seq<Step<T>>, t: Queue<T>)
    requires Inv(q) && WellFormed(q) && Enabled(q, s) && Reaches(Do(q, s), rest, t)
    ensures Reaches(q, [s] + rest, t)
  {
    hide Inv, Do, Enabled;
    assert ([s] + rest)[1..] == rest;
  }

  lemma Last<T>(q: Queue<T>, s: Step<T>)
    requires WellFormed(q) && Enabled(q, s)
    ensures Reaches(q, [s], Do(q, s))
  {
    hide Do;
    var none := [s][1..];
    assert none == [];
    assert Reaches(Do(q, s), none, Do(q, s));
  }

  /** w has entered with x and looked at the tail; nothing else has moved. */
  ghost predicate Inside<T>(q: Queue<T>, t: Queue<T>, w: Writer, x: T) {
    && Inv(t) && WellFormed(t) && t.lock && Pc(t, w).Loaded? && Pc(t, w).item == x
    && Same(q, t) && Calls(t, w) == Calls(q, w) + [x] && Results(t, w) == Results(q, w)
    && ViewOf(t, w).head <= |t.popped|
  }

  ghost predicate Same<T>(q: Queue<T>, t: Queue<T>) {
    && t.pushed == q.pushed && t.popped == q.popped && t.consumer == q.consumer && t.cap == q.cap
    && t.seenTail == q.seenTail
  }

  function Entering<T>(w: Writer, x: T, n: nat): seq<Step<T>> {
    [Call(w, x)] + ([Exchange(w)] + [LoadTail(w, n)])
  }

  lemma Enter<T>(q: Queue<T>, w: Writer, x: T) returns (t: Queue<T>)
    requires Inv(q) && !q.lock && Pc(q, w).Out?
    ensures Inside(q, t, w, x) && Reaches(q, Entering(w, x, |q.pushed|), t)
    ensures forall v :: v != w ==> Pc(t, v) == Pc(q, v) && ViewOf(t, v) == ViewOf(q, v)
    ensures forall v :: v != w ==> Calls(t, v) == Calls(q, v) && Results(t, v) == Results(q, v)
  {
    hide Inv, Reaches;
    InvWellFormed(q);
    StepInv(q, Call(w, x));
    var q1 := Do(q, Call(w, x));
    InvWellFormed(q1);
    StepInv(q1, Exchange(w));
    var q2 := Do(q1, Exchange(w));
    InvWellFormed(q2);
    HolderKnows(q2, w);
    var n := |q.pushed|;
    StepInv(q2, LoadTail(w, n));
    t := Do(q2, LoadTail(w, n));
    InvWellFormed(t);
    HolderKnows(t, w);
    Last(q2, LoadTail(w, n));
    Prepend(q1, Exchange(w), [LoadTail(w, n)], t);
    Prepend(q, Call(w, x), [Exchange(w)] + [LoadTail(w, n)], t);
  }

  lemma HolderKnows<T>(q: Queue<T>, w: Writer)
    requires Inv(q) && Critical(Pc(q, w))
    ensures q.lock && ViewOf(q, w).tail == |q.pushed| && ViewOf(q, w).head <= |q.popped|
  {
    hide R.Inv, InLockOrder, PerProducer;
    OnlyHolder(q, w);
  }

  function Storing<T>(w: Writer, h: nat): seq<Step<T>> {
    [CheckRoom(w, h)] + ([WriteSlot(w)] + ([StoreTail(w)] + [Unlock(w)]))
  }

  function Refusing<T>(w: Writer, h: nat): seq<Step<T>> {
    [CheckRoom(w, h)] + [Unlock(w)]
  }

  /** The call has returned ok, the lock is free, and the other producers are where they were. */
  ghost predicate Returned<T>(q: Queue<T>, t: Queue<T>, w: Writer, ok: bool) {
    && Inv(t) && !t.lock && Pc(t, w).Out? && Results(t, w) == Results(q, w) + [ok] && Calls(t, w) == Calls(q, w)
    && t.popped == q.popped && t.consumer == q.consumer && t.cap == q.cap && t.seenTail == q.seenTail
    && (forall v :: v != w ==> Pc(t, v) == Pc(q, v) && ViewOf(t, v) == ViewOf(q, v))
    && (forall v :: v != w ==> Calls(t, v) == Calls(q, v) && Results(t, v) == Results(q, v))
  }

  /** The slot is written. */
  lemma Fill<T>(q: Queue<T>, w: Writer) returns (t: Queue<T>)
    requires Inv(q) && WellFormed(q) && q.lock && Pc(q, w).Loaded? && ViewOf(q, w).head <= |q.popped|
    requires |q.pushed| - |q.popped| < q.cap - 1
    ensures Inv(t) && WellFormed(t) && Pc(t, w).Written? && Pc(t, w).item == Pc(q, w).item && Same(q, t)
    ensures t.calls == q.calls && t.results == q.results
    ensures forall v :: v != w ==> Pc(t, v) == Pc(q, v) && ViewOf(t, v) == ViewOf(q, v)
    ensures Enabled(q, CheckRoom(w, |q.popped|))
    ensures var u := Do(q, CheckRoom(w, |q.popped|));
      Inv(u) && WellFormed(u) && Enabled(u, WriteSlot(w)) && t == Do(u, WriteSlot(w))
  {
    hide Inv, Next;
    RefusedWhenFullIff(q, w);
    RefusedIff(q, w, |q.popped|);
    StepInv(q, CheckRoom(w, |q.popped|));
    var u := Do(q, CheckRoom(w, |q.popped|));
    InvWellFormed(u);
    StepInv(u, WriteSlot(w));
    t := Do(u, WriteSlot(w));
    InvWellFormed(t);
  }

  /** The tail is stored and the lock released. */
  lemma Publish<T>(q: Queue<T>, w: Writer) returns (t: Queue<T>)
    requires Inv(q) && WellFormed(q) && Pc(q, w).Written?
    ensures Returned(q, t, w, true) && t.pushed == q.pushed + [Pc(q, w).item]
    ensures Reaches(q, [StoreTail(w)] + [Unlock(w)], t)
  {
    hide Inv, Reaches, Next;
    StepInv(q, StoreTail(w));
    var u := Do(q, StoreTail(w));
    InvWellFormed(u);
    StepInv(u, Unlock(w));
    t := Do(u, Unlock(w));
    Last(u, Unlock(w));
    Prepend(q, StoreTail(w), [Unlock(w)], t);
  }

  lemma Store<T>(q: Queue<T>, w: Writer) returns (t: Queue<T>)
    requires Inv(q) && WellFormed(q) && q.lock && Pc(q, w).Loaded? && ViewOf(q, w).head <= |q.popped|
    requires |q.pushed| - |q.popped| < q.cap - 1
    ensures Returned(q, t, w, true) && t.pushed == q.pushed + [Pc(q, w).item]
    ensures Reaches(q, Storing(w, |q.popped|), t)
  {
    hide Inv, Reaches, Do, Enabled;
    var h := |q.popped|;
    var u := Fill(q, w);
    t := Publish(u, w);
    Prepend(Do(q, CheckRoom(w, h)), WriteSlot(w), [StoreTail(w)] + [Unlock(w)], t);
    Prepend(q, CheckRoom(w, h), [WriteSlot(w)] + ([StoreTail(w)] + [Unlock(w)]), t);
  }

  lemma Refuse<T>(q: Queue<T>, w: Writer) returns (t: Queue<T>)
    requires Inv(q) && WellFormed(q) && q.lock && Pc(q, w).Loaded? && ViewOf(q, w).head <= |q.popped|
    requires |q.pushed| - |q.popped| == q.cap - 1
    ensures Returned(q, t, w, false) && t.pushed == q.pushed
    ensures Reaches(q, Refusing(w, |q.popped|), t)
  {
    hide Inv, Reaches, Next;
    var h := |q.popped|;
    RefusedWhenFullIff(q, w);
    StepInv(q, CheckRoom(w, h));
    var q1 := Do(q, CheckRoom(w, h));
    InvWellFormed(q1);
    StepInv(q1, Unlock(w));
    t := Do(q1, Unlock(w));
    Last(q1, Unlock(w));
    Prepend(q, CheckRoom(w, h), [Unlock(w)], t);
  }

  lemma {:induction false} Join<T>(q: Queue<T>, a: seq<Step<T>>, u: Queue<T>, b: seq<Step<T>>, t: Queue<T>)
    requires Reaches(q, a, u) && Reaches(u, b, t)
    ensures Reaches(q, a + b, t)
    decreases |a|
  {
    hide Do, Enabled;
    if a == [] {
      assert a + b == b;
    } else {
      assert (a + b)[1..] == a[1..] + b;
      Join(Do(q, a[0]), a[1..], u, b, t);
    }
  }

  /** The steps of one push that nobody disturbs: seven when there is room, five when not. */
  function PushCall<T>(w: Writer, x: T, n: nat, h: nat, room: bool): seq<Step<T>> {
    Entering(w, x, n) + if room then Storing(w, h) else Refusing(w, h)
  }

  /** One undisturbed push on an unlocked queue: it returns true and appends the item when fewer
      than Capacity - 1 items are held, and false, changing nothing, when not; the lock is free
      again in either case. */
  lemma PushAlone<T>(q: Queue<T>, w: Writer, x: T) returns (t: Queue<T>)
    requires Inv(q) && !q.lock && Pc(q, w).Out?
    ensures var room := |q.pushed| - |q.popped| < q.cap - 1;
      && Reaches(q, PushCall(w, x, |q.pushed|, |q.popped|, room), t)
      && t.pushed == (if room then q.pushed + [x] else q.pushed) && t.popped == q.popped
      && Calls(t, w) == Calls(q, w) + [x] && Results(t, w) == Results(q, w) + [room]
      && Inv(t) && !t.lock && Pc(t, w).Out? && t.consumer == q.consumer && t.cap == q.cap
      && (forall v :: v != w ==> Pc(t, v) == Pc(q, v) && Calls(t, v) == Calls(q, v) && Results(t, v) == Results(q, v))
  {
    hide Inv, Reaches, Storing, Refusing, Entering;
    var u := Enter(q, w, x);
    HeldAndSize(q);
    if |q.pushed| - |q.popped| < q.cap - 1 {
      t := Store(u, w);
      Join(q, Entering(w, x, |q.pushed|), u, Storing(w, |q.popped|), t);
    } else {
      t := Refuse(u, w);
      Join(q, Entering(w, x, |q.pushed|), u, Refusing(w, |q.popped|), t);
    }
  }

  function PopCall<T>(n: nat, husk: T): seq<Step<T>> {
    [StartPop] + ([CheckItem(n)] + ([TakeSlot(husk)] + [StoreHead]))
  }

  /** One undisturbed pop on a queue that holds something takes its first item. */
  lemma PopAlone<T>(q: Queue<T>, husk: T) returns (t: Queue<T>)
    requires Inv(q) && q.consumer.Waiting? && |q.popped| < |q.pushed|
    ensures Reaches(q, PopCall(|q.pushed|, husk), t)
    ensures t.popped == q.popped + [q.pushed[|q.popped|]] && t.pushed == q.pushed && t.consumer.Waiting? && Inv(t)
  {
    hide Inv, Reaches, Next;
    var n := |q.pushed|;
    InvWellFormed(q);
    SeenTailBound(q);
    StepInv(q, StartPop);
    var q1 := Do(q, StartPop);
    InvWellFormed(q1);
    EmptyVerdict(q1, n);
    StepInv(q1, CheckItem(n));
    var q2 := Do(q1, CheckItem(n));
    InvWellFormed(q2);
    StepInv(q2, TakeSlot(husk));
    var q3 := Do(q2, TakeSlot(husk));
    InvWellFormed(q3);
    StepInv(q3, StoreHead);
    t := Do(q3, StoreHead);
    HeldAndSize(t);
    Last(q3, StoreHead);
    Prepend(q2, TakeSlot(husk), [StoreHead], t);
    Prepend(q1, CheckItem(n), [TakeSlot(husk)] + [StoreHead], t);
    Prepend(q, StartPop, [CheckItem(n)] + ([TakeSlot(husk)] + [StoreHead]), t);
  }
}
