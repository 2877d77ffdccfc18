/** That the stop is not an empty promise: the loop leaves when and only when a draining pop finds
    nothing, from every state after the stop it can get there, and messages do get through. */
module ShutdownRuns {
  import opened Engine
  import opened EngineRuns
  import C = MpscCalls
  import R = Spsc
  import Mask
  import opened Shutdown

  /** A pop that loads the n-th tail: with something to take the loop goes on to take it; with
      nothing it ends if it is draining, and looks at running_ again if it is not. */
  lemma LoopAfterCheckIff(sys: System, start: Engine, n: nat)
    requires Inv(sys, start) && Enabled(sys, Consumer(M.CheckItem(n)))
    ensures M.WellFormed(sys.queue)
    ensures var t := Do(sys, Consumer(M.CheckItem(n)));
      if |sys.queue.popped| == n
      then t.queue.consumer.Waiting? && t.loop == (if sys.loop.Draining? then Exited else Top)
      else t.queue.consumer.Nonempty? && t.loop == sys.loop
  {
    hide M.Inv, M.LastAuthorKnows, JoinedOk;
    M.InvWellFormed(sys.queue);
    M.EmptyVerdict(sys.queue, n);
  }

  /** A finished pop hands its item to the engine, and the engine handles just that. */
  lemma PopThenHandle(sys: System, start: Engine)
    requires Inv(sys, start) && Enabled(sys, Consumer(M.StoreHead))
    ensures M.WellFormed(sys.queue) && M.WellFormed(Do(sys, Consumer(M.StoreHead)).queue)
    ensures var t := Do(sys, Consumer(M.StoreHead));
      t.loop == Handling(sys.queue.consumer.item, sys.loop.Draining?) && t.engine == sys.engine
    ensures var u := Do(Do(sys, Consumer(M.StoreHead)), Handle);
      u.engine == Process(sys.engine, sys.queue.consumer.item) && u.loop == sys.loop
  {
    hide M.Inv, M.LastAuthorKnows, JoinedOk;
    M.InvWellFormed(sys.queue);
    M.StepInv(sys.queue, M.StoreHead);
    M.InvWellFormed(M.Do(sys.queue, M.StoreHead));
  }

  // ---------------------------------------------------------------- the loop can always finish

  function Rank(loop: LoopPc): nat {
    match loop
    case Handling(_, last) => if last then 2 else 5
    case Polling => 4
    case Top => 3
    case Draining => 1
    case Exited => 0
  }

  function Phase<T>(c: R.ConsumerPc<T>): nat {
    match c
    case Waiting => 3
    case HeadLoaded(_) => 2
    case Nonempty(_) => 1
    case Taken(_, _) => 0
  }

  ghost predicate Closer(sys: System, t: System) {
    var m, n := |sys.queue.pushed| - |sys.queue.popped|, |t.queue.pushed| - |t.queue.popped|;
    || n < m
    || (n == m && Rank(t.loop) < Rank(sys.loop))
    || (n == m && Rank(t.loop) == Rank(sys.loop) && Phase(t.queue.consumer) < Phase(sys.queue.consumer))
  }

  /** The engine thread's next step. */
  ghost function Next(sys: System): Step
    requires !sys.loop.Exited?
  {
    match sys.loop
    case Top => LoadRunning(false)
    case Handling(_, _) => Handle
    case _ =>
      match sys.queue.consumer
      case Waiting => Consumer(M.StartPop)
      case HeadLoaded(_) => Consumer(M.CheckItem(|sys.queue.pushed|))
      case Nonempty(_) => Consumer(M.TakeSlot(OtherMessage))
      case Taken(_, _) => Consumer(M.StoreHead)
  }

  lemma NextEnabled(sys: System, start: Engine)
    requires Inv(sys, start) && !sys.running && !sys.loop.Exited?
    ensures M.WellFormed(sys.queue) && Enabled(sys, Next(sys))
  {
    hide M.Inv, M.LastAuthorKnows, JoinedOk;
    M.InvWellFormed(sys.queue);
    M.SeenTailBound(sys.queue);
  }

  lemma NextCloser(sys: System, start: Engine)
    requires Inv(sys, start) && !sys.loop.Exited? && M.WellFormed(sys.queue) && Enabled(sys, Next(sys))
    ensures var t := Do(sys, Next(sys));
      t.running == sys.running && t.queue.pushed == sys.queue.pushed && Closer(sys, t)
  {
    hide M.Inv, M.LastAuthorKnows, JoinedOk, LoopOk, M.Do, M.Enabled, AfterPop, Process, ProcessAll;
    if sys.loop.Polling? || sys.loop.Draining? {
      PopCloser(sys, start);
    }
  }

  /** The steps of a pop, one after the other. */
  lemma PopPhases(q: M.Queue<Inbound>, c: M.Step<Inbound>)
    requires M.WellFormed(q) && M.Enabled(q, c) && M.ByConsumer(c)
    ensures var t := M.Do(q, c);
      && t.pushed == q.pushed
      && (c.StoreHead? ==> |t.popped| == |q.popped| + 1)
      && (!c.StoreHead? ==> t.popped == q.popped)
      && (c.StartPop? ==> t.consumer.HeadLoaded?)
      && (c.TakeSlot? ==> t.consumer.Taken?)
  {
    hide Mask.Next;
  }

  lemma PopCloser(sys: System, start: Engine)
    requires Inv(sys, start) && (sys.loop.Polling? || sys.loop.Draining?)
    requires M.WellFormed(sys.queue) && Enabled(sys, Next(sys))
    ensures var t := Do(sys, Next(sys));
      t.running == sys.running && t.queue.pushed == sys.queue.pushed && Closer(sys, t)
  {
    hide Inv, M.Do, M.Enabled, M.WellFormed;
    PopPhases(sys.queue, Next(sys).s);
    if sys.queue.consumer.HeadLoaded? {
      LoopAfterCheckIff(sys, start, |sys.queue.pushed|);
    }
  }

  lemma NextStep(sys: System, start: Engine)
    requires Inv(sys, start) && !sys.running && !sys.loop.Exited?
    ensures M.WellFormed(sys.queue) && Enabled(sys, Next(sys))
    ensures var t := Do(sys, Next(sys));
      Inv(t, start) && !t.running && t.queue.pushed == sys.queue.pushed && Closer(sys, t)
  {
    hide M.Inv, M.LastAuthorKnows, JoinedOk, LoopOk, Do, Closer, Enabled, Next;
    NextEnabled(sys, start);
    StepInv(sys, start, Next(sys));
    NextCloser(sys, start);
  }

  /** From every state after the stop, the engine thread alone can finish: it handles what is
      still queued and leaves the loop. */
  lemma Finish(sys: System, start: Engine) returns (steps: seq<Step>, t: System)
    requires Inv(sys, start) && !sys.running
    ensures Reaches(sys, steps, t) && t.loop.Exited? && t.queue.pushed == sys.queue.pushed
    decreases |sys.queue.pushed| - |sys.queue.popped|, Rank(sys.loop), Phase(sys.queue.consumer)
  {
    hide M.Inv, M.LastAuthorKnows, JoinedOk, LoopOk, Next, Enabled, Do;
    if sys.loop.Exited? {
      steps, t := [], sys;
    } else {
      NextStep(sys, start);
      var u := Do(sys, Next(sys));
      QueueBound(sys, start);
      QueueBound(u, start);
      var rest;
      rest, t := Finish(u, start);
      steps := [Next(sys)] + rest;
      assert steps[1..] == rest;
    }
  }

  lemma QueueBound(sys: System, start: Engine)
    requires Inv(sys, start)
    ensures |sys.queue.popped| <= |sys.queue.pushed|
  {
    M.SeenTailBound(sys.queue);
  }

  // ---------------------------------------------------------------- messages get through

  ghost function Lifted(ps: seq<M.Step<Inbound>>): seq<Step> {
    if ps == [] then [] else [Producer(ps[0])] + Lifted(ps[1..])
  }

  /** What producers that have not been joined do to the queue they do to the system. */
  lemma {:induction false} Lift(sys: System, ps: seq<M.Step<Inbound>>, q: M.Queue<Inbound>)
    requires M.Reaches(sys.queue, ps, q)
    requires forall i :: 0 <= i < |ps| ==> !M.ByConsumer(ps[i]) && (ps[i].Call? ==> ps[i].w in sys.alive)
    ensures Reaches(sys, Lifted(ps), sys.(queue := q))
    decreases |ps|
  {
    hide M.Do, M.Enabled, M.WellFormed;
    if ps == [] {
      assert sys.(queue := q) == sys;
    } else {
      var u := sys.(queue := M.Do(sys.queue, ps[0]));
      assert Lifted(ps)[0] == Producer(ps[0]) && Lifted(ps)[1..] == Lifted(ps[1..]);
      Lift(u, ps[1..], q);
      assert u.(queue := q) == sys.(queue := q);
      assert Do(sys, Producer(ps[0])) == u;
    }
  }

  lemma {:induction false} Then(sys: System, a: seq<Step>, u: System, b: seq<Step>, t: System)
    requires Reaches(sys, a, u) && Reaches(u, b, t)
    ensures Reaches(sys, a + b, t)
    decreases |a|
  {
    hide Do, Enabled;
    if a == [] {
      assert a + b == b;
    } else {
      assert (a + b)[1..] == a[1..] + b;
      Then(Do(sys, a[0]), a[1..], u, b, t);
    }
  }

  /** One message pushed by a live producer while the engine is not looking. */
  lemma Accepted(sys: System, w: M.Writer, m: Inbound) returns (steps: seq<Step>, t: System)
    requires M.Inv(sys.queue) && !sys.queue.lock && M.Pc(sys.queue, w).Out? && w in sys.alive
    requires |sys.queue.pushed| - |sys.queue.popped| < sys.queue.cap - 1
    ensures Reaches(sys, steps, t) && t == sys.(queue := t.queue)
    ensures M.Inv(t.queue) && !t.queue.lock && M.Pc(t.queue, w).Out?
    ensures t.queue.pushed == sys.queue.pushed + [m]
    ensures t.queue.popped == sys.queue.popped && t.queue.cap == sys.queue.cap
    ensures M.Results(t.queue, w) == M.Results(sys.queue, w) + [true]
  {
    hide M.Inv, M.Reaches, Reaches;
    var q := C.PushAlone(sys.queue, w, m);
    var ps := C.PushCall(w, m, |sys.queue.pushed|, |sys.queue.popped|, true);
    Lift(sys, ps, q);
    steps, t := Lifted(ps), sys.(queue := q);
  }

  lemma {:induction false} AllAccepted(sys: System, w: M.Writer, ms: seq<Inbound>) returns (steps: seq<Step>, t: System)
    requires M.Inv(sys.queue) && !sys.queue.lock && M.Pc(sys.queue, w).Out? && w in sys.alive
    requires |sys.queue.pushed| - |sys.queue.popped| + |ms| <= sys.queue.cap - 1
    ensures Reaches(sys, steps, t) && t == sys.(queue := t.queue)
    ensures M.Pc(t.queue, w).Out? && t.queue.pushed == sys.queue.pushed + ms
    decreases |ms|
  {
    hide M.Inv, Reaches;
    if ms == [] {
      steps, t := [], sys;
      Stay(sys);
    } else {
      var a, u := Accepted(sys, w, ms[0]);
      var b;
      b, t := AllAccepted(u, w, ms[1..]);
      Then(sys, a, u, b, t);
      steps := a + b;
    }
  }

  lemma Stay(sys: System)
    ensures Reaches(sys, [], sys)
  {
  }

  // ---------------------------------------------------------------- while it runs

  /** The load of running_ sends the loop to poll, or to drain. */
  lemma LoopAfterLoad(sys: System, start: Engine, seen: bool)
    requires Inv(sys, start) && Enabled(sys, LoadRunning(seen))
    ensures M.WellFormed(sys.queue)
    ensures var t := Do(sys, LoadRunning(seen));
      && t.loop == (if seen then Polling else Draining)
      && t.engine == sys.engine && t.queue.pushed == sys.queue.pushed && t.queue.popped == sys.queue.popped
  {
    hide M.Inv;
    M.InvWellFormed(sys.queue);
  }

  /** The engine thread's next step while there is something queued. */
  ghost function Serving(sys: System): Step
    requires !sys.loop.Exited?
  {
    if sys.loop.Top? then LoadRunning(true) else Next(sys)
  }

  function Distance(loop: LoopPc): nat {
    match loop
    case Handling(_, _) => 3
    case Top => 2
    case _ => 1
  }

  ghost predicate Nearer(sys: System, t: System) {
    var m, n := |sys.queue.pushed| - |sys.queue.popped|, |t.queue.pushed| - |t.queue.popped|;
    || n < m
    || (n == m && Distance(t.loop) < Distance(sys.loop))
    || (n == m && Distance(t.loop) == Distance(sys.loop) && Phase(t.queue.consumer) < Phase(sys.queue.consumer))
  }

  /** The loop has not seen the stop. */
  predicate Live(loop: LoopPc) {
    loop.Top? || loop.Polling? || (loop.Handling? && !loop.last)
  }

  predicate Served(sys: System) {
    |sys.queue.popped| == |sys.queue.pushed| && !sys.loop.Handling?
  }

  lemma ServingEnabled(sys: System, start: Engine)
    requires Inv(sys, start) && Live(sys.loop)
    ensures M.WellFormed(sys.queue) && Enabled(sys, Serving(sys))
  {
    hide M.Inv, M.LastAuthorKnows, JoinedOk;
    M.InvWellFormed(sys.queue);
    M.SeenTailBound(sys.queue);
  }

  lemma ServingNearer(sys: System, start: Engine)
    requires Inv(sys, start) && Live(sys.loop) && !Served(sys)
    requires M.WellFormed(sys.queue) && Enabled(sys, Serving(sys))
    ensures var t := Do(sys, Serving(sys));
      t.running == sys.running && t.queue.pushed == sys.queue.pushed && Live(t.loop) && Nearer(sys, t)
  {
    hide Inv, M.Do, M.Enabled, M.WellFormed, Process;
    if sys.loop.Polling? {
      PopPhases(sys.queue, Serving(sys).s);
      if sys.queue.consumer.HeadLoaded? {
        LoopAfterCheckIff(sys, start, |sys.queue.pushed|);
      }
    }
  }

  /** While the engine has not seen the stop it can handle all that is queued. */
  lemma Serve(sys: System, start: Engine) returns (steps: seq<Step>, t: System)
    requires Inv(sys, start) && Live(sys.loop)
    ensures Reaches(sys, steps, t) && Inv(t, start) && Served(t)
    ensures t.running == sys.running && t.queue.pushed == sys.queue.pushed
    decreases |sys.queue.pushed| - |sys.queue.popped|, Distance(sys.loop), Phase(sys.queue.consumer)
  {
    hide M.Inv, M.LastAuthorKnows, JoinedOk, LoopOk, Serving, Enabled, Do;
    if Served(sys) {
      steps, t := [], sys;
    } else {
      ServingEnabled(sys, start);
      ServingNearer(sys, start);
      StepInv(sys, start, Serving(sys));
      var u := Do(sys, Serving(sys));
      QueueBound(sys, start);
      QueueBound(u, start);
      var rest;
      rest, t := Serve(u, start);
      steps := [Serving(sys)] + rest;
      assert steps[1..] == rest;
    }
  }

  /** Messages are handled without waiting for the stop: for any list of up to Capacity - 1
      messages there is a run after which the engine has handled them all and still runs. */
  lemma ServedWhileRunning(sys: System, w: M.Writer, ms: seq<Inbound>) returns (steps: seq<Step>, t: System)
    requires IsNewSystem(sys) && w in sys.alive && |ms| <= sys.queue.cap - 1
    ensures Reaches(sys, steps, t) && t.running
    ensures t.queue.popped == t.queue.pushed == ms && t.engine == ProcessAll(sys.engine, ms)
  {
    hide M.Inv, Reaches, Inv;
    NewInv(sys);
    NewQueue(sys);
    var a, u := AllAccepted(sys, w, ms);
    ReachesInv(sys, sys.engine, a, u);
    var b;
    b, t := Serve(u, sys.engine);
    Then(sys, a, u, b, t);
    steps := a + b;
    StopDrains(sys, steps, t);
    AllPopped(t, sys.engine);
    assert sys.queue.pushed + ms == ms;
  }

  lemma AllPopped(sys: System, start: Engine)
    requires Inv(sys, start) && Served(sys)
    ensures sys.queue.popped == sys.queue.pushed && Processed(sys) == sys.queue.pushed
  {
    M.IndicesFromCounts(sys.queue);
  }

  // ---------------------------------------------------------------- to the end

  /** The producer is joined, and the engine told to stop. */
  lemma Stopped(sys: System, start: Engine, w: M.Writer) returns (t: System)
    requires Inv(sys, start) && sys.alive == {w} && M.Pc(sys.queue, w).Out? && sys.running
    ensures Reaches(sys, [Join(w)] + [StopEngine], t)
    ensures Inv(t, start) && !t.running && t.queue == sys.queue && t.engine == sys.engine
  {
    hide M.Inv, LoopOk;
    StepInv(sys, start, Join(w));
    var u := Do(sys, Join(w));
    StepInv(u, start, StopEngine);
    t := Do(u, StopEngine);
    M.InvWellFormed(u.queue);
    var steps := [Join(w)] + [StopEngine];
    var rest := steps[1..];
    assert rest == [StopEngine] && rest[1..] == [];
    Stay(t);
    assert Reaches(u, rest, t);
  }

  /** Whatever a producer wants to send, up to the capacity of the queue, there is a run in which
      it is all accepted, handled in order, and the engine stops. */
  lemma MessagesGetThrough(sys: System, w: M.Writer, ms: seq<Inbound>) returns (steps: seq<Step>, t: System)
    requires IsNewSystem(sys) && sys.alive == {w} && |ms| <= sys.queue.cap - 1
    ensures Reaches(sys, steps, t) && t.loop.Exited?
    ensures t.queue.popped == t.queue.pushed == ms && t.engine == ProcessAll(sys.engine, ms)
  {
    hide M.Inv, Reaches, Inv;
    NewInv(sys);
    NewQueue(sys);
    var a, u := AllAccepted(sys, w, ms);
    ReachesInv(sys, sys.engine, a, u);
    var v := Stopped(u, sys.engine, w);
    var b;
    b, t := Finish(v, sys.engine);
    var stop := [Join(w)] + [StopEngine];
    Then(u, stop, v, b, t);
    Then(sys, a, u, stop + b, t);
    steps := a + (stop + b);
    StopDrains(sys, steps, t);
    assert sys.queue.pushed + ms == ms;
  }

  lemma NewQueue(sys: System)
    requires IsNewSystem(sys)
    ensures M.Inv(sys.queue) && !sys.queue.lock && sys.queue.pushed == sys.queue.popped == []
    ensures forall w :: M.Pc(sys.queue, w).Out?
  {
    M.NewInv(sys.queue);
  }
}
