/** The run from start to stop: producers, the inbound queue, MatchingEngine::matchingLoop
    and the stop order of Exchange::stop, as one system of atomic steps. */
module Shutdown {
  import opened Types
  import opened Engine
  import opened EngineRuns
  import M = Mpsc

  datatype LoopPc =
    | Top                                    // about to load running_
    | Polling                                // the inner pop loop
    | Draining                               // the pop loop after running_ was seen false
    | Handling(msg: Inbound, last: bool)     // popped, not yet processed
    | Exited

  /** `alive` are the producer threads not yet joined; joinedView is what the stopping thread
      knows of the tail from the threads it has joined, and runView what its store of
      running_ = false carries to the engine's thread. */
  datatype System = System(
    queue: M.Queue<Inbound>,
    loop: LoopPc,
    engine: Engine,
    running: bool,
    alive: set<M.Writer>,
    joinedView: nat,
    runView: nat)

  datatype Step =
    | Producer(s: M.Step<Inbound>)
    | Join(w: M.Writer)                      // DummyGenerator::stop, ZmqServer::stop
    | StopEngine                             // running_.exchange(false), after both
    | LoadRunning(seen: bool)
    | Consumer(s: M.Step<Inbound>)
    | Handle

  ghost predicate MayProduce(sys: System, s: M.Step<Inbound>) {
    && M.Enabled(sys.queue, s) && !M.ByConsumer(s)
    && (s.Call? ==> s.w in sys.alive)
  }

  ghost predicate Enabled(sys: System, s: Step) {
    match s
    case Producer(p) => MayProduce(sys, p)
    case Join(w) => w in sys.alive && M.Pc(sys.queue, w).Out?
    case StopEngine => sys.alive == {} && sys.running
    case LoadRunning(seen) => sys.loop.Top? && (!seen ==> !sys.running)
    case Consumer(c) => (sys.loop.Polling? || sys.loop.Draining?) && M.ByConsumer(c) && M.Enabled(sys.queue, c)
    case Handle => sys.loop.Handling?
  }

  function Larger(a: nat, b: nat): nat {
    if a < b then b else a
  }

  /** Where the loop stands after a step of its pop. */
  ghost function AfterPop(loop: LoopPc, before: M.Queue<Inbound>, after: M.Queue<Inbound>, c: M.Step<Inbound>): LoopPc {
    if c.StoreHead? && before.consumer.Taken? then Handling(before.consumer.item, loop.Draining?)
    else if c.CheckItem? && after.consumer.Waiting? then (if loop.Draining? then Exited else Top)
    else loop
  }

  ghost function Do(sys: System, s: Step): System
    requires M.WellFormed(sys.queue) && Enabled(sys, s)
  {
    match s
    case Producer(p) => sys.(queue := M.Do(sys.queue, p))
    case Join(w) => sys.(alive := sys.alive - {w}, joinedView := Larger(sys.joinedView, M.ViewOf(sys.queue, w).tail))
    case StopEngine => sys.(running := false, runView := sys.joinedView)
    case LoadRunning(seen) =>
      if seen then sys.(loop := Polling)
      else sys.(loop := Draining, queue := sys.queue.(seenTail := Larger(sys.queue.seenTail, sys.runView)))
    case Consumer(c) =>
      var q := M.Do(sys.queue, c);
      sys.(queue := q, loop := AfterPop(sys.loop, sys.queue, q, c))
    case Handle =>
      sys.(engine := Process(sys.engine, sys.loop.msg), loop := if sys.loop.last then Draining else Polling)
  }

  // ---------------------------------------------------------------- invariant

  /** The messages the engine has processed. */
  function Processed(sys: System): seq<Inbound> {
    var n := |sys.queue.popped|;
    if sys.loop.Handling? && n > 0 then sys.queue.popped[..n - 1] else sys.queue.popped
  }

  predicate LastRound(loop: LoopPc) {
    loop.Draining? || loop.Exited? || (loop.Handling? && loop.last)
  }

  /** What the joined threads knew. */
  ghost predicate JoinedOk(sys: System) {
    && (forall w :: w !in sys.alive ==> M.Pc(sys.queue, w).Out? && M.ViewOf(sys.queue, w).tail <= sys.joinedView)
    && sys.joinedView <= |sys.queue.pushed|
    && (!sys.running ==> sys.alive == {} && sys.runView == sys.joinedView)
  }

  ghost predicate LoopOk(sys: System) {
    && (sys.loop.Polling? || sys.loop.Draining? || sys.queue.consumer.Waiting?)
    && (sys.loop.Handling? ==>
          |sys.queue.popped| > 0 && sys.queue.popped[|sys.queue.popped| - 1] == sys.loop.msg)
    && (LastRound(sys.loop) ==> !sys.running && sys.queue.seenTail == |sys.queue.pushed|)
    && (sys.loop.Exited? ==> |sys.queue.popped| == |sys.queue.pushed|)
  }

  ghost predicate Inv(sys: System, start: Engine) {
    && M.Inv(sys.queue) && M.LastAuthorKnows(sys.queue)
    && JoinedOk(sys) && LoopOk(sys)
    && sys.engine == ProcessAll(start, Processed(sys))
  }

  ghost predicate IsNewSystem(sys: System) {
    M.IsNew(sys.queue) && sys.loop.Top? && sys.running && sys.joinedView == 0 && sys.runView == 0
  }

  lemma NewInv(sys: System)
    requires IsNewSystem(sys)
    ensures Inv(sys, sys.engine)
  {
    M.NewInv(sys.queue);
  }

  lemma {:induction false} ProcessAllSnoc(e: Engine, ms: seq<Inbound>, m: Inbound)
    ensures ProcessAll(e, ms + [m]) == Process(ProcessAll(e, ms), m)
    decreases |ms|
  {
    if ms == [] {
      assert (ms + [m])[1..] == [];
    } else {
      assert (ms + [m])[1..] == ms[1..] + [m];
      ProcessAllSnoc(Process(e, ms[0]), ms[1..], m);
    }
  }

  // ---------------------------------------------------------------- preservation

  lemma ProducerInv(sys: System, start: Engine, p: M.Step<Inbound>)
    requires Inv(sys, start) && MayProduce(sys, p)
    ensures M.WellFormed(sys.queue) && Inv(Do(sys, Producer(p)), start)
  {
    hide M.Inv;
    M.StepInv(sys.queue, p);
    M.LastAuthorKept(sys.queue, p);
    M.ProducerStep(sys.queue, p);
  }

  /** Once every producer is joined, the stopping thread knows the final tail. */
  lemma AllJoined(sys: System, start: Engine)
    requires Inv(sys, start) && sys.alive == {}
    ensures sys.joinedView == |sys.queue.pushed|
  {
    var n := |sys.queue.pushed|;
    if n > 0 {
      var w := sys.queue.author[n - 1];
      assert w !in sys.alive;
    }
  }

  lemma LoadRunningInv(sys: System, start: Engine, seen: bool)
    requires Inv(sys, start) && M.WellFormed(sys.queue) && Enabled(sys, LoadRunning(seen))
    ensures Inv(Do(sys, LoadRunning(seen)), start)
  {
    hide M.Inv;
    if !seen {
      AllJoined(sys, start);
      M.SeenTailBound(sys.queue);
      M.RaiseSeenTail(sys.queue, Larger(sys.queue.seenTail, sys.runView));
    }
  }

  /** The parts of the invariant that a pop step does not decide. */
  lemma ConsumerFrame(sys: System, start: Engine, c: M.Step<Inbound>)
    requires Inv(sys, start) && M.WellFormed(sys.queue) && Enabled(sys, Consumer(c))
    ensures var t := Do(sys, Consumer(c)); M.Inv(t.queue) && M.LastAuthorKnows(t.queue) && JoinedOk(t)
  {
    hide M.Inv, M.LastAuthorKnows, LoopOk;
    M.StepInv(sys.queue, c);
    M.LastAuthorKept(sys.queue, c);
    M.ConsumerStep(sys.queue, c);
  }

  lemma CheckItemLoop(sys: System, start: Engine, n: nat)
    requires Inv(sys, start) && M.WellFormed(sys.queue) && Enabled(sys, Consumer(M.CheckItem(n)))
    ensures var t := Do(sys, Consumer(M.CheckItem(n))); LoopOk(t) && Processed(t) == Processed(sys)
  {
    hide M.Inv, M.LastAuthorKnows, JoinedOk;
    M.EmptyVerdict(sys.queue, n);
    M.ConsumerStep(sys.queue, M.CheckItem(n));
  }

  lemma StoreHeadLoop(sys: System, start: Engine)
    requires Inv(sys, start) && M.WellFormed(sys.queue) && Enabled(sys, Consumer(M.StoreHead))
    ensures var t := Do(sys, Consumer(M.StoreHead)); LoopOk(t) && Processed(t) == Processed(sys)
  {
    hide M.Inv, M.LastAuthorKnows, JoinedOk;
    M.ConsumerStep(sys.queue, M.StoreHead);
    var q := M.Do(sys.queue, M.StoreHead);
    assert q.popped[..|q.popped| - 1] == sys.queue.popped;
  }

  lemma ConsumerInv(sys: System, start: Engine, c: M.Step<Inbound>)
    requires Inv(sys, start) && M.WellFormed(sys.queue) && Enabled(sys, Consumer(c))
    ensures Inv(Do(sys, Consumer(c)), start)
  {
    hide M.Inv, M.LastAuthorKnows, JoinedOk;
    ConsumerFrame(sys, start, c);
    match c
    case CheckItem(n) => CheckItemLoop(sys, start, n);
    case StoreHead => StoreHeadLoop(sys, start);
    case _ => M.ConsumerStep(sys.queue, c);
  }

  lemma HandleInv(sys: System, start: Engine)
    requires Inv(sys, start) && M.WellFormed(sys.queue) && sys.loop.Handling?
    ensures Inv(Do(sys, Handle), start)
  {
    var n := |sys.queue.popped|;
    assert sys.queue.popped == sys.queue.popped[..n - 1] + [sys.loop.msg];
    ProcessAllSnoc(start, sys.queue.popped[..n - 1], sys.loop.msg);
  }

  lemma StepInv(sys: System, start: Engine, s: Step)
    requires Inv(sys, start) && Enabled(sys, s)
    ensures M.WellFormed(sys.queue) && Inv(Do(sys, s), start)
  {
    M.InvWellFormed(sys.queue);
    match s
    case Producer(p) => ProducerInv(sys, start, p);
    case Join(w) =>
    case StopEngine =>
    case LoadRunning(seen) => LoadRunningInv(sys, start, seen);
    case Consumer(c) => ConsumerInv(sys, start, c);
    case Handle => HandleInv(sys, start);
  }

  ghost predicate Reaches(sys: System, steps: seq<Step>, t: System)
    decreases |steps|
  {
    if steps == [] then sys == t
    else M.WellFormed(sys.queue) && Enabled(sys, steps[0]) && Reaches(Do(sys, steps[0]), steps[1..], t)
  }

  lemma {:induction false} ReachesInv(sys: System, start: Engine, steps: seq<Step>, t: System)
    requires Inv(sys, start) && Reaches(sys, steps, t)
    ensures Inv(t, start)
    decreases |steps|
  {
    if steps != [] {
      StepInv(sys, start, steps[0]);
      ReachesInv(Do(sys, steps[0]), start, steps[1..], t);
    }
  }

  /** For every interleaving: the engine has always processed exactly the messages popped, in
      order; and once its loop has exited no producer is left, the queue is empty and the
      engine is the fold of processInboundMessage over the messages pushed, in the order the
      pushes took effect. Of each producer these are exactly the messages whose push returned
      true, in the order of its calls: each accepted message once, no refused one. */
  lemma StopDrains(sys: System, steps: seq<Step>, t: System)
    requires IsNewSystem(sys) && Reaches(sys, steps, t)
    ensures t.engine == ProcessAll(sys.engine, Processed(t))
    ensures t.loop.Exited? ==>
      && t.alive == {} && (forall w :: M.Pc(t.queue, w).Out?)
      && t.queue.popped == t.queue.pushed && t.queue.head == t.queue.tail
      && t.engine == ProcessAll(sys.engine, t.queue.pushed)
    ensures t.loop.Exited? ==> |t.queue.author| == |t.queue.pushed| && forall w ::
      && |M.Calls(t.queue, w)| == |M.Results(t.queue, w)|
      && M.From(t.queue.pushed, t.queue.author, w) == M.Succeeded(M.Calls(t.queue, w), M.Results(t.queue, w))
  {
    NewInv(sys);
    ReachesInv(sys, sys.engine, steps, t);
    M.HeldAndSize(t.queue);
    if t.loop.Exited? {
      M.IndicesFromCounts(t.queue);
      EveryCallAnswered(t, sys.engine);
    }
  }

  lemma EveryCallAnswered(t: System, start: Engine)
    requires Inv(t, start) && t.loop.Exited?
    ensures t.alive == {} && |t.queue.author| == |t.queue.pushed|
    ensures forall w ::
      && M.Pc(t.queue, w).Out? && |M.Calls(t.queue, w)| == |M.Results(t.queue, w)|
      && M.From(t.queue.pushed, t.queue.author, w) == M.Succeeded(M.Calls(t.queue, w), M.Results(t.queue, w))
  {
    hide M.InCallOrder, M.From, M.Succeeded, M.PerProducer;
    ProducersHistory(t, start);
    forall w
      ensures |M.Calls(t.queue, w)| == |M.Results(t.queue, w)|
      ensures M.From(t.queue.pushed, t.queue.author, w) == M.Succeeded(M.Calls(t.queue, w), M.Results(t.queue, w))
    {
      M.AllReturned(t.queue, w);
    }
  }

  lemma ProducersHistory(t: System, start: Engine)
    requires Inv(t, start) && t.loop.Exited?
    ensures M.PerProducer(t.queue) && |t.queue.author| == |t.queue.pushed| && t.alive == {}
    ensures forall w :: M.Pc(t.queue, w).Out?
  {
  }

  /** And it keeps its own invariant all the way, until the 64-bit order ids run out. */
  lemma EngineStaysSound(sys: System, steps: seq<Step>, t: System)
    requires IsNewSystem(sys) && Reaches(sys, steps, t) && EngineInv(sys.engine)
    requires sys.engine.nextOrderId + |t.queue.pushed| < TWO_64
    ensures EngineInv(t.engine)
  {
    StopDrains(sys, steps, t);
    NewInv(sys);
    ReachesInv(sys, sys.engine, steps, t);
    M.HeldAndSize(t.queue);
    ProcessAllInv(sys.engine, Processed(t));
  }
}
