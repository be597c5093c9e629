/** The request pool of CurlThreads never gets stuck: from wherever a run has come to, the threads can finish
  every request without another call of AddCurl. */
module CurlProgress {
  import opened CurlThreads

  // ---- nothing that was registered is forgotten ----------------------------

  /** A request is in an adder's hands until it is pushed. */
  ghost predicate InHand(s: State, r: Request) {
    exists id :: Pending(s, id) && s.adders[id].r == r
  }

  ghost predicate NoneForgotten(s: State) {
    forall k :: 0 <= k < |s.registered| ==> s.registered[k] in s.added || InHand(s, s.registered[k])
  }

  lemma StaysInHand(s: State, e: Event, r: Request)
    requires Enabled(s, e) && (r in s.added || InHand(s, r))
    ensures r in Step(s, e).added || InHand(Step(s, e), r)
  {
    hide WorkStep, TickStep;
    var t := Step(s, e);
    if IsWorkerEvent(e) {
      WorkTouchesNoHistory(s, e);
    } else if IsTickEvent(e) {
      TickTouchesNoHistory(s, e);
    }
    if r !in s.added {
      var id :| Pending(s, id) && s.adders[id].r == r;
      if e.AdderPush? && e.id == id {
        assert t.added[|s.added|] == r;
      } else {
        assert Pending(t, id) && t.adders[id].r == r;
      }
    } else {
      assert forall x :: x in s.added ==> x in t.added;
    }
  }

  lemma RegisteredAfter(s: State, e: Event)
    requires Enabled(s, e)
    ensures !e.Register? ==> Step(s, e).registered == s.registered
    ensures e.Register? ==>
              var r := Request(|s.registered|, e.handle, e.callback);
              Step(s, e).registered == s.registered + [r] && InHand(Step(s, e), r)
  {
    hide WorkStep, TickStep;
    if IsWorkerEvent(e) {
      WorkTouchesNoHistory(s, e);
    } else if IsTickEvent(e) {
      TickTouchesNoHistory(s, e);
    } else if e.Register? {
      assert Pending(Step(s, e), e.id);
    }
  }

  lemma StepForgetsNone(s: State, e: Event)
    requires NoneForgotten(s) && Enabled(s, e)
    ensures NoneForgotten(Step(s, e))
  {
    hide Step, Enabled, InHand;
    RegisteredAfter(s, e);
    var t := Step(s, e);
    forall k | 0 <= k < |t.registered|
      ensures t.registered[k] in t.added || InHand(t, t.registered[k])
    {
      if k < |s.registered| { StaysInHand(s, e, s.registered[k]); }
    }
  }

  lemma {:induction false} RunForgetsNone(s: State, run: seq<Event>)
    requires NoneForgotten(s) && Possible(s, run)
    ensures NoneForgotten(After(s, run))
    decreases |run|
  {
    hide NoneForgotten, Step, Enabled;
    if run != [] {
      StepForgetsNone(s, run[0]);
      RunForgetsNone(Step(s, run[0]), run[1..]);
    }
  }

  // ---- one way on ----------------------------------------------------------

  function AtLocks(s: State): set<nat> {
    set id | id in s.adders && s.adders[id].AtLock?
  }

  /** All that was pushed is finished, and nobody has anything to do but wait. */
  predicate Quiet(s: State) {
    && s.adders == map[] && s.input == [] && s.output == [] && s.tick.Idle?
    && s.inputOwner.Free? && s.outputOwner.Free?
  }

  function WorkerNext(s: State, i: nat): Event
    requires i < |s.workers|
  {
    var pc := s.workers[i];
    if pc.Ready? then Wait(i)
    else if pc.Holding? then Take(i)
    else if pc.Performing? then Perform(i)
    else if pc.Pushing? then OutputPush(i)
    else if pc.Pushed? then OutputUnlock(i)
    else if s.outputOwner.Free? then OutputLock(i)
    else if s.tick.Copying? then TickCopy
    else TickUnlock
  }

  function TickNext(s: State): Event {
    match s.tick
    case Idle => TickStart
    case ToNotify => TickLock
    case Notifying => TickNotify
    case AtOutput => TickLook
    case ToTry => TickTry
    case Copying => TickCopy
    case Copied(_) => TickUnlock
    case Calling(_) => TickCall
    case Erasing(_, _) => TickErase
  }

  function FirstNext(s: State): Event
    requires s.workers != []
  {
    if s.workers[0].Starting? then Start(0) else if s.workers[0].Waiting? then Wake(0) else Relock(0)
  }

  /** A step that brings the work nearer to its end: by the holder of the input lock, else by the tick, else by
    an adder, else by the first worker if there is something to take, else the tick starts. */
  ghost function Next(s: State): Event
    requires s.workers != []
  {
    match s.inputOwner
    case ByWorker(i) => if i < |s.workers| then WorkerNext(s, i) else TickStart
    case ByAdder(id) => if id in s.adders && s.adders[id].Inside? then AdderPush(id) else AdderUnlock(id)
    case ByTick => TickNotify
    case Free =>
      if !s.tick.Idle? then TickNext(s)
      else if AtLocks(s) != {} then (var id :| id in AtLocks(s); AdderLock(id))
      else if s.input != [] then FirstNext(s)
      else TickStart
  }

  // ---- how much work is left -----------------------------------------------

  /** What the holder of the input lock has before it. */
  function HolderWork(s: State): nat {
    match s.inputOwner
    case Free => 0
    case ByTick => 0
    case ByAdder(id) => if id in s.adders && s.adders[id].Inside? then 70 else 1
    case ByWorker(i) =>
      if i >= |s.workers| then 0
      else
        match s.workers[i]
        case Ready => 1
        case Holding => 2
        case Performing(_) => 50
        case Performed(_) => 49
        case Pushing(_) => 48
        case Pushed => 4
        case _ => 0
  }

  /** What the first worker has before it, when there is something to take. */
  function FirstWork(s: State): nat {
    if s.input == [] || s.workers == [] then 0
    else
      match s.workers[0]
      case Starting => 8
      case Waiting => 4
      case Woken => 3
      case Holding => 0
      case _ => 5
  }

  function TickWork(s: State): nat {
    match s.tick
    case ToNotify => 8
    case Notifying => 7
    case AtOutput => 6
    case ToTry => 5
    case Copying => 4
    case Idle => if s.output == [] then 1 else 11
    case Calling(_) => if s.output == [] then 2 else 12
    case _ => if s.output == [] then 3 else 13
  }

  function Work(s: State): nat {
    100 * |AtLocks(s)| + 60 * |s.input| + 20 * |s.output| + 5 * |Batch(s)| + HolderWork(s) + FirstWork(s) + TickWork(s)
  }

  predicate Lessens(s: State, e: Event) {
    Enabled(s, e) && !e.Register? && Work(Step(s, e)) < Work(s) && |Step(s, e).workers| == |s.workers|
  }

  lemma WorkerLessens(s: State, i: nat)
    requires InputHeld(s) && OutputHeld(s) && s.inputOwner == ByWorker(i)
    ensures i < |s.workers| && Lessens(s, WorkerNext(s, i))
  {
    var e := WorkerNext(s, i);
    HolderIsEnabled(s, i);
    var t := Step(s, e);
    assert AtLocks(t) == AtLocks(s);
    hide AtLocks, Step, Enabled, InputHeld, OutputHeld;
    var pc := s.workers[i];
    if e.TickCopy? || e.TickUnlock? {
      TickLetsGo(s, e);
    } else if pc.Ready? || pc.Holding? {
      LoopLessens(s, i, e);
    } else {
      CarryLessens(s, i, e);
    }
  }

  lemma HolderIsEnabled(s: State, i: nat)
    requires InputHeld(s) && OutputHeld(s) && s.inputOwner == ByWorker(i)
    ensures i < |s.workers| && Enabled(s, WorkerNext(s, i)) && HoldsInput(s.workers[i])
    ensures WorkerNext(s, i).TickCopy? || WorkerNext(s, i).TickUnlock? || IsWorkerEvent(WorkerNext(s, i))
  {
  }

  /** The tick gives the output lock back. */
  lemma TickLetsGo(s: State, e: Event)
    requires Enabled(s, e) && (e.TickCopy? || e.TickUnlock?) && AtLocks(Step(s, e)) == AtLocks(s)
    ensures Lessens(s, e)
  {
    hide AtLocks;
  }

  lemma LoopLessens(s: State, i: nat, e: Event)
    requires Enabled(s, e) && AtLocks(Step(s, e)) == AtLocks(s) && s.inputOwner == ByWorker(i) && i < |s.workers|
    requires (s.workers[i].Ready? && e == Wait(i)) || (s.workers[i].Holding? && e == Take(i))
    ensures Lessens(s, e)
  {
    hide AtLocks, Batch;
    var t := Step(s, e);
    assert Batch(t) == Batch(s) by { BatchStays(s, t); }
  }

  lemma BatchStays(s: State, t: State)
    requires t.tick == s.tick
    ensures Batch(t) == Batch(s)
  {
  }

  lemma CarryLessens(s: State, i: nat, e: Event)
    requires Enabled(s, e) && AtLocks(Step(s, e)) == AtLocks(s) && s.inputOwner == ByWorker(i) && i < |s.workers|
    requires e == Perform(i) || e == OutputLock(i) || e == OutputPush(i) || e == OutputUnlock(i)
    ensures Lessens(s, e)
  {
    hide AtLocks, Batch;
    var t := Step(s, e);
    assert Batch(t) == Batch(s) by { BatchStays(s, t); }
  }

  lemma TickLessens(s: State)
    requires InputHeld(s) && OutputHeld(s)
    requires s.inputOwner.ByTick? || (s.inputOwner.Free? && (!s.tick.Idle? || (s.input == [] && s.output != [])))
    ensures Lessens(s, TickNext(s))
  {
    NoWorkerHolds(s);
    TickIsEnabled(s);
    hide InputHeld, OutputHeld, AtLocks, Enabled, Step;
    var e := TickNext(s);
    if e.TickCall? || e.TickErase? {
      CallLessens(s, e);
    } else if e.TickCopy? || e.TickUnlock? {
      SameAdders(s, e);
      TickLetsGo(s, e);
    } else {
      LookLessens(s, e);
    }
  }

  lemma TickIsEnabled(s: State)
    requires InputHeld(s) && OutputHeld(s) && !s.outputOwner.ByWorker?
    requires s.inputOwner.ByTick? || s.inputOwner.Free?
    ensures Enabled(s, TickNext(s)) && (s.tick.ToTry? ==> s.outputOwner.Free?)
    ensures s.tick.Idle? || s.tick.ToNotify? || s.tick.AtOutput? || s.tick.ToTry? ==> !s.inputOwner.ByTick?
    ensures s.tick.Notifying? <==> s.inputOwner.ByTick?
  {
  }

  lemma SameAdders(s: State, e: Event)
    requires Enabled(s, e) && IsTickEvent(e)
    ensures AtLocks(Step(s, e)) == AtLocks(s)
  {
    hide TickStep, Enabled;
    TickTouchesNoHistory(s, e);
  }

  lemma CallLessens(s: State, e: Event)
    requires Enabled(s, e) && (e.TickCall? || e.TickErase?)
    ensures Lessens(s, e)
  {
    SameAdders(s, e);
    hide AtLocks, HolderWork, FirstWork;
    var t := Step(s, e);
    assert t.inputOwner == s.inputOwner && t.workers == s.workers && t.adders == s.adders && t.input == s.input;
    SameHolder(s, t);
  }

  lemma SameHolder(s: State, t: State)
    requires t.inputOwner == s.inputOwner && t.workers == s.workers && t.adders == s.adders && t.input == s.input
    ensures HolderWork(t) == HolderWork(s) && FirstWork(t) == FirstWork(s)
  {
  }

  /** The steps that look for work, up to the output lock. */
  lemma LookLessens(s: State, e: Event)
    requires Enabled(s, e) && e == TickNext(s) && !e.TickCall? && !e.TickErase? && !e.TickCopy? && !e.TickUnlock?
    requires s.tick.Idle? ==> s.input == [] && s.output != [] && s.inputOwner.Free?
    requires s.tick.ToTry? ==> s.outputOwner.Free?
    requires s.tick.ToNotify? ==> s.inputOwner.Free?
    requires s.tick.Notifying? ==> s.inputOwner.ByTick?
    ensures Lessens(s, e)
  {
    SameAdders(s, e);
    hide AtLocks;
  }

  /** Who holds the output lock holds the input lock too, or is the tick. */
  lemma NoWorkerHolds(s: State)
    requires InputHeld(s) && OutputHeld(s) && !s.inputOwner.ByWorker?
    ensures !s.outputOwner.ByWorker?
  {
    assert forall i :: 0 <= i < |s.workers| && HoldsOutput(s.workers[i]) ==> HoldsInput(s.workers[i]);
  }

  lemma AdderLessens(s: State, id: nat)
    requires InputHeld(s) && OutputHeld(s) && s.inputOwner == ByAdder(id)
    ensures id in s.adders && Lessens(s, if s.adders[id].Inside? then AdderPush(id) else AdderUnlock(id))
  {
    var e := if s.adders[id].Inside? then AdderPush(id) else AdderUnlock(id);
    assert Enabled(s, e);
    var t := Step(s, e);
    assert AtLocks(t) == AtLocks(s);
  }

  lemma LockLessens(s: State, id: nat)
    requires InputHeld(s) && s.inputOwner.Free? && id in AtLocks(s)
    ensures Lessens(s, AdderLock(id))
  {
    var t := Step(s, AdderLock(id));
    assert AtLocks(t) == AtLocks(s) - {id};
  }

  lemma FirstLessens(s: State)
    requires InputHeld(s) && s.inputOwner.Free? && s.input != [] && s.workers != []
    ensures Lessens(s, FirstNext(s))
  {
    var e := FirstNext(s);
    assert !HoldsInput(s.workers[0]) && Enabled(s, e);
    var t := Step(s, e);
    assert AtLocks(t) == AtLocks(s);
  }

  /** As long as there is anything left to do, that step can be taken and lessens the work. */
  lemma NextLessens(s: State)
    requires InputHeld(s) && OutputHeld(s) && s.workers != [] && !Quiet(s)
    ensures Lessens(s, Next(s))
  {
    hide Lessens, InputHeld, OutputHeld;
    match s.inputOwner {
      case ByWorker(i) => WorkerLessens(s, i);
      case ByAdder(id) => AdderLessens(s, id);
      case ByTick =>
        TickIsNotifying(s);
        TickLessens(s);
      case Free =>
        if !s.tick.Idle? {
          TickLessens(s);
        } else if AtLocks(s) != {} {
          forall id | id in AtLocks(s)
            ensures Lessens(s, AdderLock(id))
          {
            LockLessens(s, id);
          }
        } else if s.input != [] {
          FirstLessens(s);
        } else {
          NoneAdding(s);
          TickLessens(s);
        }
    }
  }

  lemma TickIsNotifying(s: State)
    requires InputHeld(s) && s.inputOwner.ByTick?
    ensures s.tick.Notifying?
  {
  }

  lemma NoneAdding(s: State)
    requires InputHeld(s) && OutputHeld(s) && s.inputOwner.Free? && s.tick.Idle? && AtLocks(s) == {}
    ensures s.adders == map[] && s.outputOwner.Free?
  {
    NoWorkerHolds(s);
    assert forall id :: id in s.adders ==> id in AtLocks(s);
  }

  // ---- every request can be finished ---------------------------------------

  predicate AddsNothing(run: seq<Event>) {
    forall i :: 0 <= i < |run| ==> !run[i].Register?
  }

  lemma {:induction false} Drains(s: State) returns (run: seq<Event>)
    requires Invariant(s) && NoneForgotten(s) && s.workers != []
    ensures Possible(s, run) && AddsNothing(run)
    ensures var t := After(s, run); Quiet(t) && Invariant(t) && NoneForgotten(t) && t.registered == s.registered
    decreases Work(s)
  {
    hide *;
    if Quiet(s) {
      run := [];
      NoSteps(s);
    } else {
      Held(s);
      NextLessens(s);
      var e := Next(s);
      LessensIs(s, e);
      StepKeepsInvariant(s, e);
      StepForgetsNone(s, e);
      RegisteredAfter(s, e);
      var rest := Drains(Step(s, e));
      run := [e] + rest;
      FirstStep(s, e, rest);
    }
  }

  lemma Held(s: State)
    requires Invariant(s)
    ensures InputHeld(s) && OutputHeld(s)
  {
  }

  lemma NoSteps(s: State)
    ensures Possible(s, []) && After(s, []) == s && AddsNothing([])
  {
  }

  lemma LessensIs(s: State, e: Event)
    requires Lessens(s, e)
    ensures Enabled(s, e) && !e.Register? && Work(Step(s, e)) < Work(s) && |Step(s, e).workers| == |s.workers|
  {
  }

  lemma FirstStep(s: State, e: Event, rest: seq<Event>)
    requires Enabled(s, e) && !e.Register? && Possible(Step(s, e), rest) && AddsNothing(rest)
    ensures Possible(s, [e] + rest) && AddsNothing([e] + rest) && After(s, [e] + rest) == After(Step(s, e), rest)
  {
    hide Step, Enabled;
    assert ([e] + rest)[1..] == rest;
  }

  /** Wherever a run has come to, the threads can go on, without another AddCurl, until every request registered
    is finished and all are at rest. */
  lemma CanFinish(threads: nat, run: seq<Event>) returns (more: seq<Event>)
    requires threads > 0 && Possible(Init(threads), run)
    ensures var s := After(Init(threads), run);
            && Possible(s, more) && AddsNothing(more)
            && var t := After(s, more);
               && Quiet(t) && t.registered == s.registered && t.finished == t.added
               && forall k :: 0 <= k < |t.registered| ==> t.registered[k] in t.finished
  {
    var s := After(Init(threads), run);
    InitInvariant(threads);
    RunKeepsInvariant(Init(threads), run);
    RunForgetsNone(Init(threads), run);
    RunKeepsWorkers(Init(threads), run);
    hide Possible, After, Init, Invariant, NoneForgotten, Quiet;
    more := Drains(s);
    QuietIsFinished(After(s, more));
  }

  lemma {:induction false} RunKeepsWorkers(s: State, run: seq<Event>)
    requires InputHeld(s) && OutputHeld(s) && Possible(s, run)
    ensures |After(s, run).workers| == |s.workers|
    decreases |run|
  {
    hide InputHeld, OutputHeld;
    if run != [] {
      var e := run[0];
      if IsWorkerEvent(e) {
        WorkKeepsInputHeld(s, e);
        WorkKeepsOutputHeld(s, e);
      } else if IsTickEvent(e) {
        TickKeepsHeld(s, e);
      } else {
        AddKeepsHeld(s, e);
      }
      RunKeepsWorkers(Step(s, e), run[1..]);
    }
  }

  lemma QuietIsFinished(s: State)
    requires Quiet(s) && Invariant(s) && NoneForgotten(s)
    ensures s.finished == s.added && forall k :: 0 <= k < |s.registered| ==> s.registered[k] in s.finished
  {
    assert Batch(s) == [] && InFlight(s) == [];
    assert s.finished + [] + [] + [] + [] == s.finished;
    forall r
      ensures !InHand(s, r)
    {
    }
  }
}
