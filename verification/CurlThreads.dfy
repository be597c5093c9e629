/** The request pool of dev/lsf/asio/curl_thread.hpp as an interleaving of atomic steps: threads that
  add requests, worker threads that perform them, and the tick of the main loop that runs callbacks,
  over two lists, two mutexes and a condition variable. */
module CurlThreads {

  /** One call of AddCurl; tickets number the calls.  callback is false for a null handler. */
  datatype Request = Request(ticket: nat, handle: int, callback: bool)

  datatype Owner = Free | ByWorker(i: nat) | ByAdder(id: nat) | ByTick

  /** A worker: not started; holding the input lock before wait; in wait; woken and waiting for the
    lock; holding it after wait; performing; about to lock the output; holding both locks; pushed. */
  datatype WorkerPc = Starting | Ready | Waiting | Woken | Holding
    | Performing(r: Request) | Performed(r: Request) | Pushing(r: Request) | Pushed

  /** An adder: callback registered, input not locked; locked; pushed and still locked. */
  datatype AdderPc = AtLock(r: Request) | Inside(r: Request) | Leaving

  datatype TickPc = Idle | ToNotify | Notifying | AtOutput | ToTry | Copying | Copied(batch: seq<Request>)
    | Calling(batch: seq<Request>) | Erasing(handle: int, batch: seq<Request>)

  datatype State = State(
    workers: seq<WorkerPc>, adders: map<nat, AdderPc>, tick: TickPc,
    inputOwner: Owner, outputOwner: Owner,
    input: seq<Request>, output: seq<Request>, funcMap: map<int, Request>,
    // history: calls of AddCurl, requests pushed, requests the tick is done with, callbacks run
    registered: seq<Request>, added: seq<Request>, finished: seq<Request>, ran: seq<Request>)

  function Init(threads: nat): State {
    State(seq(threads, _ => Starting), map[], Idle, Free, Free, [], [], map[], [], [], [], [])
  }

  datatype Event =
    | Register(id: nat, handle: int, callback: bool) | AdderLock(id: nat) | AdderPush(id: nat) | AdderUnlock(id: nat)
    | Start(i: nat) | Wait(i: nat) | Wake(i: nat) | Relock(i: nat) | Take(i: nat) | Perform(i: nat)
    | OutputLock(i: nat) | OutputPush(i: nat) | OutputUnlock(i: nat)
    | TickStart | TickLock | TickNotify | TickLook | TickTry | TickCopy | TickUnlock | TickCall | TickErase

  predicate WorkerAt(s: State, i: nat, pc: WorkerPc) {
    i < |s.workers| && s.workers[i] == pc
  }

  predicate Enabled(s: State, e: Event) {
    match e
    case Register(id, handle, callback) => id !in s.adders
    case AdderLock(id) => id in s.adders && s.adders[id].AtLock? && s.inputOwner.Free?
    case AdderPush(id) => id in s.adders && s.adders[id].Inside?
    case AdderUnlock(id) => id in s.adders && s.adders[id].Leaving?
    case Start(i) => WorkerAt(s, i, Starting) && s.inputOwner.Free?
    case Wait(i) => WorkerAt(s, i, Ready)
    case Wake(i) => WorkerAt(s, i, Waiting)
    case Relock(i) => WorkerAt(s, i, Woken) && s.inputOwner.Free?
    case Take(i) => WorkerAt(s, i, Holding)
    case Perform(i) => i < |s.workers| && s.workers[i].Performing?
    case OutputLock(i) => i < |s.workers| && s.workers[i].Performed? && s.outputOwner.Free?
    case OutputPush(i) => i < |s.workers| && s.workers[i].Pushing?
    case OutputUnlock(i) => WorkerAt(s, i, Pushed)
    case TickStart => s.tick.Idle?
    case TickLock => s.tick.ToNotify? && s.inputOwner.Free?
    case TickNotify => s.tick.Notifying?
    case TickLook => s.tick.AtOutput?
    case TickTry => s.tick.ToTry?
    case TickCopy => s.tick.Copying?
    case TickUnlock => s.tick.Copied?
    case TickCall => s.tick.Calling?
    case TickErase => s.tick.Erasing?
  }

  function At(s: State, i: nat, pc: WorkerPc): State
    requires i < |s.workers|
  {
    s.(workers := s.workers[i := pc])
  }

  function AddStep(s: State, e: Event): State
    requires Enabled(s, e) && (e.Register? || e.AdderLock? || e.AdderPush? || e.AdderUnlock?)
  {
    match e
    case Register(id, handle, callback) =>
      var r := Request(|s.registered|, handle, callback);
      s.(adders := s.adders[id := AtLock(r)], funcMap := s.funcMap[handle := r], registered := s.registered + [r])
    case AdderLock(id) => s.(adders := s.adders[id := Inside(s.adders[id].r)], inputOwner := ByAdder(id))
    case AdderPush(id) =>
      var r := s.adders[id].r;
      s.(adders := s.adders[id := Leaving], input := s.input + [r], added := s.added + [r])
    case AdderUnlock(id) => s.(adders := s.adders - {id}, inputOwner := Free)
  }

  predicate IsWorkerEvent(e: Event) {
    || e.Start? || e.Wait? || e.Wake? || e.Relock? || e.Take? || e.Perform?
    || e.OutputLock? || e.OutputPush? || e.OutputUnlock?
  }

  function WorkStep(s: State, e: Event): State
    requires Enabled(s, e) && IsWorkerEvent(e)
  {
    match e
    case Start(i) => At(s, i, Ready).(inputOwner := ByWorker(i))
    case Wait(i) => At(s, i, Waiting).(inputOwner := Free)
    case Wake(i) => At(s, i, Woken)
    case Relock(i) => At(s, i, Holding).(inputOwner := ByWorker(i))
    case Take(i) => if s.input == [] then At(s, i, Ready) else At(s, i, Performing(s.input[0])).(input := s.input[1..])
    case Perform(i) => At(s, i, Performed(s.workers[i].r))
    case OutputLock(i) => At(s, i, Pushing(s.workers[i].r)).(outputOwner := ByWorker(i))
    case OutputPush(i) => At(s, i, Pushed).(output := s.output + [s.workers[i].r])
    case OutputUnlock(i) => At(s, i, Ready).(outputOwner := Free)
  }

  predicate IsTickEvent(e: Event) {
    || e.TickStart? || e.TickLock? || e.TickNotify? || e.TickLook? || e.TickTry? || e.TickCopy?
    || e.TickUnlock? || e.TickCall? || e.TickErase?
  }

  /** Whether a notification reaches a waiting worker or the worker wakes by itself, it may wake at any time. */
  function TickStep(s: State, e: Event): State
    requires Enabled(s, e) && IsTickEvent(e)
  {
    match e
    case TickStart => s.(tick := if s.input == [] then AtOutput else ToNotify)
    case TickLock => s.(tick := Notifying, inputOwner := ByTick)
    case TickNotify => s.(tick := AtOutput, inputOwner := Free)
    case TickLook => s.(tick := if s.output == [] then Idle else ToTry)
    case TickTry => if s.outputOwner.Free? then s.(tick := Copying, outputOwner := ByTick) else s.(tick := Idle)
    case TickCopy => s.(tick := Copied(s.output), output := [])
    case TickUnlock => s.(tick := Calling(s.tick.batch), outputOwner := Free)
    case TickCall =>
      var batch := s.tick.batch;
      if batch == [] then s.(tick := Idle)
      else
        var h := batch[0].handle;
        if h !in s.funcMap then s.(tick := Calling(batch[1..]), finished := s.finished + [batch[0]])
        else
          s.(tick := Erasing(h, batch[1..]), finished := s.finished + [batch[0]],
             ran := if s.funcMap[h].callback then s.ran + [s.funcMap[h]] else s.ran)
    case TickErase => s.(tick := Calling(s.tick.batch), funcMap := s.funcMap - {s.tick.handle})
  }

  function Step(s: State, e: Event): State
    requires Enabled(s, e)
  {
    if IsWorkerEvent(e) then WorkStep(s, e) else if IsTickEvent(e) then TickStep(s, e) else AddStep(s, e)
  }

  /** Every step of the run can be taken when its turn comes. */
  predicate Possible(s: State, run: seq<Event>)
    decreases |run|
  {
    run == [] || (Enabled(s, run[0]) && Possible(Step(s, run[0]), run[1..]))
  }

  function After(s: State, run: seq<Event>): State
    requires Possible(s, run)
    decreases |run|
  {
    if run == [] then s else After(Step(s, run[0]), run[1..])
  }

  // ---- who holds what ------------------------------------------------------

  predicate HoldsInput(pc: WorkerPc) {
    !pc.Starting? && !pc.Waiting? && !pc.Woken?
  }

  predicate HoldsOutput(pc: WorkerPc) {
    pc.Pushing? || pc.Pushed?
  }

  /** The input mutex is held by whoever is at a step where it must be. */
  ghost predicate InputHeld(s: State) {
    && (forall i :: 0 <= i < |s.workers| ==> (HoldsInput(s.workers[i]) <==> s.inputOwner == ByWorker(i)))
    && (forall id :: id in s.adders ==> (!s.adders[id].AtLock? <==> s.inputOwner == ByAdder(id)))
    && (s.tick.Notifying? <==> s.inputOwner.ByTick?)
    && (s.inputOwner.ByWorker? ==> s.inputOwner.i < |s.workers|)
    && (s.inputOwner.ByAdder? ==> s.inputOwner.id in s.adders)
  }

  ghost predicate OutputHeld(s: State) {
    && (forall i :: 0 <= i < |s.workers| ==> (HoldsOutput(s.workers[i]) <==> s.outputOwner == ByWorker(i)))
    && (s.tick.Copying? || s.tick.Copied? <==> s.outputOwner.ByTick?)
    && !s.outputOwner.ByAdder?
    && (s.outputOwner.ByWorker? ==> s.outputOwner.i < |s.workers|)
  }

  lemma WorkKeepsInputHeld(s: State, e: Event)
    requires InputHeld(s) && Enabled(s, e) && IsWorkerEvent(e)
    ensures InputHeld(WorkStep(s, e))
  {
  }

  lemma WorkKeepsOutputHeld(s: State, e: Event)
    requires OutputHeld(s) && Enabled(s, e) && IsWorkerEvent(e)
    ensures OutputHeld(WorkStep(s, e))
  {
  }

  lemma TickKeepsHeld(s: State, e: Event)
    requires InputHeld(s) && OutputHeld(s) && Enabled(s, e) && IsTickEvent(e)
    ensures InputHeld(TickStep(s, e)) && OutputHeld(TickStep(s, e))
  {
    var t := TickStep(s, e);
    assert t.workers == s.workers && t.adders == s.adders;
  }

  lemma AddKeepsHeld(s: State, e: Event)
    requires InputHeld(s) && OutputHeld(s) && Enabled(s, e) && !IsWorkerEvent(e) && !IsTickEvent(e)
    ensures InputHeld(AddStep(s, e)) && OutputHeld(AddStep(s, e))
  {
    var t := AddStep(s, e);
    assert t.workers == s.workers && t.tick == s.tick && t.outputOwner == s.outputOwner;
  }

  // ---- where requests are --------------------------------------------------

  function InFlight(s: State): (r: seq<Request>) {
    if s.inputOwner.ByWorker? && s.inputOwner.i < |s.workers| then
      var pc := s.workers[s.inputOwner.i];
      if pc.Performing? || pc.Performed? || pc.Pushing? then [pc.r] else []
    else []
  }

  function Batch(s: State): seq<Request> {
    if s.tick.Copied? || s.tick.Calling? || s.tick.Erasing? then s.tick.batch else []
  }

  /** Every request pushed is in exactly one place, and the places are in the order of pushing. */
  ghost predicate Conserved(s: State) {
    s.added == s.finished + Batch(s) + s.output + InFlight(s) + s.input
  }

  /** A worker moves one request from the input list into its hands, and from there to the output list. */
  lemma WorkMovesRequests(s: State, e: Event)
    requires InputHeld(s) && Enabled(s, e) && IsWorkerEvent(e)
    ensures var t := WorkStep(s, e); t.output + InFlight(t) + t.input == s.output + InFlight(s) + s.input
  {
    var t := WorkStep(s, e);
    if e.Take? && s.input != [] {
      assert InFlight(s) == [] && InFlight(t) == [s.input[0]] && t.output == s.output;
      assert s.input == [s.input[0]] + s.input[1..];
    } else if e.OutputPush? {
      assert InFlight(s) == [s.workers[e.i].r] && InFlight(t) == [];
    } else {
      assert t.output == s.output && t.input == s.input && InFlight(t) == InFlight(s);
    }
  }

  lemma Grouped(done: seq<Request>, a: seq<Request>, b: seq<Request>, c: seq<Request>)
    ensures done + a + b + c == done + (a + b + c)
  {
  }

  lemma WorkConserves(s: State, e: Event)
    requires InputHeld(s) && Conserved(s) && Enabled(s, e) && IsWorkerEvent(e)
    ensures Conserved(WorkStep(s, e))
  {
    var t := WorkStep(s, e);
    WorkMovesRequests(s, e);
    WorkTouchesNoHistory(s, e);
    hide WorkStep, Enabled, InputHeld, InFlight;
    Grouped(s.finished + Batch(s), s.output, InFlight(s), s.input);
    Grouped(t.finished + Batch(t), t.output, InFlight(t), t.input);
  }

  /** The tick moves requests from the output list to its batch and from there to those finished. */
  lemma TickMovesRequests(s: State, e: Event)
    requires Enabled(s, e) && IsTickEvent(e)
    ensures var t := TickStep(s, e);
            && t.added == s.added && t.input == s.input
            && t.finished + Batch(t) + t.output == s.finished + Batch(s) + s.output
  {
    var t := TickStep(s, e);
    if e.TickCall? && s.tick.batch != [] {
      assert s.tick.batch == [s.tick.batch[0]] + s.tick.batch[1..];
      assert t.finished + Batch(t) == s.finished + Batch(s);
    } else if e.TickCopy? {
      assert s.finished + [] + s.output == s.finished + s.output + [];
    }
  }

  lemma TickTouchesNoWorker(s: State, e: Event)
    requires InputHeld(s) && Enabled(s, e) && IsTickEvent(e)
    ensures InFlight(TickStep(s, e)) == InFlight(s)
  {
  }

  lemma TickConserves(s: State, e: Event)
    requires InputHeld(s) && Conserved(s) && Enabled(s, e) && IsTickEvent(e)
    ensures Conserved(TickStep(s, e))
  {
    hide InputHeld, TickStep, Enabled, Batch, InFlight;
    TickMovesRequests(s, e);
    TickTouchesNoWorker(s, e);
  }

  lemma AddConserves(s: State, e: Event)
    requires InputHeld(s) && Conserved(s) && Enabled(s, e) && !IsWorkerEvent(e) && !IsTickEvent(e)
    ensures Conserved(AddStep(s, e))
  {
    var t := AddStep(s, e);
    if e.AdderPush? {
      var before := s.finished + Batch(s) + s.output + InFlight(s);
      assert before + (s.input + [s.adders[e.id].r]) == before + s.input + [s.adders[e.id].r];
    }
  }

  // ---- which callbacks run -------------------------------------------------

  predicate Known(s: State, r: Request) {
    r.ticket < |s.registered| && s.registered[r.ticket] == r
  }

  predicate Pending(s: State, id: nat) {
    id in s.adders && !s.adders[id].Leaving?
  }

  /** Tickets tell requests apart: those pushed, and those on their way to the input list. */
  ghost predicate Tickets(s: State) {
    && (forall k :: 0 <= k < |s.registered| ==> s.registered[k].ticket == k)
    && (forall k :: 0 <= k < |s.added| ==> Known(s, s.added[k]))
    && (forall id :: Pending(s, id) ==> Known(s, s.adders[id].r))
    && (forall j, k :: 0 <= j < k < |s.added| ==> s.added[j] != s.added[k])
    && (forall id, k :: Pending(s, id) && 0 <= k < |s.added| ==> s.adders[id].r != s.added[k])
    && (forall id, jd :: Pending(s, id) && Pending(s, jd) && id != jd ==> s.adders[id].r != s.adders[jd].r)
  }

  /** No callback has run twice, and one that has run is out of the map or about to be erased. */
  ghost predicate Once(s: State) {
    && (forall j, k :: 0 <= j < k < |s.ran| ==> s.ran[j] != s.ran[k])
    && (forall k :: 0 <= k < |s.ran| ==> Known(s, s.ran[k]))
    && (forall h :: h in s.funcMap ==> Known(s, s.funcMap[h]) && s.funcMap[h].handle == h)
    && (forall h :: h in s.funcMap && s.tick != Erasing(h, Batch(s)) ==> s.funcMap[h] !in s.ran)
  }

  function WithCallback(rs: seq<Request>): seq<Request> {
    if rs == [] then []
    else
      var last := rs[|rs| - 1];
      WithCallback(rs[..|rs| - 1]) + (if last.callback then [last] else [])
  }

  predicate Mapped(s: State, r: Request) {
    r.handle in s.funcMap && s.funcMap[r.handle] == r
  }

  /** A handle is added only while it has no callback in the map. */
  predicate FreshAdd(s: State, e: Event) {
    e.Register? ==> e.handle !in s.funcMap
  }

  /** Every AddCurl of the run finds its handle without a callback in the map. */
  predicate FreshAdds(s: State, run: seq<Event>)
    requires Possible(s, run)
    decreases |run|
  {
    run == [] || (FreshAdd(s, run[0]) && FreshAdds(Step(s, run[0]), run[1..]))
  }

  /** While every add is fresh, the callbacks run are those of the requests finished, in their
    order, and every other request still has its callback in the map. */
  ghost predicate Ordered(s: State) {
    && |s.finished| <= |s.added|
    && s.ran == WithCallback(s.finished)
    && (forall k :: |s.finished| <= k < |s.added| ==> Mapped(s, s.added[k]))
    && (forall id :: Pending(s, id) ==> Mapped(s, s.adders[id].r))
    && (s.tick.Erasing? ==> 
          && 0 < |s.finished|
          && s.tick.handle == s.added[|s.finished| - 1].handle
          && Mapped(s, s.added[|s.finished| - 1]))
  }

  lemma NextToFinish(s: State)
    requires Conserved(s) && Batch(s) != []
    ensures |s.finished| < |s.added| && s.added[|s.finished|] == Batch(s)[0]
  {
  }

  lemma WorkTouchesNoHistory(s: State, e: Event)
    requires Enabled(s, e) && IsWorkerEvent(e)
    ensures var t := WorkStep(s, e);
            && t.adders == s.adders && t.tick == s.tick && t.funcMap == s.funcMap
            && t.registered == s.registered && t.added == s.added && t.finished == s.finished && t.ran == s.ran
  {
  }

  lemma WorkKeepsHistory(s: State, e: Event)
    requires Tickets(s) && Once(s) && Enabled(s, e) && IsWorkerEvent(e)
    ensures var t := WorkStep(s, e); Tickets(t) && Once(t) && (Ordered(s) ==> Ordered(t))
  {
    hide WorkStep, Enabled;
    WorkTouchesNoHistory(s, e);
  }

  lemma RegisterKeepsTickets(s: State, e: Event)
    requires Tickets(s) && Enabled(s, e) && e.Register?
    ensures Tickets(AddStep(s, e))
  {
    var t := AddStep(s, e);
    var r := t.registered[|s.registered|];
    assert forall a :: Known(s, a) ==> Known(t, a) && a != r;
    assert t.adders[e.id] == AtLock(r) && Known(t, r);
    assert forall id :: Pending(t, id) && id != e.id ==> Pending(s, id) && t.adders[id] == s.adders[id];
  }

  lemma AddKeepsTickets(s: State, e: Event)
    requires Tickets(s) && Enabled(s, e) && !IsWorkerEvent(e) && !IsTickEvent(e)
    ensures Tickets(AddStep(s, e))
  {
    if e.Register? {
      RegisterKeepsTickets(s, e);
    } else {
      var t := AddStep(s, e);
      assert t.registered == s.registered && Pending(s, e.id) == !e.AdderUnlock?;
      assert forall id :: Pending(t, id) ==> Pending(s, id) && t.adders[id].r == s.adders[id].r;
    }
  }

  lemma AddKeepsOnce(s: State, e: Event)
    requires Once(s) && Enabled(s, e) && !IsWorkerEvent(e) && !IsTickEvent(e)
    ensures Once(AddStep(s, e))
  {
  }

  lemma RegisterKeepsOrdered(s: State, e: Event)
    requires Tickets(s) && Ordered(s) && Enabled(s, e) && e.Register? && FreshAdd(s, e)
    ensures Ordered(AddStep(s, e))
  {
    var t := AddStep(s, e);
    var r := t.registered[|s.registered|];
    assert forall a :: Mapped(s, a) ==> Mapped(t, a);
    assert t.adders[e.id] == AtLock(r);
    forall id | Pending(t, id)
      ensures Mapped(t, t.adders[id].r)
    {
      if id != e.id { assert Pending(s, id); }
    }
  }

  lemma AddKeepsOrdered(s: State, e: Event)
    requires Tickets(s) && Ordered(s) && Enabled(s, e) && !IsWorkerEvent(e) && !IsTickEvent(e) && FreshAdd(s, e)
    ensures Ordered(AddStep(s, e))
  {
    hide WithCallback;
    var t := AddStep(s, e);
    if e.Register? {
      RegisterKeepsOrdered(s, e);
    } else {
      assert forall id :: Pending(t, id) ==> Pending(s, id) && t.adders[id].r == s.adders[id].r;
      if e.AdderPush? { assert Pending(s, e.id); }
    }
  }

  lemma TickTouchesNoHistory(s: State, e: Event)
    requires Enabled(s, e) && IsTickEvent(e)
    ensures var t := TickStep(s, e);
            && t.adders == s.adders && t.registered == s.registered && t.added == s.added
            && (!e.TickErase? ==> t.funcMap == s.funcMap && !s.tick.Erasing?)
            && (!e.TickCall? ==> t.finished == s.finished && t.ran == s.ran && !t.tick.Erasing?)
  {
  }

  lemma TickKeepsTickets(s: State, e: Event)
    requires Tickets(s) && Enabled(s, e) && IsTickEvent(e)
    ensures Tickets(TickStep(s, e))
  {
    hide TickStep, Enabled;
    TickTouchesNoHistory(s, e);
  }

  lemma CallKeepsOnce(s: State)
    requires Once(s) && s.tick.Calling?
    ensures Once(TickStep(s, TickCall))
  {
    var t := TickStep(s, TickCall);
    assert t.registered == s.registered && t.funcMap == s.funcMap;
    if s.tick.batch != [] {
      var h := s.tick.batch[0].handle;
      if h in s.funcMap {
        assert t.tick == Erasing(h, Batch(t));
        assert forall g :: g in s.funcMap && g != h ==> s.funcMap[g] != s.funcMap[h];
      }
    }
  }

  lemma TickKeepsOnce(s: State, e: Event)
    requires Once(s) && Enabled(s, e) && IsTickEvent(e)
    ensures Once(TickStep(s, e))
  {
    TickTouchesNoHistory(s, e);
    if e.TickCall? {
      CallKeepsOnce(s);
    } else if e.TickErase? {
      assert s.tick == Erasing(s.tick.handle, Batch(s));
    } else {
      hide TickStep, Enabled;
    }
  }

  lemma CallsFirst(s: State, r: Request)
    requires s.tick.Calling? && s.tick.batch != [] && r == s.tick.batch[0]
    requires Mapped(s, r) && s.ran == WithCallback(s.finished)
    ensures var t := TickStep(s, TickCall);
            && t.finished == s.finished + [r] && t.ran == WithCallback(t.finished)
            && t.tick == Erasing(r.handle, s.tick.batch[1..])
            && t.added == s.added && t.adders == s.adders && t.funcMap == s.funcMap
  {
    assert (s.finished + [r])[..|s.finished|] == s.finished;
  }

  lemma CallKeepsOrdered(s: State)
    requires Conserved(s) && Ordered(s) && s.tick.Calling?
    ensures Ordered(TickStep(s, TickCall))
  {
    if s.tick.batch == [] {
      CallsNothing(s);
    } else {
      hide TickStep, WithCallback, Ordered, Conserved;
      NextToFinish(s);
      FirstIsMapped(s);
      CallsFirst(s, s.tick.batch[0]);
      FirstFinished(s, TickStep(s, TickCall));
    }
  }

  lemma FirstFinished(s: State, t: State)
    requires Ordered(s) && s.tick.Calling? && s.tick.batch != [] && Mapped(s, s.tick.batch[0])
    requires |s.finished| < |s.added| && s.added[|s.finished|] == s.tick.batch[0]
    requires t.finished == s.finished + [s.tick.batch[0]] && t.ran == WithCallback(t.finished)
    requires t.tick == Erasing(s.tick.batch[0].handle, s.tick.batch[1..])
    requires t.added == s.added && t.adders == s.adders && t.funcMap == s.funcMap
    ensures Ordered(t)
  {
    hide WithCallback;
  }

  lemma CallsNothing(s: State)
    requires Ordered(s) && s.tick.Calling? && s.tick.batch == []
    ensures Ordered(TickStep(s, TickCall))
  {
    hide WithCallback;
    var t := TickStep(s, TickCall);
    assert t == s.(tick := Idle);
    hide TickStep;
    assert forall r :: Mapped(s, r) ==> Mapped(t, r);
    assert forall id :: Pending(t, id) ==> Pending(s, id);
  }

  lemma FirstIsMapped(s: State)
    requires Ordered(s) && |s.finished| < |s.added| && s.tick.Calling? && s.tick.batch != []
    requires s.added[|s.finished|] == s.tick.batch[0]
    ensures Mapped(s, s.tick.batch[0]) && s.ran == WithCallback(s.finished)
  {
    hide WithCallback, Mapped;
  }

  /** Erasing the entry of one request leaves those of the others: each has its own handle. */
  lemma EraseKeepsOrdered(s: State)
    requires Tickets(s) && Ordered(s) && s.tick.Erasing?
    ensures Ordered(TickStep(s, TickErase))
  {
    hide WithCallback;
    var t := TickStep(s, TickErase);
    var r := s.added[|s.finished| - 1];
    assert forall a :: Mapped(s, a) && a != r ==> Mapped(t, a);
  }

  lemma TickKeepsOrdered(s: State, e: Event)
    requires Conserved(s) && Tickets(s) && Ordered(s) && Enabled(s, e) && IsTickEvent(e)
    ensures Ordered(TickStep(s, e))
  {
    hide Conserved, Tickets;
    if e.TickCall? {
      hide Ordered;
      CallKeepsOrdered(s);
    } else if e.TickErase? {
      hide Ordered;
      EraseKeepsOrdered(s);
    } else {
      TickTouchesNoHistory(s, e);
      hide TickStep, Enabled, WithCallback;
    }
  }

  // ---- which callbacks are lost --------------------------------------------

  /** The handles whose callback is in the map and has not run. */
  function Live(s: State): set<int> {
    set h | h in s.funcMap && s.funcMap[h].callback && !(s.tick.Erasing? && s.tick.handle == h)
  }

  /** The callbacks an add loses: the one it writes over, or its own when the entry is about to be erased. */
  function Loses(s: State, e: Event): nat {
    if !e.Register? then 0
    else if s.tick.Erasing? && s.tick.handle == e.handle then (if e.callback then 1 else 0)
    else if e.handle in s.funcMap && s.funcMap[e.handle].callback then 1
    else 0
  }

  function Lost(s: State, run: seq<Event>): nat
    requires Possible(s, run)
    decreases |run|
  {
    if run == [] then 0 else Loses(s, run[0]) + Lost(Step(s, run[0]), run[1..])
  }

  /** What has run, can run and was lost makes up the callbacks handed over. */
  ghost predicate Accounted(s: State, lost: nat) {
    |s.ran| + |Live(s)| + lost == |WithCallback(s.registered)|
  }

  lemma RegisterMovesLive(s: State, e: Event)
    requires Enabled(s, e) && e.Register?
    ensures var t := AddStep(s, e); var erasing := s.tick.Erasing? && s.tick.handle == e.handle;
            && Live(t) == (if e.callback && !erasing then Live(s) + {e.handle} else Live(s) - {e.handle})
            && (Loses(s, e) == if erasing then (if e.callback then 1 else 0) else if e.handle in Live(s) then 1 else 0)
            && (erasing ==> e.handle !in Live(s))
  {
  }

  lemma RegisterAccounts(s: State, e: Event)
    requires Enabled(s, e) && e.Register?
    ensures var t := AddStep(s, e);
            && t.ran == s.ran
            && |WithCallback(t.registered)| == |WithCallback(s.registered)| + (if e.callback then 1 else 0)
            && |Live(t)| + Loses(s, e) == |Live(s)| + (if e.callback then 1 else 0)
  {
    var t := AddStep(s, e);
    assert t.registered[..|s.registered|] == s.registered;
    assert t.registered[|s.registered|].callback == e.callback;
    hide WithCallback;
    RegisterMovesLive(s, e);
    hide AddStep, Live, Loses, Enabled;
    if e.handle in Live(s) {
      assert Live(s) + {e.handle} == Live(s);
    } else {
      assert Live(s) - {e.handle} == Live(s);
    }
  }

  lemma TickAccounts(s: State, e: Event)
    requires Enabled(s, e) && IsTickEvent(e)
    ensures var t := TickStep(s, e); |t.ran| + |Live(t)| == |s.ran| + |Live(s)|
  {
    var t := TickStep(s, e);
    if e.TickCall? && t.tick.Erasing? {
      assert Live(t) == Live(s) - {t.tick.handle};
    } else {
      assert Live(t) == Live(s);
    }
  }

  lemma StepAccounts(s: State, e: Event, lost: nat)
    requires Enabled(s, e) && Accounted(s, lost)
    ensures Accounted(Step(s, e), lost + Loses(s, e))
  {
    hide WithCallback;
    if IsWorkerEvent(e) {
      WorkTouchesNoHistory(s, e);
      hide WorkStep, Enabled;
    } else if IsTickEvent(e) {
      TickTouchesNoHistory(s, e);
      TickAccounts(s, e);
      hide TickStep, Enabled, Live;
    } else if e.Register? {
      RegisterAccounts(s, e);
      hide AddStep, Live;
    }
  }

  lemma {:induction false} RunAccounts(s: State, run: seq<Event>, lost: nat)
    requires Possible(s, run) && Accounted(s, lost)
    ensures Accounted(After(s, run), lost + Lost(s, run))
    decreases |run|
  {
    hide Accounted, Step, Enabled, Loses;
    if run != [] {
      StepAccounts(s, run[0], lost);
      RunAccounts(Step(s, run[0]), run[1..], lost + Loses(s, run[0]));
    }
  }

  // ---- every run -----------------------------------------------------------

  ghost predicate Invariant(s: State) {
    InputHeld(s) && OutputHeld(s) && Conserved(s) && Tickets(s) && Once(s)
  }

  lemma InitInvariant(threads: nat)
    ensures Invariant(Init(threads)) && Ordered(Init(threads)) && Accounted(Init(threads), 0)
  {
  }

  lemma StepKeepsInvariant(s: State, e: Event)
    requires Invariant(s) && Enabled(s, e)
    ensures Invariant(Step(s, e))
    ensures Ordered(s) && FreshAdd(s, e) ==> Ordered(Step(s, e))
  {
    hide InputHeld, OutputHeld, Conserved, Tickets, Once, Ordered, FreshAdd, WorkStep, TickStep, AddStep, Enabled;
    if IsWorkerEvent(e) {
      WorkKeepsInputHeld(s, e);
      WorkKeepsOutputHeld(s, e);
      WorkConserves(s, e);
      WorkKeepsHistory(s, e);
    } else if IsTickEvent(e) {
      TickKeepsHeld(s, e);
      TickConserves(s, e);
      TickKeepsTickets(s, e);
      TickKeepsOnce(s, e);
      if Ordered(s) { TickKeepsOrdered(s, e); }
    } else {
      AddKeepsHeld(s, e);
      AddConserves(s, e);
      AddKeepsTickets(s, e);
      AddKeepsOnce(s, e);
      if Ordered(s) && FreshAdd(s, e) { AddKeepsOrdered(s, e); }
    }
  }

  lemma {:induction false} RunKeepsInvariant(s: State, run: seq<Event>)
    requires Invariant(s) && Possible(s, run)
    ensures Invariant(After(s, run))
    ensures Ordered(s) && FreshAdds(s, run) ==> Ordered(After(s, run))
    decreases |run|
  {
    hide Invariant, Ordered, FreshAdd, Step, Enabled;
    if run != [] {
      StepKeepsInvariant(s, run[0]);
      RunKeepsInvariant(Step(s, run[0]), run[1..]);
    }
  }

  predicate Busy(pc: WorkerPc) {
    pc.Performing? || pc.Performed? || pc.Pushing?
  }

  /** Under every interleaving at most one worker performs a request, or has one not yet pushed. */
  lemma OnePerforms(threads: nat, run: seq<Event>, i: nat, j: nat)
    requires Possible(Init(threads), run)
    requires var s := After(Init(threads), run);
             i < |s.workers| && j < |s.workers| && Busy(s.workers[i]) && Busy(s.workers[j])
    ensures i == j
  {
    hide Possible, After, Init;
    InitInvariant(threads);
    RunKeepsInvariant(Init(threads), run);
  }

  /** Under every interleaving each request pushed is in exactly one place, in the order of pushing,
    and no callback runs twice.  While every add finds its handle without a callback in the map, the
    callbacks run are those of the requests finished, in the order of pushing, and every request
    still on its way has its own callback in the map. */
  lemma CallbacksOnceInOrder(threads: nat, run: seq<Event>)
    requires Possible(Init(threads), run)
    ensures var s := After(Init(threads), run);
            && s.added == s.finished + Batch(s) + s.output + InFlight(s) + s.input
            && |InFlight(s)| <= 1
            && (forall j, k :: 0 <= j < k < |s.added| ==> s.added[j] != s.added[k])
            && (forall j, k :: 0 <= j < k < |s.ran| ==> s.ran[j] != s.ran[k])
    ensures FreshAdds(Init(threads), run) ==>
              var s := After(Init(threads), run);
              && |s.finished| <= |s.added|
              && s.ran == WithCallback(s.added[..|s.finished|])
              && (forall k :: |s.finished| <= k < |s.added| ==> Mapped(s, s.added[k]))
              && (forall id :: Pending(s, id) ==> Mapped(s, s.adders[id].r))
  {
    hide Possible, After, Init, WithCallback, Step, FreshAdds, InputHeld, OutputHeld;
    InitInvariant(threads);
    RunKeepsInvariant(Init(threads), run);
    var s := After(Init(threads), run);
    assert s.added[..|s.finished|] == s.finished;
  }

  /** Under every interleaving a callback handed over has run, is in the map still to run, or is one
    of those lost by adding its handle again: none is lost exactly when no add loses one. */
  lemma CallbacksLost(threads: nat, run: seq<Event>)
    requires Possible(Init(threads), run)
    ensures var s := After(Init(threads), run);
            |s.ran| + |Live(s)| + Lost(Init(threads), run) == |WithCallback(s.registered)|
  {
    hide Possible, After, Init, WithCallback, Step, Lost, Live;
    InitInvariant(threads);
    RunAccounts(Init(threads), run, 0);
  }

  lemma {:induction false} AllCounted(rs: seq<Request>)
    requires forall k :: 0 <= k < |rs| ==> rs[k].callback
    ensures WithCallback(rs) == rs
  {
    if rs != [] {
      AllCounted(rs[..|rs| - 1]);
      assert rs == rs[..|rs| - 1] + [rs[|rs| - 1]];
    }
  }

  lemma RegisteredGrows(s: State, e: Event)
    requires Enabled(s, e)
    ensures s.registered <= Step(s, e).registered
  {
  }

  lemma {:induction false} RunGrows(s: State, run: seq<Event>)
    requires Possible(s, run)
    ensures s.registered <= After(s, run).registered
    decreases |run|
  {
    if run != [] {
      RegisteredGrows(s, run[0]);
      hide Step, Enabled;
      RunGrows(Step(s, run[0]), run[1..]);
    }
  }

  /** An add that is not fresh loses a callback, where no callback is null. */
  lemma StaleAddLoses(s: State, e: Event, later: seq<Request>)
    requires Once(s) && Enabled(s, e) && !FreshAdd(s, e)
    requires Step(s, e).registered <= later && forall k :: 0 <= k < |later| ==> later[k].callback
    ensures Loses(s, e) == 1
  {
    var t := Step(s, e);
    assert t.registered[|s.registered|].callback == e.callback;
    assert later[|s.registered|] == t.registered[|s.registered|];
    var entry := s.funcMap[e.handle];
    assert Known(s, entry);
    assert later[entry.ticket] == t.registered[entry.ticket];
  }

  lemma RunUnfolds(s: State, run: seq<Event>)
    requires Possible(s, run) && run != []
    ensures Enabled(s, run[0]) && Possible(Step(s, run[0]), run[1..])
    ensures After(s, run) == After(Step(s, run[0]), run[1..])
    ensures Lost(s, run) == Loses(s, run[0]) + Lost(Step(s, run[0]), run[1..])
    ensures FreshAdds(s, run) <==> FreshAdd(s, run[0]) && FreshAdds(Step(s, run[0]), run[1..])
  {
    hide Enabled, Step, Loses, FreshAdd;
  }

  lemma {:induction false} NoneLostIsFresh(s: State, run: seq<Event>, later: seq<Request>)
    requires Invariant(s) && Possible(s, run) && Lost(s, run) == 0
    requires After(s, run).registered == later && forall k :: 0 <= k < |later| ==> later[k].callback
    ensures FreshAdds(s, run)
    decreases |run|
  {
    if run != [] {
      RunUnfolds(s, run);
      var t := Step(s, run[0]);
      RunGrows(t, run[1..]);
      hide Possible, After, Lost, FreshAdds, Step, Enabled;
      hide Loses, FreshAdd, InputHeld, OutputHeld, Conserved, Tickets, Once;
      if !FreshAdd(s, run[0]) { StaleAddLoses(s, run[0], later); }
      StepKeepsInvariant(s, run[0]);
      NoneLostIsFresh(t, run[1..], later);
    }
  }

  /** Without null callbacks, no callback is lost exactly when every add of the run finds its handle
    without a callback in the map; and once every request is finished, that is also exactly when
    each ran once, in the order of the requests. */
  lemma InOrderExactly(threads: nat, run: seq<Event>)
    requires Possible(Init(threads), run)
    requires var s := After(Init(threads), run); forall k :: 0 <= k < |s.registered| ==> s.registered[k].callback
    ensures var s := After(Init(threads), run);
            && (|s.ran| + |Live(s)| == |s.registered| <==> FreshAdds(Init(threads), run))
            && (|s.finished| == |s.registered| ==> (s.ran == s.finished <==> FreshAdds(Init(threads), run)))
  {
    var s0, s := Init(threads), After(Init(threads), run);
    hide Possible, After, Init, WithCallback, Step, Lost, Live, FreshAdds, InputHeld, OutputHeld, Once, Conserved;
    InitInvariant(threads);
    RunKeepsInvariant(s0, run);
    RunAccounts(s0, run, 0);
    AllCounted(s.registered);
    if Lost(s0, run) == 0 { NoneLostIsFresh(s0, run, s.registered); }
    if FreshAdds(s0, run) {
      FreshLosesNothing(s0, run);
      FinishedHaveCallbacks(s);
      AllCounted(s.finished);
    }
  }

  lemma {:induction false} FreshLosesNothing(s: State, run: seq<Event>)
    requires Possible(s, run) && FreshAdds(s, run) && ErasingMapped(s)
    ensures Lost(s, run) == 0
    decreases |run|
  {
    if run != [] {
      ErasingStaysMapped(s, run[0]);
      hide Step, Enabled;
      FreshLosesNothing(Step(s, run[0]), run[1..]);
    }
  }

  lemma FinishedHaveCallbacks(s: State)
    requires Conserved(s) && Tickets(s)
    requires forall k :: 0 <= k < |s.registered| ==> s.registered[k].callback
    ensures forall k :: 0 <= k < |s.finished| ==> s.finished[k].callback
  {
    forall k | 0 <= k < |s.finished|
      ensures s.finished[k].callback
    {
      assert s.added[k] == s.finished[k] && Known(s, s.added[k]);
    }
  }

  predicate ErasingMapped(s: State) {
    s.tick.Erasing? ==> s.tick.handle in s.funcMap
  }

  lemma ErasingStaysMapped(s: State, e: Event)
    requires Enabled(s, e) && ErasingMapped(s)
    ensures ErasingMapped(Step(s, e))
  {
  }

  /** Adding a handle again while its callback is in the map: of the two, one never runs. */
  lemma ReaddLosesOne(threads: nat, h: int, run: seq<Event>)
    requires Possible(Init(threads), [Register(0, h, true), Register(1, h, true)] + run)
    ensures var adds := [Register(0, h, true), Register(1, h, true)];
            var s := After(Init(threads), adds + run);
            && !FreshAdds(Init(threads), adds + run)
            && |s.ran| + |Live(s)| < |WithCallback(s.registered)|
  {
    var adds := [Register(0, h, true), Register(1, h, true)];
    var s0 := Init(threads);
    var s1 := Step(s0, adds[0]);
    assert (adds + run)[1..] == [adds[1]] + run;
    assert ([adds[1]] + run)[1..] == run;
    assert Loses(s1, adds[1]) == 1 && !FreshAdd(s1, adds[1]);
    CallbacksLost(threads, adds + run);
  }

  /** A step of a thread that holds a mutex. */
  predicate ByHolder(s: State, e: Event) {
    if IsWorkerEvent(e) then s.inputOwner == ByWorker(e.i) || s.outputOwner == ByWorker(e.i)
    else if e.AdderPush? || e.AdderUnlock? then s.inputOwner == ByAdder(e.id)
    else if e.TickNotify? then s.inputOwner.ByTick?
    else (e.TickCopy? || e.TickUnlock?) && s.outputOwner.ByTick?
  }

  /** Whenever a mutex is held, a thread that holds one can take its next step: no two wait for each other. */
  lemma NoDeadlock(threads: nat, run: seq<Event>)
    requires Possible(Init(threads), run)
    ensures var s := After(Init(threads), run);
            !s.inputOwner.Free? || !s.outputOwner.Free? ==> exists e :: Enabled(s, e) && ByHolder(s, e)
  {
    hide Possible, After, Init;
    InitInvariant(threads);
    RunKeepsInvariant(Init(threads), run);
    HolderMoves(After(Init(threads), run));
  }

  lemma HolderMoves(s: State)
    requires InputHeld(s) && OutputHeld(s)
    ensures !s.inputOwner.Free? || !s.outputOwner.Free? ==> exists e :: Enabled(s, e) && ByHolder(s, e)
  {
    match s.outputOwner {
      case ByTick => Moves(s, if s.tick.Copying? then TickCopy else TickUnlock);
      case ByWorker(i) => Moves(s, if s.workers[i].Pushing? then OutputPush(i) else OutputUnlock(i));
      case _ => InputHolderMoves(s);
    }
  }

  lemma InputHolderMoves(s: State)
    requires InputHeld(s) && OutputHeld(s) && s.outputOwner.Free?
    ensures !s.inputOwner.Free? ==> exists e :: Enabled(s, e) && ByHolder(s, e)
  {
    match s.inputOwner {
      case Free =>
      case ByTick => Moves(s, TickNotify);
      case ByAdder(id) => Moves(s, if s.adders[id].Inside? then AdderPush(id) else AdderUnlock(id));
      case ByWorker(i) =>
        var pc := s.workers[i];
        Moves(s, if pc.Ready? then Wait(i)
                 else if pc.Holding? then Take(i)
                 else if pc.Performing? then Perform(i)
                 else OutputLock(i));
    }
  }

  lemma Moves(s: State, e: Event)
    requires Enabled(s, e) && ByHolder(s, e)
    ensures exists e :: Enabled(s, e) && ByHolder(s, e)
  {
  }
}
