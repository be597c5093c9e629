/** The methods of BasicHandler in dev/svr/common/basic_handler.cpp over the session they update in
  place, each proved to do what the function of SessionMachine says. */
module SessionHandler {
  import opened Common
  import opened SessionMachine
  import opened SessionReplies

  class Handler {
    /** What the derived class decides on the message at hand. */
    var hooks: Hooks
    var state: State
    var timer: Option<nat>
    var handles: seq<Handle>
    var index: nat
    var replied: bool
    var clientRequest: bool
    var serverRequest: bool
    var response: Response
    var clientError: Option<Error>
    var serverError: Option<Error>
    // the timer manager's and the session manager's part, and the messages sent
    var live: set<nat>
    var released: bool
    var log: seq<Sent>
    var obtained: seq<nat>

    function View(): Session
      reads this
    {
      Session(state, timer, handles, index, replied, clientRequest, serverRequest, response, clientError, serverError,
              live, released, log, obtained)
    }

    constructor (hooks: Hooks)
      ensures View() == New() && this.hooks == hooks
    {
      this.hooks := hooks;
      state, timer, handles, index, replied := ClientRequest, None, [], 0, false;
      clientRequest, serverRequest, response := false, false, Response(OtherServer, false, UserData, 0, None, None);
      clientError, serverError, live, released, log, obtained := None, None, {}, false, [], [];
    }

    ghost predicate Valid()
      reads this
    {
      Steady(View())
    }

    // ---- records -----------------------------------------------------------

    /** AddQueryData, AddDeleteData and the search of AddInsertData are the same. */
    method AddQueryData(kind: Kind, id: nat)
      modifies this`handles
      ensures handles == Added(old(handles), kind, id)
    {
      var k := 0;
      while k < |handles|
        invariant k <= |handles| && handles == old(handles)
        invariant k <= Find(handles, kind, id)
      {
        if handles[k].kind == kind && handles[k].id == id {
          return;
        }
        k := k + 1;
      }
      handles := handles + [Handle(kind, id, false, false, None, None, true)];
    }

    method AddQueryDataAndLock(kind: Kind, id: nat)
      modifies this`handles
      ensures handles == AddedAndLocked(old(handles), kind, id)
    {
      AddQueryData(kind, id);
      handles := handles[|handles| - 1 := handles[|handles| - 1].(needLock := true)];
    }

    /** What the caller writes into the record returned comes as empty. */
    method AddInsertData(kind: Kind, id: nat, empty: bool)
      modifies this`handles
      ensures handles == WithAdd(old(handles), AddInsert(kind, id, empty))
    {
      AddQueryData(kind, id);
      var k := Find(handles, kind, id);
      if k < |handles| {
        handles := handles[k := handles[k].(empty := empty)];
      }
    }

    method AddRecord(a: Add)
      modifies this`handles
      ensures handles == WithAdd(old(handles), a)
    {
      hide Added;
      match a {
        case AddQuery(kind, id) => AddQueryData(kind, id);
        case AddQueryLock(kind, id) => AddQueryDataAndLock(kind, id);
        case AddDelete(kind, id) => AddQueryData(kind, id);
        case AddInsert(kind, id, empty) => AddInsertData(kind, id, empty);
      }
    }

    // ---- replies -----------------------------------------------------------

    method SendResponse()
      modifies this`replied, this`log
      ensures View() == Responded(hooks, old(View()))
    {
      if replied {
        return;
      }
      if clientRequest && hooks.respondsToClient {
        replied := true;
        log := log + [Reply(true, clientError)];
        return;
      }
      if serverRequest && hooks.respondsToServer {
        replied := true;
        log := log + [Reply(false, serverError)];
      }
    }

    method SetErrorResponse(e: Error) returns (next: State)
      modifies this`clientError
      ensures View().(state := next) == Failed(hooks, old(View()), e)
    {
      if clientRequest && hooks.respondsToClient {
        clientError := Some(e);
      }
      next := Finish;
    }

    method SetInternalErrorResponse(e: Error) returns (next: State)
      modifies this`serverError
      ensures View().(state := next) == FailedInternally(hooks, old(View()), e)
    {
      if serverRequest && hooks.respondsToServer {
        serverError := Some(e);
      }
      next := Finish;
    }

    // ---- handlers ----------------------------------------------------------

    /** A derived class's OnClientRequest, OnServerRequest, OnHttpSvrMessage, OnConfSvrMessage or OnCurlMessage. */
    method OnEntry() returns (next: State)
      modifies this`handles, this`replied, this`log
      ensures View().(state := next) == SessionMachine.OnEntry(hooks, old(View()))
    {
      hide WithAdd, Responded;
      var e := hooks.entry(View());
      var k := 0;
      while k < |e.adds|
        invariant k <= |e.adds|
        invariant WithAdds(handles, e.adds[k..]) == WithAdds(old(handles), e.adds)
        invariant View() == old(View()).(handles := handles)
      {
        assert e.adds[k..][1..] == e.adds[k + 1..];
        AddRecord(e.adds[k]);
        k := k + 1;
      }
      if e.respond {
        SendResponse();
      }
      next := StateOf(e.next);
    }

    method OnTimeout(p: Peer) returns (next: State)
      modifies this`clientError, this`serverError
      ensures View().(state := next) == SessionMachine.OnTimeout(hooks, old(View()), p)
    {
      hide Failed, FailedInternally;
      match p {
        case Http => next := SetErrorResponse(HttpTimeout);
        case Conf => next := SetErrorResponse(ConfTimeout);
        case Curl => next := SetInternalErrorResponse(CurlTimeout);
        case DbQuery => next := SetErrorResponse(DbQueryTimeout);
        case Db(op) => next := SetErrorResponse(DbTimeout(op));
      }
    }

    method OnDBSvrNext() returns (next: State)
      modifies this`index
      ensures View().(state := next) == OnNext(old(View()))
    {
      index := index + 1;
      next := if index >= |handles| then Finish else QuerySuccess;
    }

    method IsQueryReady() returns (ready: bool)
      ensures ready == AllFinished(handles)
    {
      var k := 0;
      while k < |handles|
        invariant k <= |handles| && forall j :: 0 <= j < k ==> handles[j].finished
      {
        if !handles[k].finished {
          return false;
        }
        k := k + 1;
      }
      ready := true;
    }

    /** The end of OnDBSvrQuery and of OnDBSvrQueryMessage. */
    method StartIfReady() returns (next: State)
      modifies this`index
      ensures View().(state := next) == IfReady(old(View()))
    {
      var ready := IsQueryReady();
      if ready {
        index := 0;
        return QuerySuccess;
      }
      next := Wait(DbQuery);
    }

    method OnDBSvrQuery() returns (next: State)
      modifies this`index, this`log
      ensures View().(state := next) == OnQuery(old(View()))
    {
      hide IfReady, Queries;
      if index >= |handles| {
        return Finish;
      }
      QueryAll();
      next := StartIfReady();
    }

    /** Its loop of requests. */
    method QueryAll()
      modifies this`log
      ensures log == old(log) + Queries(handles)
    {
      var k := 0;
      assert log + Queries(handles[..0]) == log;
      while k < |handles|
        invariant k <= |handles| && log == old(log) + Queries(handles[..k])
      {
        var h := handles[k];
        assert handles[..k + 1][..k] == handles[..k];
        log := log + [QueryReq(h.kind, h.id, h.version, h.needLock)];
        k := k + 1;
      }
      assert handles[..k] == handles;
    }

    /** What OnDBSvrQueryMessage saves in the record that was answered. */
    method SaveAnswer(k: nat)
      requires k < |handles|
      modifies this`handles, this`obtained
      ensures handles == old(handles)[k := Saved(old(handles)[k], response)]
      ensures obtained == old(obtained) + (if response.lockId.Some? then [response.lockId.value] else [])
    {
      var h := handles[k].(finished := true);
      if response.lockId.Some? {
        h := h.(lockId := response.lockId);
        obtained := obtained + [response.lockId.value];
      }
      if response.version.Some? {
        h := h.(version := response.version);
      }
      handles := handles[k := h];
    }

    method OnDBSvrQueryMessage() returns (next: State)
      modifies this`index, this`handles, this`obtained, this`clientError
      ensures View().(state := next) == OnQueryMessage(hooks, old(View()))
    {
      hide IfReady, Failed, AllFinished, Saved;
      var r := response;
      if !r.ok {
        next := SetErrorResponse(DbQueryFailed);
        return;
      }
      var k := 0;
      while k < |handles|
        invariant k <= |handles| && View() == old(View())
        invariant k <= Find(handles, r.kind, r.id)
      {
        if handles[k].kind != r.kind || handles[k].id != r.id {
          k := k + 1;
          continue;
        }
        assert k == Find(handles, r.kind, r.id);
        SaveAnswer(k);
        if !r.kind.RobotData? {
          next := SetErrorResponse(DbParse);
          return;
        }
        handles := handles[k := handles[k].(empty := false)];
        assert handles == old(handles)[k := Saved(old(handles)[k], r).(empty := false)];
        break;
      }
      next := StartIfReady();
    }

    /** A derived class's OnDBSvrQuerySuccess. */
    method OnDBSvrQuerySuccess() returns (next: State)
      requires index < |handles|
      modifies this`handles, this`replied, this`log
      ensures View().(state := next) == OnSuccess(hooks, old(View()))
    {
      hide Responded;
      var d := hooks.success(View());
      handles := handles[index := handles[index].(empty := d.empty)];
      if d.respond {
        SendResponse();
      }
      next := if d.finish then Finish else if d.op.Some? then Begin(d.op.value) else Next;
    }

    method OnDBSvrUpdate() returns (next: State)
      modifies this`handles, this`log, this`clientError
      ensures View().(state := next) == OnBegin(hooks, old(View()), UpdateOp)
    {
      hide Failed;
      if index >= |handles| {
        return Finish;
      }
      var h := handles[index];
      var request := UpdateReq(h.kind, h.id, h.version, h.lockId);
      handles := handles[index := h.(lockId := None)];
      if !h.kind.RobotData? {
        next := SetErrorResponse(DbFailed(UpdateOp));
        return;
      }
      if h.empty {
        return Success(UpdateOp);
      }
      log := log + [request];
      next := Wait(Db(UpdateOp));
    }

    /** OnDBSvrInsert and OnDBSvrDelete. */
    method OnDBSvrInsertOrDelete(op: Op) returns (next: State)
      requires !op.UpdateOp?
      modifies this`log
      ensures View().(state := next) == OnBegin(hooks, old(View()), op)
    {
      if index >= |handles| {
        return Finish;
      }
      var h := handles[index];
      log := log + [if op.InsertOp? then InsertReq(h.kind, h.id) else DeleteReq(h.kind, h.id)];
      next := Wait(Db(op));
    }

    /** OnDBSvrUpdateMessage, OnDBSvrInsertMessage and OnDBSvrDeleteMessage. */
    method OnDBSvrMessage(op: Op) returns (next: State)
      requires index < |handles|
      modifies this`clientError
      ensures View().(state := next) == OnDbMessage(hooks, old(View()), op)
    {
      hide Failed;
      var h := handles[index];
      if h.kind != response.kind || h.id != response.id {
        next := SetErrorResponse(DbFailed(op));
        return;
      }
      if !response.ok {
        next := SetErrorResponse(DbFailed(op));
        return;
      }
      next := Success(op);
    }

    method OnSessionFinish()
      modifies this`replied, this`log
      ensures View() == Finished(hooks, old(View()))
    {
      hide Responded, Unlocks;
      NotifyUnlocks();
      SendResponse();
    }

    /** Its loop. */
    method NotifyUnlocks()
      modifies this`log
      ensures log == old(log) + Unlocks(handles)
    {
      var k := 0;
      assert log + Unlocks(handles[..0]) == log;
      while k < |handles|
        invariant k <= |handles| && log == old(log) + Unlocks(handles[..k])
      {
        var h := handles[k];
        assert handles[..k + 1][..k] == handles[..k];
        if h.needLock && h.lockId.Some? {
          log := log + [UnlockNotify(h.kind, h.id, h.lockId.value)];
        }
        k := k + 1;
      }
      assert handles[..k] == handles;
    }

    // ---- the loop and its callers ------------------------------------------

    method TakeTurn() returns (next: State)
      requires !state.Wait? && !state.Finish? && CursorInRange(View())
      modifies this`handles, this`index, this`replied, this`log, this`obtained, this`clientError, this`serverError
      ensures View().(state := next) == Turn(hooks, old(View()))
    {
      hide SessionMachine.OnEntry, OnQuery, OnQueryMessage, OnSuccess;
      hide OnBegin, OnNext, SessionMachine.OnTimeout, OnDbMessage;
      match state {
        case ClientRequest => next := OnEntry();
        case ServerRequest => next := OnEntry();
        case Next => next := OnDBSvrNext();
        case Query => next := OnDBSvrQuery();
        case QuerySuccess => next := OnDBSvrQuerySuccess();
        case Begin(op) =>
          if op.UpdateOp? {
            next := OnDBSvrUpdate();
          } else {
            next := OnDBSvrInsertOrDelete(op);
          }
        case Success(op) => next := if op.UpdateOp? then Next else Finish;
        case Timeout(p) => next := OnTimeout(p);
        case Message(p) =>
          match p {
            case DbQuery => next := OnDBSvrQueryMessage();
            case Db(op) => next := OnDBSvrMessage(op);
            case _ => next := OnEntry();
          }
      }
    }

    /** SetSessionTimer: spare is the id CreateTimer comes back with, None when the manager is full. */
    method SetSessionTimer(spare: Option<nat>)
      modifies this`timer, this`live
      ensures View() == Timed(old(View()), spare)
    {
      if spare.Some? {
        live := live + {spare.value};
        timer := spare;
      }
    }

    method ReleaseSession()
      modifies this`released, this`live
      ensures View() == Dropped(old(View()))
    {
      if timer.Some? {
        live := live - {timer.value};
      }
      released := true;
    }

    method RunStateMachine(spare: Option<nat>)
      requires CursorInRange(View())
      modifies this
      ensures hooks == old(hooks) && View() == Run(hooks, old(View()), spare)
    {
      hide Turn, Finished, Dropped, Timed;
      while true
        invariant hooks == old(hooks)
        invariant CursorInRange(View()) && Run(hooks, View(), spare) == Run(hooks, old(View()), spare)
        decreases Phase(state), Remaining(View()), Rank(state)
      {
        ghost var v := View();
        if state.Wait? {
          SetSessionTimer(spare);
          return;
        }
        if state.Finish? {
          OnSessionFinish();
          ReleaseSession();
          return;
        }
        TurnMoves(hooks, v);
        var next := TakeTurn();
        state := next;
      }
    }

    /** GetClientRequest and GetServerRequest. */
    method GetRequest(client: bool, decides: Hooks, spare: Option<nat>)
      requires View() == New()
      modifies this
      ensures View() == Open(decides, client, spare)
      ensures Valid() && Settled(View()) && (released || timer == spare)
    {
      hide Run, Steady, Settled, TellsTrouble;
      hooks := decides;
      if client {
        clientRequest := true;
        state := ClientRequest;
      } else {
        serverRequest := true;
        state := ServerRequest;
      }
      RunStateMachine(spare);
      OpenSteady(decides, client, spare);
    }

    method ReleaseTimer()
      modifies this`timer, this`live
      ensures View() == Cleared(old(View()))
    {
      live := live - {if timer.Some? then timer.value else 0};
      timer := None;
    }

    method GetServerResponse(message: Response, decides: Hooks, spare: Option<nat>)
      requires Valid() && !released
      modifies this
      ensures View() == Receive(decides, old(View()), Answer(message), spare)
      ensures TellsTrouble(decides, old(View()), Answer(message), View())
      ensures Valid() && Settled(View()) && (released || timer == old(timer) || timer == spare)
    {
      hide Run, Steady, Settled, TellsTrouble;
      ghost var v := View();
      SteadyCursor(v);
      hooks := decides;
      response := message;
      if !state.Wait? || state.peer.Curl? || message.from != Needed(state.peer) {
        ReceiveSteady(decides, v, Answer(message), spare);
        return;
      }
      ReleaseTimer();
      state := Message(state.peer);
      assert View() == Started(v, Answer(message));
      ReceiveStarts(decides, v, Answer(message), spare);
      hide Receive, Started;
      RunStateMachine(spare);
      ReceiveSteady(decides, v, Answer(message), spare);
    }

    /** Called by the timer manager, which has dropped the timer. */
    method WaitResponseTimeout(decides: Hooks, spare: Option<nat>)
      requires Valid() && !released && timer.Some? && timer.value in live
      modifies this
      ensures View() == Receive(decides, old(View()), TimerFires, spare)
      ensures TellsTrouble(decides, old(View()), TimerFires, View())
      ensures Valid() && Settled(View()) && (released || timer == old(timer) || timer == spare)
    {
      hide Run, Steady, Settled, TellsTrouble;
      ghost var v := View();
      SteadyCursor(v);
      hooks := decides;
      if !state.Wait? {
        ReceiveSteady(decides, v, TimerFires, spare);
        return;
      }
      live := live - {timer.value};
      timer := None;
      state := Timeout(state.peer);
      RunStateMachine(spare);
      ReceiveSteady(decides, v, TimerFires, spare);
    }

    /** Whatever the session waits for. */
    method GetCurlResult(decides: Hooks, spare: Option<nat>)
      requires Valid() && !released
      modifies this
      ensures View() == Receive(decides, old(View()), CurlResult, spare)
      ensures TellsTrouble(decides, old(View()), CurlResult, View())
      ensures Valid() && Settled(View()) && (released || timer == old(timer) || timer == spare)
    {
      hide Run, Steady, Settled, TellsTrouble;
      ghost var v := View();
      SteadyCursor(v);
      hooks := decides;
      ReleaseTimer();
      state := Message(Curl);
      RunStateMachine(spare);
      ReceiveSteady(decides, v, CurlResult, spare);
    }
  }
}
