/** The session state machine of dev/svr/common/basic_handler.cpp as a function of the session, with
  the handlers of BasicHandler; what a derived class decides (its request handlers, its handlers of
  HTTP, config and curl messages and its query-success handler) comes from hooks. */
module SessionMachine {
  import opened Common

  datatype Kind = UserData | GameLog | RobotData
  datatype Op = UpdateOp | DeleteOp | InsertOp

  /** Who a waiting session waits for. */
  datatype Peer = Http | Conf | Curl | DbQuery | Db(op: Op)

  /** SESSION_STATE_*: of each peer a wait, a message and a timeout state, and the states between. */
  datatype State = ClientRequest | ServerRequest | Next | Query | QuerySuccess | Begin(op: Op) | Success(op: Op)
    | Wait(peer: Peer) | Message(peer: Peer) | Timeout(peer: Peer) | Finish

  /** One record the session works on; empty: nothing to be saved in it. */
  datatype Handle = Handle(
    kind: Kind, id: nat, needLock: bool, finished: bool, version: Option<nat>, lockId: Option<nat>, empty: bool)

  datatype Error = HttpTimeout | ConfTimeout | CurlTimeout | DbQueryFailed | DbQueryTimeout | DbParse
    | DbFailed(op: Op) | DbTimeout(op: Op)

  datatype Sent = QueryReq(kind: Kind, id: nat, version: Option<nat>, needLock: bool)
    | UpdateReq(kind: Kind, id: nat, version: Option<nat>, held: Option<nat>)
    | InsertReq(kind: Kind, id: nat) | DeleteReq(kind: Kind, id: nat)
    | UnlockNotify(kind: Kind, id: nat, lockId: nat) | Reply(client: bool, error: Option<Error>)

  datatype ServerType = HttpServer | ConfigCenter | DataServer | OtherServer

  /** The fields of a server's message that the state it meets reads. */
  datatype Response = Response(from: ServerType, ok: bool,
      kind: Kind, id: nat, version: Option<nat>, lockId: Option<nat>)

  datatype Session = Session(
    state: State, timer: Option<nat>, handles: seq<Handle>, index: nat, replied: bool,
    clientRequest: bool, serverRequest: bool, response: Response,
    clientError: Option<Error>, serverError: Option<Error>,
    // outside the session: its timers that are not deleted, and whether the manager has dropped it
    live: set<nat>, released: bool,
    // history: what was sent, and the lock ids that query answers brought
    log: seq<Sent>, obtained: seq<nat>)

  function New(): Session {
    Session(ClientRequest, None, [], 0, false, false, false, Response(OtherServer, false, UserData, 0, None, None),
            None, None, {}, false, [], [])
  }

  // ---- what a derived class decides ----------------------------------------

  datatype Add = AddQuery(kind: Kind, id: nat) | AddQueryLock(kind: Kind, id: nat)
    | AddDelete(kind: Kind, id: nat) | AddInsert(kind: Kind, id: nat, empty: bool)

  datatype Onward = ToQuery | ToBegin(op: Op) | ToHttp | ToConf | ToCurl | ToFinish

  /** A request or message handler: records added, perhaps the reply sent, and the state returned. */
  datatype Entry = Entry(adds: seq<Add>, respond: bool, next: Onward)

  datatype Verdict = Verdict(empty: bool, respond: bool, op: Option<Op>, finish: bool)

  /** respondsToClient, respondsToServer: _cs_rsp_type and _ss_rsp_type are not NONE. */
  datatype Hooks = Hooks(respondsToClient: bool, respondsToServer: bool,
      entry: Session -> Entry, success: Session -> Verdict)

  function StateOf(next: Onward): State {
    match next
    case ToQuery => Query
    case ToBegin(op) => Begin(op)
    case ToHttp => Wait(Http)
    case ToConf => Wait(Conf)
    case ToCurl => Wait(Curl)
    case ToFinish => Finish
  }

  // ---- handles -------------------------------------------------------------

  /** The first handle of that kind and id; |hs| when there is none. */
  function Find(hs: seq<Handle>, kind: Kind, id: nat): (k: nat)
    ensures k <= |hs| && (k < |hs| ==> hs[k].kind == kind && hs[k].id == id)
    ensures forall j :: 0 <= j < k ==> hs[j].kind != kind || hs[j].id != id
  {
    if hs == [] || (hs[0].kind == kind && hs[0].id == id) then 0 else 1 + Find(hs[1..], kind, id)
  }

  function Added(hs: seq<Handle>, kind: Kind, id: nat): (r: seq<Handle>)
    ensures r != []
  {
    if Find(hs, kind, id) < |hs| then hs else hs + [Handle(kind, id, false, false, None, None, true)]
  }

  /** AddQueryDataAndLock marks the last handle, whichever was asked for. */
  function AddedAndLocked(hs: seq<Handle>, kind: Kind, id: nat): seq<Handle> {
    var r := Added(hs, kind, id);
    r[|r| - 1 := r[|r| - 1].(needLock := true)]
  }

  function WithAdd(hs: seq<Handle>, a: Add): seq<Handle> {
    match a
    case AddQuery(kind, id) => Added(hs, kind, id)
    case AddQueryLock(kind, id) => AddedAndLocked(hs, kind, id)
    case AddDelete(kind, id) => Added(hs, kind, id)
    case AddInsert(kind, id, empty) =>
      var r := Added(hs, kind, id);
      var k := Find(r, kind, id);
      if k < |r| then r[k := r[k].(empty := empty)] else r
  }

  function WithAdds(hs: seq<Handle>, adds: seq<Add>): seq<Handle>
    decreases |adds|
  {
    if adds == [] then hs else WithAdds(WithAdd(hs, adds[0]), adds[1..])
  }

  predicate AllFinished(hs: seq<Handle>) {
    forall k :: 0 <= k < |hs| ==> hs[k].finished
  }

  function Saved(h: Handle, r: Response): Handle {
    h.(finished := true,
       lockId := if r.lockId.Some? then r.lockId else h.lockId,
       version := if r.version.Some? then r.version else h.version)
  }

  function Queries(hs: seq<Handle>): seq<Sent> {
    if hs == [] then []
    else Queries(hs[..|hs| - 1])
         + [QueryReq(hs[|hs| - 1].kind, hs[|hs| - 1].id, hs[|hs| - 1].version, hs[|hs| - 1].needLock)]
  }

  /** An unlock notice for every handle that asked for a lock and still holds one. */
  function Unlocks(hs: seq<Handle>): seq<Sent> {
    if hs == [] then []
    else
      var h := hs[|hs| - 1];
      Unlocks(hs[..|hs| - 1])
      + (if h.needLock && h.lockId.Some? then [UnlockNotify(h.kind, h.id, h.lockId.value)] else [])
  }

  // ---- replies and errors --------------------------------------------------

  /** SendResponse. */
  function Responded(c: Hooks, v: Session): Session {
    if v.replied then v
    else if v.clientRequest && c.respondsToClient then v.(replied := true, log := v.log + [Reply(true, v.clientError)])
    else if v.serverRequest && c.respondsToServer then v.(replied := true, log := v.log + [Reply(false, v.serverError)])
    else v
  }

  /** SetErrorResponse, for errors meant for the client. */
  function Failed(c: Hooks, v: Session, e: Error): Session {
    if v.clientRequest && c.respondsToClient then v.(state := Finish, clientError := Some(e)) else v.(state := Finish)
  }

  /** The curl timeout is an internal error, which only servers are told. */
  function FailedInternally(c: Hooks, v: Session, e: Error): Session {
    if v.serverRequest && c.respondsToServer then v.(state := Finish, serverError := Some(e)) else v.(state := Finish)
  }

  // ---- one turn of the loop ------------------------------------------------

  /** Where the source indexes db_handles without a check of its own. */
  predicate CursorInRange(v: Session) {
    v.state.QuerySuccess? || ((v.state.Wait? || v.state.Message?) && (v.state.peer.Db? || v.state.peer.DbQuery?)) ==>
      v.index < |v.handles|
  }

  function OnEntry(c: Hooks, v: Session): Session {
    var e := c.entry(v);
    var w := v.(handles := WithAdds(v.handles, e.adds));
    (if e.respond then Responded(c, w) else w).(state := StateOf(e.next))
  }

  function OnTimeout(c: Hooks, v: Session, p: Peer): Session {
    match p
    case Http => Failed(c, v, HttpTimeout)
    case Conf => Failed(c, v, ConfTimeout)
    case Curl => FailedInternally(c, v, CurlTimeout)
    case DbQuery => Failed(c, v, DbQueryTimeout)
    case Db(op) => Failed(c, v, DbTimeout(op))
  }

  function OnNext(v: Session): Session {
    v.(index := v.index + 1, state := if v.index + 1 >= |v.handles| then Finish else QuerySuccess)
  }

  function IfReady(v: Session): Session {
    if AllFinished(v.handles) then v.(index := 0, state := QuerySuccess) else v.(state := Wait(DbQuery))
  }

  /** The source's own test for no handles at all comes after a test that is already true then. */
  function OnQuery(v: Session): Session {
    if v.index >= |v.handles| then v.(state := Finish) else IfReady(v.(log := v.log + Queries(v.handles)))
  }

  function OnQueryMessage(c: Hooks, v: Session): Session {
    var r := v.response;
    if !r.ok then Failed(c, v, DbQueryFailed)
    else
      var k := Find(v.handles, r.kind, r.id);
      if k == |v.handles| then IfReady(v)
      else
        var h := Saved(v.handles[k], r);
        var ids := if r.lockId.Some? then [r.lockId.value] else [];
        var w := v.(handles := v.handles[k := h], obtained := v.obtained + ids);
        if !r.kind.RobotData? then Failed(c, w, DbParse) else IfReady(w.(handles := v.handles[k := h.(empty := false)]))
  }

  function OnSuccess(c: Hooks, v: Session): Session
    requires v.index < |v.handles|
  {
    var d := c.success(v);
    var w := v.(handles := v.handles[v.index := v.handles[v.index].(empty := d.empty)]);
    (if d.respond then Responded(c, w) else w)
    .(state := if d.finish then Finish else if d.op.Some? then Begin(d.op.value) else Next)
  }

  function OnBegin(c: Hooks, v: Session, op: Op): Session {
    if v.index >= |v.handles| then v.(state := Finish)
    else
      var h := v.handles[v.index];
      match op
      case InsertOp => v.(log := v.log + [InsertReq(h.kind, h.id)], state := Wait(Db(op)))
      case DeleteOp => v.(log := v.log + [DeleteReq(h.kind, h.id)], state := Wait(Db(op)))
      case UpdateOp =>
        // the lock is given up here whether or not anything is sent
        var w := v.(handles := v.handles[v.index := h.(lockId := None)]);
        if !h.kind.RobotData? then Failed(c, w, DbFailed(op))
        else if h.empty then w.(state := Success(op))
        else w.(log := v.log + [UpdateReq(h.kind, h.id, h.version, h.lockId)], state := Wait(Db(op)))
  }

  function OnDbMessage(c: Hooks, v: Session, op: Op): Session
    requires v.index < |v.handles|
  {
    var h := v.handles[v.index];
    if h.kind != v.response.kind || h.id != v.response.id || !v.response.ok then Failed(c, v, DbFailed(op))
    else v.(state := Success(op))
  }

  /** RunStateMachine's switch for the states that do not stop the loop. */
  function Turn(c: Hooks, v: Session): (w: Session)
    requires !v.state.Wait? && !v.state.Finish? && CursorInRange(v)
  {
    match v.state
    case ClientRequest => OnEntry(c, v)
    case ServerRequest => OnEntry(c, v)
    case Next => OnNext(v)
    case Query => OnQuery(v)
    case QuerySuccess => OnSuccess(c, v)
    case Begin(op) => OnBegin(c, v, op)
    case Success(op) => v.(state := if op.UpdateOp? then Next else Finish)
    case Timeout(p) => OnTimeout(c, v, p)
    case Message(p) =>
      match p
      case DbQuery => OnQueryMessage(c, v)
      case Db(op) => OnDbMessage(c, v, op)
      case _ => OnEntry(c, v)
  }

  // ---- the loop ------------------------------------------------------------

  function Phase(s: State): nat {
    if s.ClientRequest? || s.ServerRequest? || (s.Message? && !s.peer.Db? && !s.peer.DbQuery?) then 2
    else if s.Query? || s.Message? then 1
    else 0
  }

  function Remaining(v: Session): nat {
    if v.index < |v.handles| then |v.handles| - v.index else 0
  }

  function Rank(s: State): nat {
    match s
    case QuerySuccess => 4
    case Begin(_) => 3
    case Success(_) => 2
    case Next => 1
    case Timeout(_) => 1
    case _ => 0
  }

  /** Each turn takes the session to an earlier phase, or past a handle, or further along with one. */
  ghost predicate Lower(w: Session, v: Session) {
    || Phase(w.state) < Phase(v.state)
    || (Phase(w.state) == Phase(v.state) && Remaining(w) < Remaining(v))
    || (Phase(w.state) == Phase(v.state) && Remaining(w) == Remaining(v) && Rank(w.state) < Rank(v.state))
  }

  /** What a turn does to the state, the cursor and the number of handles, when no record is added. */
  ghost predicate Moves(v: Session, w: Session) {
    |w.handles| == |v.handles| && CursorInRange(w) && Lower(w, v)
  }

  lemma FailedMoves(c: Hooks, v: Session, e: Error)
    ensures var w := Failed(c, v, e); w.state.Finish? && w.handles == v.handles && w.index == v.index
    ensures var w := FailedInternally(c, v, e); w.state.Finish? && w.handles == v.handles && w.index == v.index
  {
  }

  lemma RespondedMoves(c: Hooks, v: Session)
    ensures var w := Responded(c, v); w.state == v.state && w.handles == v.handles && w.index == v.index
  {
  }

  lemma EntryMoves(c: Hooks, v: Session)
    requires Phase(v.state) == 2
    ensures CursorInRange(OnEntry(c, v)) && Lower(OnEntry(c, v), v)
  {
    hide WithAdds, Responded;
    RespondedMoves(c, v.(handles := WithAdds(v.handles, c.entry(v).adds)));
  }

  lemma ReadyMoves(v: Session)
    requires v.index < |v.handles|
    ensures var w := IfReady(v);
              w.handles == v.handles && CursorInRange(w) && (w.state.QuerySuccess? || w.state == Wait(DbQuery))
  {
  }

  lemma QueryMoves(v: Session)
    requires v.state.Query?
    ensures Moves(v, OnQuery(v))
  {
    hide Queries, IfReady;
    if v.index < |v.handles| { ReadyMoves(v.(log := v.log + Queries(v.handles))); }
  }

  lemma QueryMessageMoves(c: Hooks, v: Session)
    requires v.state == Message(DbQuery) && CursorInRange(v)
    ensures Moves(v, OnQueryMessage(c, v))
  {
    hide Failed, IfReady, Saved;
    var r := v.response;
    FailedMoves(c, v, DbQueryFailed);
    var k := Find(v.handles, r.kind, r.id);
    if k == |v.handles| {
      ReadyMoves(v);
    } else {
      var h := Saved(v.handles[k], r);
      var ids := if r.lockId.Some? then [r.lockId.value] else [];
      var w := v.(handles := v.handles[k := h], obtained := v.obtained + ids);
      FailedMoves(c, w, DbParse);
      ReadyMoves(w.(handles := v.handles[k := h.(empty := false)]));
    }
  }

  lemma SuccessMoves(c: Hooks, v: Session)
    requires v.state.QuerySuccess? && CursorInRange(v)
    ensures Moves(v, OnSuccess(c, v))
    ensures var w := OnSuccess(c, v); w.index == v.index && (w.state.Begin? || w.state.Next? || w.state.Finish?)
  {
    hide Responded;
    var d := c.success(v);
    RespondedMoves(c, v.(handles := v.handles[v.index := v.handles[v.index].(empty := d.empty)]));
  }

  lemma BeginMoves(c: Hooks, v: Session, op: Op)
    requires v.state == Begin(op)
    ensures Moves(v, OnBegin(c, v, op))
    ensures var w := OnBegin(c, v, op);
              w.index == v.index && (w.state == Wait(Db(op)) || w.state == Success(op) || w.state.Finish?)
  {
    hide Failed;
    if v.index < |v.handles| {
      var h := v.handles[v.index];
      FailedMoves(c, v.(handles := v.handles[v.index := h.(lockId := None)]), DbFailed(op));
    }
  }

  lemma OtherMoves(c: Hooks, v: Session)
    requires v.state.Next? || v.state.Success? || v.state.Timeout?
             || (v.state.Message? && v.state.peer.Db? && CursorInRange(v))
    ensures CursorInRange(v) && Moves(v, Turn(c, v))
    ensures var w := Turn(c, v);
            w.index == (if v.state.Next? then v.index + 1 else v.index) && (w.state.QuerySuccess? ==> v.state.Next?)
  {
    hide Failed, FailedInternally;
    match v.state {
      case Timeout(p) =>
        FailedMoves(c, v, HttpTimeout);
        FailedMoves(c, v, ConfTimeout);
        FailedMoves(c, v, CurlTimeout);
        FailedMoves(c, v, DbQueryTimeout);
        if p.Db? { FailedMoves(c, v, DbTimeout(p.op)); }
      case Message(p) => FailedMoves(c, v, DbFailed(p.op));
      case _ =>
    }
  }

  lemma TurnMoves(c: Hooks, v: Session)
    requires !v.state.Wait? && !v.state.Finish? && CursorInRange(v)
    ensures CursorInRange(Turn(c, v)) && Lower(Turn(c, v), v)
  {
    hide OnEntry, OnQuery, OnQueryMessage, OnSuccess, OnBegin, OnNext, OnTimeout, OnDbMessage;
    match v.state {
      case ClientRequest => EntryMoves(c, v);
      case ServerRequest => EntryMoves(c, v);
      case Query => QueryMoves(v);
      case QuerySuccess => SuccessMoves(c, v);
      case Begin(op) => BeginMoves(c, v, op);
      case Message(p) =>
        match p {
          case DbQuery => QueryMessageMoves(c, v);
          case Db(op) => OtherMoves(c, v);
          case _ => EntryMoves(c, v);
        }
      case _ => OtherMoves(c, v);
    }
  }

  /** SetSessionTimer: spare is the id of a timer the manager could create, None when it is full. */
  function Timed(v: Session, spare: Option<nat>): Session {
    if spare.Some? then v.(timer := spare, live := v.live + {spare.value}) else v
  }

  /** OnSessionFinish. */
  function Finished(c: Hooks, v: Session): Session {
    Responded(c, v.(log := v.log + Unlocks(v.handles)))
  }

  /** ReleaseSession. */
  function Dropped(v: Session): Session {
    v.(released := true, live := if v.timer.Some? then v.live - {v.timer.value} else v.live)
  }

  /** RunStateMachine: it ends, in a wait state with its timer set or with the session finished and dropped. */
  function Run(c: Hooks, v: Session, spare: Option<nat>): (w: Session)
    requires CursorInRange(v)
    decreases Phase(v.state), Remaining(v), Rank(v.state)
  {
    if v.state.Wait? then Timed(v, spare)
    else if v.state.Finish? then Dropped(Finished(c, v))
    else
      TurnMoves(c, v);
      Run(c, Turn(c, v), spare)
  }

  // ---- messages ------------------------------------------------------------

  datatype Event = Answer(r: Response) | TimerFires | CurlResult | Leak

  function Needed(p: Peer): ServerType {
    match p
    case Http => HttpServer
    case Conf => ConfigCenter
    case _ => DataServer
  }

  /** ReleaseTimer(timer_id()) and clear_timer_id; a session without a timer names timer 0. */
  function Cleared(v: Session): Session {
    v.(timer := None, live := v.live - {if v.timer.Some? then v.timer.value else 0})
  }

  /** A new session with the request in it. */
  function Opened(client: bool): Session {
    if client then New().(clientRequest := true) else New().(state := ServerRequest, serverRequest := true)
  }

  /** GetClientRequest and GetServerRequest on a new session. */
  function Open(c: Hooks, client: bool, spare: Option<nat>): Session {
    Run(c, Opened(client), spare)
  }

  /** Whether a message starts the loop. */
  predicate Starts(v: Session, e: Event) {
    match e
    case Answer(r) => v.state.Wait? && !v.state.peer.Curl? && r.from == Needed(v.state.peer)
    case TimerFires => v.state.Wait? && v.timer.Some? && v.timer.value in v.live
    case CurlResult => true
    case Leak => false
  }

  /** The session as the loop finds it. */
  function Started(v: Session, e: Event): Session
    requires Starts(v, e)
  {
    match e
    case Answer(r) => Cleared(v.(response := r)).(state := Message(v.state.peer))
    case TimerFires => v.(timer := None, live := v.live - {v.timer.value}, state := Timeout(v.state.peer))
    case CurlResult => Cleared(v).(state := Message(Curl))
  }

  /** GetServerResponse, WaitResponseTimeout (after the manager dropped the timer that fired),
    GetCurlResult, and the check for sessions that live too long. */
  function Receive(c: Hooks, v: Session, e: Event, spare: Option<nat>): Session
    requires CursorInRange(v)
  {
    if v.released then v
    else if Starts(v, e) then Run(c, Started(v, e), spare)
    else
      match e
      case Answer(r) => v.(response := r)
      case Leak => Dropped(v)
      case _ => v
  }

  /** What a message that starts the loop leads to. */
  lemma ReceiveStarts(c: Hooks, v: Session, e: Event, spare: Option<nat>)
    requires CursorInRange(v) && !v.released && Starts(v, e)
    ensures CursorInRange(Started(v, e)) && Receive(c, v, e, spare) == Run(c, Started(v, e), spare)
  {
    hide Run;
  }

  // ---- what every turn keeps -----------------------------------------------

  function Replies(log: seq<Sent>): nat {
    if log == [] then 0 else Replies(log[..|log| - 1]) + (if log[|log| - 1].Reply? then 1 else 0)
  }

  /** Whether lock id x leaves the session in that message. */
  function Leaves(m: Sent, x: nat): nat {
    if (m.UpdateReq? && m.held == Some(x)) || (m.UnlockNotify? && m.lockId == x) then 1 else 0
  }

  /** How often lock id x left the session, in an update request or an unlock notice. */
  function Left(log: seq<Sent>, x: nat): nat {
    if log == [] then 0 else Left(log[..|log| - 1], x) + Leaves(log[|log| - 1], x)
  }

  function Holds(h: Handle, x: nat): nat {
    if h.lockId == Some(x) then 1 else 0
  }

  function Held(hs: seq<Handle>, x: nat): nat {
    if hs == [] then 0 else Held(hs[..|hs| - 1], x) + Holds(hs[|hs| - 1], x)
  }

  function Times(ids: seq<nat>, x: nat): nat {
    if ids == [] then 0 else Times(ids[..|ids| - 1], x) + (if ids[|ids| - 1] == x then 1 else 0)
  }

  predicate OneReply(v: Session) {
    Replies(v.log) == if v.replied then 1 else 0
  }

  /** Lock id x left and is held together no more often than it was obtained. */
  predicate Accounted(v: Session, x: nat) {
    Left(v.log, x) + (if v.released then 0 else Held(v.handles, x)) <= Times(v.obtained, x)
  }

  ghost predicate Distinct(hs: seq<Handle>) {
    forall j, k :: 0 <= j < k < |hs| ==> hs[j].kind != hs[k].kind || hs[j].id != hs[k].id
  }

  ghost predicate Kept(v: Session, w: Session, x: nat) {
    && w.timer == v.timer && w.live == v.live && w.released == v.released
    && (OneReply(v) ==> OneReply(w))
    && (!v.released && Accounted(v, x) ==> Accounted(w, x))
    && (Distinct(v.handles) ==> Distinct(w.handles))
  }

  lemma LogGrows(log: seq<Sent>, m: Sent, x: nat)
    ensures Replies(log + [m]) == Replies(log) + (if m.Reply? then 1 else 0)
    ensures Left(log + [m], x) == Left(log, x) + Leaves(m, x)
  {
    assert (log + [m])[..|log|] == log;
  }

  lemma TimesGrows(ids: seq<nat>, id: nat, x: nat)
    ensures Times(ids + [id], x) == Times(ids, x) + (if id == x then 1 else 0)
  {
    assert (ids + [id])[..|ids|] == ids;
  }

  lemma RespondedKeeps(c: Hooks, v: Session, x: nat)
    ensures Kept(v, Responded(c, v), x)
  {
    hide Held, Times, Replies, Left;
    LogGrows(v.log, Reply(true, v.clientError), x);
    LogGrows(v.log, Reply(false, v.serverError), x);
  }

  lemma FailedKeeps(c: Hooks, v: Session, e: Error, x: nat)
    ensures Kept(v, Failed(c, v, e), x) && Kept(v, FailedInternally(c, v, e), x)
  {
    hide Held, Times, Replies, Left;
  }

  lemma {:induction false} HeldAt(hs: seq<Handle>, k: nat, h: Handle, x: nat)
    requires k < |hs|
    ensures Held(hs[k := h], x) + Holds(hs[k], x) == Held(hs, x) + Holds(h, x)
    decreases |hs|
  {
    var n := |hs| - 1;
    if k == n {
      assert hs[k := h][..n] == hs[..n];
    } else {
      assert hs[k := h][..n] == hs[..n][k := h];
      HeldAt(hs[..n], k, h, x);
    }
  }

  lemma HeldLonger(hs: seq<Handle>, h: Handle, x: nat)
    ensures Held(hs + [h], x) == Held(hs, x) + Holds(h, x)
  {
    assert (hs + [h])[..|hs|] == hs;
  }

  /** A handle whose flags change holds what it held and is known as before. */
  lemma FlagKeeps(hs: seq<Handle>, k: nat, h: Handle, x: nat)
    requires k < |hs| && h.kind == hs[k].kind && h.id == hs[k].id && h.lockId == hs[k].lockId
    ensures Held(hs[k := h], x) == Held(hs, x) && (Distinct(hs) ==> Distinct(hs[k := h]))
  {
    HeldAt(hs, k, h, x);
  }

  lemma AddedKeeps(hs: seq<Handle>, kind: Kind, id: nat, x: nat)
    ensures Held(Added(hs, kind, id), x) == Held(hs, x) && (Distinct(hs) ==> Distinct(Added(hs, kind, id)))
  {
    HeldLonger(hs, Handle(kind, id, false, false, None, None, true), x);
  }

  lemma AddKeeps(hs: seq<Handle>, a: Add, x: nat)
    ensures Held(WithAdd(hs, a), x) == Held(hs, x) && (Distinct(hs) ==> Distinct(WithAdd(hs, a)))
  {
    hide Held, Distinct, Added;
    AddedKeeps(hs, a.kind, a.id, x);
    var r := Added(hs, a.kind, a.id);
    FlagKeeps(r, |r| - 1, r[|r| - 1].(needLock := true), x);
    if a.AddInsert? {
      var k := Find(r, a.kind, a.id);
      if k < |r| { FlagKeeps(r, k, r[k].(empty := a.empty), x); }
    }
  }

  lemma {:induction false} AddsKeep(hs: seq<Handle>, adds: seq<Add>, x: nat)
    ensures Held(WithAdds(hs, adds), x) == Held(hs, x) && (Distinct(hs) ==> Distinct(WithAdds(hs, adds)))
    decreases |adds|
  {
    hide WithAdd, Held, Distinct;
    if adds != [] {
      AddKeeps(hs, adds[0], x);
      AddsKeep(WithAdd(hs, adds[0]), adds[1..], x);
    }
  }

  lemma KeptThrough(u: Session, v: Session, w: Session, x: nat)
    requires Kept(u, v, x) && Kept(v, w, x)
    ensures Kept(u, w, x)
  {
    hide Held, Times, Replies, Left;
  }

  lemma StateKeeps(v: Session, w: Session, x: nat)
    requires w == v.(index := w.index, state := w.state)
    ensures Kept(v, w, x)
  {
    hide Held, Times, Replies, Left;
  }

  lemma HandlesKeep(v: Session, hs: seq<Handle>, x: nat)
    requires Held(hs, x) == Held(v.handles, x) && (Distinct(v.handles) ==> Distinct(hs))
    ensures Kept(v, v.(handles := hs), x)
  {
    hide Held, Times, Replies, Left;
  }

  lemma EntryKeeps(c: Hooks, v: Session, x: nat)
    ensures Kept(v, OnEntry(c, v), x)
  {
    hide Kept, Held, WithAdds, Responded;
    var e := c.entry(v);
    var w := v.(handles := WithAdds(v.handles, e.adds));
    AddsKeep(v.handles, e.adds, x);
    HandlesKeep(v, w.handles, x);
    RespondedKeeps(c, w, x);
    StateKeeps(w, w, x);
    var y := if e.respond then Responded(c, w) else w;
    KeptThrough(v, w, y, x);
    StateKeeps(y, y.(state := StateOf(e.next)), x);
    KeptThrough(v, y, y.(state := StateOf(e.next)), x);
  }

  lemma {:induction false} QueriesCarryNothing(log: seq<Sent>, hs: seq<Handle>, x: nat)
    ensures Replies(log + Queries(hs)) == Replies(log) && Left(log + Queries(hs), x) == Left(log, x)
    decreases |hs|
  {
    hide Replies, Left;
    if hs == [] {
      assert log + [] == log;
    } else {
      var n := |hs| - 1;
      var m := QueryReq(hs[n].kind, hs[n].id, hs[n].version, hs[n].needLock);
      QueriesCarryNothing(log, hs[..n], x);
      assert log + (Queries(hs[..n]) + [m]) == log + Queries(hs[..n]) + [m];
      LogGrows(log + Queries(hs[..n]), m, x);
    }
  }

  lemma ReadyKeeps(v: Session, x: nat)
    ensures Kept(v, IfReady(v), x)
  {
    hide Kept;
    StateKeeps(v, IfReady(v), x);
  }

  lemma QueryKeeps(v: Session, x: nat)
    ensures Kept(v, OnQuery(v), x)
  {
    hide Held, Times, Replies, Left, Queries;
    var w := v.(log := v.log + Queries(v.handles));
    QueriesCarryNothing(v.log, v.handles, x);
    assert Kept(v, w, x);
    hide IfReady;
    ReadyKeeps(w, x);
    KeptThrough(v, w, IfReady(w), x);
    StateKeeps(v, v.(state := Finish), x);
  }

  /** An answer is saved in the handle it is for: what it brought is held at most once. */
  lemma SavedKeeps(v: Session, k: nat, empty: bool, x: nat)
    requires k < |v.handles|
    ensures var r := v.response;
            var h := Saved(v.handles[k], r).(empty := empty);
            Kept(v, v.(handles := v.handles[k := h],
                       obtained := v.obtained + (if r.lockId.Some? then [r.lockId.value] else [])), x)
  {
    hide Held, Times, Replies, Left;
    var r := v.response;
    HeldAt(v.handles, k, Saved(v.handles[k], r).(empty := empty), x);
    if r.lockId.Some? { TimesGrows(v.obtained, r.lockId.value, x); } else { assert v.obtained + [] == v.obtained; }
  }

  lemma QueryMessageKeeps(c: Hooks, v: Session, x: nat)
    ensures Kept(v, OnQueryMessage(c, v), x)
  {
    hide Kept, IfReady, Failed;
    var r := v.response;
    FailedKeeps(c, v, DbQueryFailed, x);
    ReadyKeeps(v, x);
    var k := Find(v.handles, r.kind, r.id);
    if k < |v.handles| {
      var h := Saved(v.handles[k], r);
      var ids := if r.lockId.Some? then [r.lockId.value] else [];
      var w := v.(handles := v.handles[k := h], obtained := v.obtained + ids);
      SavedKeeps(v, k, h.empty, x);
      FailedKeeps(c, w, DbParse, x);
      KeptThrough(v, w, Failed(c, w, DbParse), x);
      var y := w.(handles := v.handles[k := h.(empty := false)]);
      SavedKeeps(v, k, false, x);
      ReadyKeeps(y, x);
      KeptThrough(v, y, IfReady(y), x);
    }
  }

  lemma SuccessKeeps(c: Hooks, v: Session, x: nat)
    requires v.index < |v.handles|
    ensures Kept(v, OnSuccess(c, v), x)
  {
    hide Kept, Held, Responded;
    var d := c.success(v);
    var h := v.handles[v.index].(empty := d.empty);
    var w := v.(handles := v.handles[v.index := h]);
    FlagKeeps(v.handles, v.index, h, x);
    HandlesKeep(v, w.handles, x);
    RespondedKeeps(c, w, x);
    StateKeeps(w, w, x);
    var y := if d.respond then Responded(c, w) else w;
    KeptThrough(v, w, y, x);
    StateKeeps(y, OnSuccess(c, v), x);
    KeptThrough(v, y, OnSuccess(c, v), x);
  }

  /** The lock an update takes along leaves the handle. */
  lemma UpdateKeeps(v: Session, x: nat)
    requires v.index < |v.handles|
    ensures var h := v.handles[v.index];
            var w := v.(handles := v.handles[v.index := h.(lockId := None)]);
            && Kept(v, w, x)
            && Kept(v, w.(log := v.log + [UpdateReq(h.kind, h.id, h.version, h.lockId)],
                       state := Wait(Db(UpdateOp))), x)
  {
    hide Held, Times, Replies, Left;
    var h := v.handles[v.index];
    HeldAt(v.handles, v.index, h.(lockId := None), x);
    LogGrows(v.log, UpdateReq(h.kind, h.id, h.version, h.lockId), x);
  }

  lemma RequestKeeps(v: Session, m: Sent, op: Op, x: nat)
    requires m.InsertReq? || m.DeleteReq?
    ensures Kept(v, v.(log := v.log + [m], state := Wait(Db(op))), x)
  {
    hide Held, Times, Replies, Left;
    LogGrows(v.log, m, x);
  }

  lemma BeginKeeps(c: Hooks, v: Session, op: Op, x: nat)
    ensures Kept(v, OnBegin(c, v, op), x)
  {
    hide Kept, Failed;
    if v.index >= |v.handles| {
      StateKeeps(v, OnBegin(c, v, op), x);
    } else {
      var h := v.handles[v.index];
      RequestKeeps(v, InsertReq(h.kind, h.id), op, x);
      RequestKeeps(v, DeleteReq(h.kind, h.id), op, x);
      UpdateKeeps(v, x);
      var w := v.(handles := v.handles[v.index := h.(lockId := None)]);
      FailedKeeps(c, w, DbFailed(op), x);
      KeptThrough(v, w, Failed(c, w, DbFailed(op)), x);
      StateKeeps(w, w.(state := Success(op)), x);
      KeptThrough(v, w, w.(state := Success(op)), x);
    }
  }

  lemma TurnKeeps(c: Hooks, v: Session, x: nat)
    requires !v.state.Wait? && !v.state.Finish? && CursorInRange(v)
    ensures Kept(v, Turn(c, v), x)
  {
    hide OnEntry, OnQuery, OnQueryMessage, OnSuccess, OnBegin, Failed, FailedInternally, Kept;
    EntryKeeps(c, v, x);
    match v.state {
      case Query => QueryKeeps(v, x);
      case QuerySuccess => SuccessKeeps(c, v, x);
      case Begin(op) => BeginKeeps(c, v, op, x);
      case Next => StateKeeps(v, OnNext(v), x);
      case Success(_) => StateKeeps(v, Turn(c, v), x);
      case Timeout(p) =>
        FailedKeeps(c, v, HttpTimeout, x);
        FailedKeeps(c, v, ConfTimeout, x);
        FailedKeeps(c, v, CurlTimeout, x);
        FailedKeeps(c, v, DbQueryTimeout, x);
        if p.Db? { FailedKeeps(c, v, DbTimeout(p.op), x); }
      case Message(p) =>
        QueryMessageKeeps(c, v, x);
        if p.Db? {
          FailedKeeps(c, v, DbFailed(p.op), x);
          StateKeeps(v, v.(state := Success(p.op)), x);
        }
      case _ =>
    }
  }

  // ---- which records have been answered ------------------------------------

  predicate OnlyRobotAnswered(hs: seq<Handle>) {
    forall k :: 0 <= k < |hs| && hs[k].finished ==> hs[k].kind.RobotData?
  }

  lemma ReadyExactly(v: Session)
    ensures var w := IfReady(v);
            && (w.state.QuerySuccess? <==> AllFinished(v.handles)) && (w.state.QuerySuccess? ==> w.index == 0)
            && (!w.state.QuerySuccess? ==> w.state == Wait(DbQuery)) && w.handles == v.handles
  {
  }

  /** Answers for other data end the session. */
  lemma OnlyRobotDataSucceeds(c: Hooks, v: Session)
    requires v.state == Message(DbQuery) && CursorInRange(v) && OnlyRobotAnswered(v.handles)
    ensures var w := Turn(c, v);
            && (w.state.Finish? || OnlyRobotAnswered(w.handles))
            && (w.state.QuerySuccess? ==> forall k :: 0 <= k < |w.handles| ==> w.handles[k].kind.RobotData?)
  {
    hide IfReady, Failed;
    var r := v.response;
    FailedMoves(c, v, DbQueryFailed);
    var k := Find(v.handles, r.kind, r.id);
    if k == |v.handles| {
      ReadyExactly(v);
    } else {
      var h := Saved(v.handles[k], r);
      var ids := if r.lockId.Some? then [r.lockId.value] else [];
      var w := v.(handles := v.handles[k := h], obtained := v.obtained + ids);
      FailedMoves(c, w, DbParse);
      ReadyExactly(w.(handles := v.handles[k := h.(empty := false)]));
    }
  }

  lemma {:induction false} AddsKeepRobots(hs: seq<Handle>, adds: seq<Add>)
    requires OnlyRobotAnswered(hs)
    ensures OnlyRobotAnswered(WithAdds(hs, adds))
    decreases |adds|
  {
    if adds != [] {
      assert OnlyRobotAnswered(WithAdd(hs, adds[0]));
      hide WithAdd;
      AddsKeepRobots(WithAdd(hs, adds[0]), adds[1..]);
    }
  }

  /** No more changes in a handle than its lock and whether there is anything to save. */
  predicate SameAnswers(hs: seq<Handle>, gs: seq<Handle>) {
    && |hs| == |gs|
    && forall k :: 0 <= k < |hs| ==> gs[k].kind == hs[k].kind && gs[k].finished == hs[k].finished
  }

  lemma SuccessKeepsAnswers(c: Hooks, v: Session)
    requires v.index < |v.handles|
    ensures SameAnswers(v.handles, OnSuccess(c, v).handles)
  {
    hide Responded;
    RespondedMoves(c, v.(handles := v.handles[v.index := v.handles[v.index].(empty := c.success(v).empty)]));
  }

  lemma BeginKeepsAnswers(c: Hooks, v: Session, op: Op)
    ensures SameAnswers(v.handles, OnBegin(c, v, op).handles)
  {
    hide Failed;
    if v.index < |v.handles| {
      FailedMoves(c, v.(handles := v.handles[v.index := v.handles[v.index].(lockId := None)]), DbFailed(op));
    }
  }

  lemma OthersKeepAnswered(c: Hooks, v: Session)
    requires !v.state.Wait? && !v.state.Finish? && CursorInRange(v)
             && Phase(v.state) != 2 && v.state != Message(DbQuery)
    ensures SameAnswers(v.handles, Turn(c, v).handles)
  {
    hide OnSuccess, OnBegin, OnTimeout, Failed, FailedInternally, Queries, AllFinished;
    match v.state {
      case QuerySuccess => SuccessKeepsAnswers(c, v);
      case Begin(op) => BeginKeepsAnswers(c, v, op);
      case Message(p) => FailedMoves(c, v, DbFailed(p.op));
      case Timeout(p) => TimeoutMoves(c, v, p);
      case _ =>
    }
  }

  lemma TimeoutMoves(c: Hooks, v: Session, p: Peer)
    ensures var w := OnTimeout(c, v, p); w.state.Finish? && w.handles == v.handles
  {
    hide Failed, FailedInternally;
    FailedMoves(c, v, HttpTimeout);
    FailedMoves(c, v, ConfTimeout);
    FailedMoves(c, v, CurlTimeout);
    FailedMoves(c, v, DbQueryTimeout);
    if p.Db? { FailedMoves(c, v, DbTimeout(p.op)); }
  }

  /** Every turn either ends the session or leaves only robot data answered. */
  lemma TurnKeepsRobots(c: Hooks, v: Session)
    requires !v.state.Wait? && !v.state.Finish? && CursorInRange(v) && OnlyRobotAnswered(v.handles)
    ensures var w := Turn(c, v); w.state.Finish? || OnlyRobotAnswered(w.handles)
  {
    if Phase(v.state) == 2 {
      hide WithAdds, Responded;
      var e := c.entry(v);
      AddsKeepRobots(v.handles, e.adds);
      RespondedMoves(c, v.(handles := WithAdds(v.handles, e.adds)));
    } else if v.state == Message(DbQuery) {
      hide Turn;
      OnlyRobotDataSucceeds(c, v);
    } else {
      hide Turn;
      OthersKeepAnswered(c, v);
    }
  }

  // ---- whole runs ----------------------------------------------------------

  /** Between two messages a session waits, with the cursor where the next message needs it and no
    live timer but its own, or it is gone with none; lock id x is accounted for, its records are
    distinct, and those answered are robot data. */
  ghost predicate Sound(v: Session, x: nat) {
    && CursorInRange(v) && OneReply(v) && Accounted(v, x) && Distinct(v.handles)
    && (v.released || (v.state.Wait? && OnlyRobotAnswered(v.handles)))
    && v.live == (if !v.released && v.timer.Some? then {v.timer.value} else {})
  }

  /** While the loop runs the session has no timer. */
  ghost predicate Running(v: Session, x: nat) {
    && CursorInRange(v) && OneReply(v) && Accounted(v, x) && Distinct(v.handles)
    && (v.state.Finish? || OnlyRobotAnswered(v.handles))
    && !v.released && v.timer.None? && v.live == {}
  }

  lemma {:induction false} UnlocksLeave(log: seq<Sent>, hs: seq<Handle>, x: nat)
    ensures Replies(log + Unlocks(hs)) == Replies(log) && Left(log + Unlocks(hs), x) <= Left(log, x) + Held(hs, x)
    decreases |hs|
  {
    hide Replies, Left;
    if hs == [] {
      assert log + [] == log;
    } else {
      var n := |hs| - 1;
      UnlocksLeave(log, hs[..n], x);
      var h := hs[n];
      if h.needLock && h.lockId.Some? {
        var m := UnlockNotify(h.kind, h.id, h.lockId.value);
        assert log + (Unlocks(hs[..n]) + [m]) == log + Unlocks(hs[..n]) + [m];
        LogGrows(log + Unlocks(hs[..n]), m, x);
      } else {
        assert Unlocks(hs[..n]) + [] == Unlocks(hs[..n]);
      }
    }
  }

  lemma FinishedSound(c: Hooks, v: Session, x: nat)
    requires Running(v, x)
    ensures Sound(Dropped(Finished(c, v)), x)
  {
    hide Held, Times, Replies, Left, Unlocks;
    UnlocksLeave(v.log, v.handles, x);
    LogGrows(v.log + Unlocks(v.handles), Reply(true, v.clientError), x);
    LogGrows(v.log + Unlocks(v.handles), Reply(false, v.serverError), x);
  }

  lemma TurnRuns(c: Hooks, v: Session, x: nat)
    requires Running(v, x) && !v.state.Wait? && !v.state.Finish?
    ensures Running(Turn(c, v), x)
  {
    hide Turn, Held, Times, Replies, Left, OnlyRobotAnswered, Distinct;
    TurnMoves(c, v);
    TurnKeeps(c, v, x);
    TurnKeepsRobots(c, v);
  }

  /** The loop stops with its timer set, if one could be created, or with the session gone. */
  lemma {:induction false} RunSound(c: Hooks, v: Session, spare: Option<nat>, x: nat)
    requires Running(v, x)
    ensures var w := Run(c, v, spare); Sound(w, x) && (w.released || w.timer == spare)
    decreases Phase(v.state), Remaining(v), Rank(v.state)
  {
    if v.state.Wait? {
      hide Turn, Held, Times, Replies, Left;
    } else if v.state.Finish? {
      hide Turn;
      FinishedSound(c, v, x);
    } else {
      TurnMoves(c, v);
      TurnRuns(c, v, x);
      hide Turn, Running, Sound;
      RunSound(c, Turn(c, v), spare, x);
    }
  }

  lemma OpenSound(c: Hooks, client: bool, spare: Option<nat>, x: nat)
    ensures var w := Open(c, client, spare); Sound(w, x) && (w.released || w.timer == spare)
  {
    hide Run;
    RunSound(c, Opened(client), spare, x);
  }

  lemma ReceiveSound(c: Hooks, v: Session, e: Event, spare: Option<nat>, x: nat)
    requires Sound(v, x)
    ensures var w := Receive(c, v, e, spare); Sound(w, x) && (w.released || w.timer == v.timer || w.timer == spare)
  {
    hide Run, Held, Times, Replies, Left, Distinct, OnlyRobotAnswered;
    if !v.released && Starts(v, e) {
      RunSound(c, Started(v, e), spare, x);
    }
  }

  ghost predicate AllSound(v: Session) {
    CursorInRange(v) && forall x: nat :: Sound(v, x)
  }

  /** What a caller sees of a session between two messages: at most one reply was sent, it waits or is
    gone, its timer is the only one alive, and no lock id left it more often than it came. */
  ghost predicate Settled(v: Session) {
    && Replies(v.log) <= 1
    && (v.released || v.state.Wait?)
    && v.live == (if !v.released && v.timer.Some? then {v.timer.value} else {})
    && forall x: nat :: Left(v.log, x) <= Times(v.obtained, x)
  }

  lemma AllSoundCursor(v: Session)
    requires AllSound(v)
    ensures CursorInRange(v)
  {
  }

  lemma SoundCursor(v: Session)
    requires Sound(v, 0)
    ensures CursorInRange(v)
  {
  }

  lemma AllSoundSettled(v: Session)
    requires AllSound(v)
    ensures Settled(v)
  {
    hide Held, Times, Replies, Left, Distinct, OnlyRobotAnswered;
    assert Sound(v, 0);
    forall x: nat
      ensures Left(v.log, x) <= Times(v.obtained, x)
    {
      assert Sound(v, x);
    }
  }

  lemma OpenSettles(c: Hooks, client: bool, spare: Option<nat>)
    ensures var w := Open(c, client, spare); AllSound(w) && Settled(w) && (w.released || w.timer == spare)
  {
    hide Open, Sound, Settled;
    forall x: nat
      ensures Sound(Open(c, client, spare), x)
    {
      OpenSound(c, client, spare, x);
    }
    OpenSound(c, client, spare, 0);
    SoundCursor(Open(c, client, spare));
    AllSoundSettled(Open(c, client, spare));
  }

  /** Every message keeps a session sound for all lock ids. */
  lemma ReceiveSettles(c: Hooks, v: Session, e: Event, spare: Option<nat>)
    requires AllSound(v)
    ensures var w := Receive(c, v, e, spare);
            AllSound(w) && Settled(w) && (w.released || w.timer == v.timer || w.timer == spare)
  {
    hide Receive, Sound, Settled;
    var w := Receive(c, v, e, spare);
    forall x: nat
      ensures Sound(w, x)
    {
      assert Sound(v, x);
      ReceiveSound(c, v, e, spare, x);
    }
    assert Sound(v, 0);
    ReceiveSound(c, v, e, spare, 0);
    SoundCursor(w);
    AllSoundSettled(w);
  }

  /** One message of a session's life: what the derived class decides on it, which may depend on all
    that came with it, and a timer id the manager could give. */
  datatype Arrival = Arrival(event: Event, hooks: Hooks, spare: Option<nat>)

  /** A session's life: it is opened, and then messages come. */
  function Life(c: Hooks, client: bool, first: Option<nat>, events: seq<Arrival>): (v: Session)
    ensures Sound(v, 0)
    decreases |events|
  {
    if events == [] then
      OpenSound(c, client, first, 0);
      Open(c, client, first)
    else
      var n := |events| - 1;
      var v := Life(c, client, first, events[..n]);
      ReceiveSound(events[n].hooks, v, events[n].event, events[n].spare, 0);
      Receive(events[n].hooks, v, events[n].event, events[n].spare)
  }

  lemma {:induction false} LifeSound(c: Hooks, client: bool, first: Option<nat>, events: seq<Arrival>, x: nat)
    ensures Sound(Life(c, client, first, events), x)
    decreases |events|
  {
    hide Sound, Receive, Open;
    if events == [] {
      OpenSound(c, client, first, x);
    } else {
      var n := |events| - 1;
      LifeSound(c, client, first, events[..n], x);
      ReceiveSound(events[n].hooks, Life(c, client, first, events[..n]), events[n].event, events[n].spare, x);
    }
  }

  /** Timer creation never failed. */
  ghost predicate TimersGiven(first: Option<nat>, events: seq<Arrival>) {
    first.Some? && forall k :: 0 <= k < |events| ==> events[k].spare.Some?
  }

  lemma {:induction false} LifeTimed(c: Hooks, client: bool, first: Option<nat>, events: seq<Arrival>)
    requires TimersGiven(first, events)
    ensures var v := Life(c, client, first, events); v.released || v.timer.Some?
    decreases |events|
  {
    hide Receive, Open, Held, Times, Replies, Left, Distinct, OnlyRobotAnswered;
    if events == [] {
      OpenSound(c, client, first, 0);
    } else {
      var n := |events| - 1;
      var a := events[n];
      assert a.spare.Some? && forall k :: 0 <= k < n ==> events[..n][k] == events[k];
      LifeTimed(c, client, first, events[..n]);
      var v := Life(c, client, first, events[..n]);
      ReceiveSound(a.hooks, v, a.event, a.spare, 0);
      if v.released { GoneStays(a.hooks, v, a.event, a.spare); }
    }
  }

  lemma GoneStays(c: Hooks, v: Session, e: Event, spare: Option<nat>)
    requires v.released && CursorInRange(v)
    ensures Receive(c, v, e, spare) == v
  {
  }

  /** Over every whole run: at most one reply; at most one live timer, and exactly one while waiting if
    creation succeeds; no lock id leaves more often than it was obtained; no record is there twice; only
    robot data is answered while the session lives; and the cursor is in range. */
  lemma EveryLife(c: Hooks, client: bool, first: Option<nat>, events: seq<Arrival>, x: nat)
    ensures var v := Life(c, client, first, events);
            && Replies(v.log) <= 1 && Left(v.log, x) <= Times(v.obtained, x)
            && |v.live| <= 1
            && (v.released ==> v.live == {})
            && (!v.released ==> v.state.Wait? && OnlyRobotAnswered(v.handles))
            && (!v.released && TimersGiven(first, events) ==> |v.live| == 1)
            && (!v.released && (v.state.peer.Db? || v.state.peer.DbQuery?) ==> v.index < |v.handles|)
            && Distinct(v.handles)
  {
    LifeSound(c, client, first, events, x);
    if TimersGiven(first, events) { LifeTimed(c, client, first, events); }
    hide Life, Held, Times, Replies, Left, Distinct, OnlyRobotAnswered;
  }

  // ---- what the query-success handler sees ---------------------------------

  /** The states that follow the query phase. */
  predicate AfterQuery(s: State) {
    || s.QuerySuccess? || s.Next? || s == Begin(UpdateOp) || s == Success(UpdateOp)
    || s == Wait(Db(UpdateOp)) || s == Message(Db(UpdateOp))
  }

  predicate Queried(v: Session) {
    AfterQuery(v.state) ==> AllFinished(v.handles)
  }

  /** A request or message handler goes straight to an update only when every record is answered. */
  predicate AsksFirst(c: Hooks, v: Session) {
    Phase(v.state) == 2 && c.entry(v).next == ToBegin(UpdateOp) ==> AllFinished(OnEntry(c, v).handles)
  }

  /** The query phase is not skipped by a turn exactly when its handler asks first. */
  lemma TurnKeepsQueried(c: Hooks, v: Session)
    requires !v.state.Wait? && !v.state.Finish? && CursorInRange(v) && Queried(v)
    ensures Queried(Turn(c, v)) <==> AsksFirst(c, v)
  {
    if Phase(v.state) == 2 {
      hide WithAdds, Responded, AllFinished;
    } else if v.state.Query? {
      hide Turn;
      QueryExactly(c, v);
    } else if v.state == Message(DbQuery) {
      hide Turn;
      AnswerExactly(c, v);
    } else {
      OthersKeepAnswered(c, v);
      OthersGoOn(c, v);
      SameFinished(v.handles, Turn(c, v).handles);
      hide Turn, SameAnswers, AllFinished;
    }
  }

  lemma OthersGoOn(c: Hooks, v: Session)
    requires !v.state.Wait? && !v.state.Finish? && CursorInRange(v)
    requires Phase(v.state) != 2 && !v.state.Query? && v.state != Message(DbQuery)
    ensures AfterQuery(Turn(c, v).state) ==> AfterQuery(v.state)
  {
    hide OnBegin, OnSuccess, OnTimeout, Failed, FailedInternally;
    match v.state {
      case QuerySuccess => SuccessMoves(c, v);
      case Begin(op) => BeginMoves(c, v, op);
      case Message(p) => FailedMoves(c, v, DbFailed(p.op));
      case Timeout(p) => TimeoutMoves(c, v, p);
      case _ =>
    }
  }

  predicate AnsweredRobots(hs: seq<Handle>) {
    forall k :: 0 <= k < |hs| ==> hs[k].finished && hs[k].kind.RobotData?
  }

  /** Whenever the query-success handler is called in one run of the loop, all records are answered robot data. */
  ghost predicate SeesAnswered(c: Hooks, v: Session)
    requires CursorInRange(v)
    decreases Phase(v.state), Remaining(v), Rank(v.state)
  {
    if v.state.Wait? || v.state.Finish? then true
    else
      TurnMoves(c, v);
      (v.state.QuerySuccess? ==> AnsweredRobots(v.handles)) && SeesAnswered(c, Turn(c, v))
  }

  lemma LaterPhase(c: Hooks, v: Session)
    requires !v.state.Wait? && !v.state.Finish? && CursorInRange(v)
    ensures Phase(Turn(c, v).state) != 2
  {
    hide OnQuery, OnQueryMessage, OnSuccess, OnBegin, OnNext, OnTimeout, OnDbMessage, Responded, WithAdds;
    if Phase(v.state) != 2 { TurnMoves(c, v); }
  }

  lemma {:induction false} RunSeesAnswered(c: Hooks, v: Session, spare: Option<nat>)
    requires CursorInRange(v) && Queried(v) && AsksFirst(c, v) && (v.state.Finish? || OnlyRobotAnswered(v.handles))
    ensures SeesAnswered(c, v) && Queried(Run(c, v, spare))
    decreases Phase(v.state), Remaining(v), Rank(v.state)
  {
    if v.state.Wait? {
      hide Turn;
    } else if v.state.Finish? {
      hide Turn;
      FinishStays(c, v);
    } else {
      TurnMoves(c, v);
      TurnKeepsQueried(c, v);
      TurnKeepsRobots(c, v);
      LaterPhase(c, v);
      hide Turn, Lower;
      assert Lower(Turn(c, v), v) by { TurnMoves(c, v); }
      RunStep(c, v, spare);
      RunSeesAnswered(c, Turn(c, v), spare);
    }
  }

  lemma FinishStays(c: Hooks, v: Session)
    requires v.state.Finish?
    ensures Dropped(Finished(c, v)).state.Finish?
  {
  }

  /** One unfolding of the loop. */
  lemma RunStep(c: Hooks, v: Session, spare: Option<nat>)
    requires CursorInRange(v) && !v.state.Wait? && !v.state.Finish?
    ensures CursorInRange(Turn(c, v)) && Run(c, v, spare) == Run(c, Turn(c, v), spare)
    ensures SeesAnswered(c, v) <==>
              (v.state.QuerySuccess? ==> AnsweredRobots(v.handles)) && SeesAnswered(c, Turn(c, v))
  {
    TurnMoves(c, v);
    hide Turn;
  }

  /** In every run of the loop in this life the handlers ask first. */
  ghost predicate LifeAsksFirst(c: Hooks, client: bool, first: Option<nat>, events: seq<Arrival>)
    decreases |events|
  {
    if events == [] then AsksFirst(c, Opened(client))
    else
      var n := |events| - 1;
      var v := Life(c, client, first, events[..n]);
      && LifeAsksFirst(c, client, first, events[..n])
      && (!v.released && Starts(v, events[n].event) ==> AsksFirst(events[n].hooks, Started(v, events[n].event)))
  }

  ghost predicate LifeSeesAnswered(c: Hooks, client: bool, first: Option<nat>, events: seq<Arrival>)
    decreases |events|
  {
    if events == [] then SeesAnswered(c, Opened(client))
    else
      var n := |events| - 1;
      var v := Life(c, client, first, events[..n]);
      && LifeSeesAnswered(c, client, first, events[..n])
      && (!v.released && Starts(v, events[n].event) ==> SeesAnswered(events[n].hooks, Started(v, events[n].event)))
  }

  lemma StartKeepsQueried(v: Session, e: Event)
    requires Starts(v, e) && Queried(v)
    ensures Queried(Started(v, e))
  {
    hide AllFinished;
  }

  lemma OpenSeesAnswered(c: Hooks, client: bool, spare: Option<nat>)
    requires AsksFirst(c, Opened(client))
    ensures SeesAnswered(c, Opened(client)) && Queried(Open(c, client, spare))
  {
    hide Run, SeesAnswered, AsksFirst, Turn;
    RunSeesAnswered(c, Opened(client), spare);
  }

  lemma ReceiveSeesAnswered(c: Hooks, v: Session, e: Event, spare: Option<nat>)
    requires Sound(v, 0) && Queried(v)
    requires !v.released && Starts(v, e) ==> AsksFirst(c, Started(v, e))
    ensures !v.released && Starts(v, e) ==> SeesAnswered(c, Started(v, e))
    ensures Queried(Receive(c, v, e, spare))
  {
    hide Run, SeesAnswered, Held, Times, Replies, Left, Distinct, AllFinished, OnlyRobotAnswered, AsksFirst;
    if !v.released && Starts(v, e) {
      StartKeepsQueried(v, e);
      RunSeesAnswered(c, Started(v, e), spare);
    }
  }

  /** While handlers ask first, the query-success handler only ever sees answered robot data. */
  lemma {:induction false} EveryVisitAnswered(c: Hooks, client: bool, first: Option<nat>, events: seq<Arrival>)
    requires LifeAsksFirst(c, client, first, events)
    ensures LifeSeesAnswered(c, client, first, events)
    ensures Queried(Life(c, client, first, events))
    decreases |events|
  {
    hide Receive, Open, Opened, SeesAnswered, Sound, Queried, AsksFirst, Starts, Started;
    if events == [] {
      OpenSeesAnswered(c, client, first);
    } else {
      var n := |events| - 1;
      var v, a := Life(c, client, first, events[..n]), events[n];
      EveryVisitAnswered(c, client, first, events[..n]);
      ReceiveSeesAnswered(a.hooks, v, a.event, a.spare);
    }
  }

  lemma StoppedSees(c: Hooks, v: Session)
    requires CursorInRange(v) && (v.state.Wait? || v.state.Finish?)
    ensures SeesAnswered(c, v)
  {
  }

  /** An update that sent nothing moves on to the next record, answered or not. */
  lemma EmptyUpdateGoesOn(c: Hooks, v: Session)
    requires v.state == Success(UpdateOp) && !AllFinished(v.handles)
    ensures SeesAnswered(c, v) <==> v.index + 1 >= |v.handles|
  {
    hide SeesAnswered, AllFinished;
    var next := v.(state := Next);
    RunStep(c, v, None);
    RunStep(c, next, None);
    var w := OnNext(next);
    if w.state.Finish? {
      StoppedSees(c, w);
    } else {
      RunStep(c, w, None);
      assert AllFinished(w.handles) || !AnsweredRobots(w.handles) by { UnansweredSomewhere(w.handles); }
    }
  }

  lemma UnansweredSomewhere(hs: seq<Handle>)
    ensures AnsweredRobots(hs) ==> AllFinished(hs)
  {
  }

  /** Straight to an update without asking: the loop shows the query-success handler a record that was
    never answered exactly when there is one, the record under the cursor is robot data with nothing to
    save, and it is not the last. */
  lemma UpdateFirstExactly(c: Hooks, v: Session)
    requires v.state == Begin(UpdateOp) && OnlyRobotAnswered(v.handles)
    ensures SeesAnswered(c, v) <==>
              AllFinished(v.handles) || v.index + 1 >= |v.handles|
              || !v.handles[v.index].kind.RobotData? || !v.handles[v.index].empty
  {
    if AllFinished(v.handles) {
      RunSeesAnswered(c, v, None);
    } else {
      hide SeesAnswered;
      var w := Turn(c, v);
      RunStep(c, v, None);
      UpdateBegins(c, v);
      hide Turn;
      if w.state == Success(UpdateOp) {
        EmptyUpdateGoesOn(c, w);
      } else {
        StoppedSees(c, w);
      }
    }
  }

  lemma SameFinished(hs: seq<Handle>, gs: seq<Handle>)
    requires SameAnswers(hs, gs)
    ensures |gs| == |hs| && (AllFinished(gs) <==> AllFinished(hs))
  {
  }

  lemma UpdateBegins(c: Hooks, v: Session)
    requires v.state == Begin(UpdateOp)
    ensures var w := Turn(c, v);
            && w.index == v.index && |w.handles| == |v.handles|
            && (AllFinished(w.handles) <==> AllFinished(v.handles))
            && (w.state == Success(UpdateOp) || w.state.Wait? || w.state.Finish?)
            && (w.state == Success(UpdateOp) <==>
                  v.index < |v.handles| && v.handles[v.index].kind.RobotData? && v.handles[v.index].empty)
  {
    BeginKeepsAnswers(c, v, UpdateOp);
    BeginMoves(c, v, UpdateOp);
    hide Failed, SameAnswers, Lower;
    if v.index < |v.handles| {
      FailedMoves(c, v.(handles := v.handles[v.index := v.handles[v.index].(lockId := None)]), DbFailed(UpdateOp));
    }
    assert SameAnswers(v.handles, Turn(c, v).handles);
    SameFinished(v.handles, Turn(c, v).handles);
  }

  /** A handler that adds a robot's record and a user's, and goes straight to an update: the
    query-success handler is shown the user's record, which was never asked for. */
  lemma StraightToUpdate(c: Hooks)
    requires c.entry(Opened(true)) == Entry([AddQuery(RobotData, 1), AddQuery(UserData, 2)], false, ToBegin(UpdateOp))
    ensures !SeesAnswered(c, Opened(true))
  {
    hide SeesAnswered;
    var v, e := Opened(true), c.entry(Opened(true));
    var first := Handle(RobotData, 1, false, false, None, None, true);
    var second := Handle(UserData, 2, false, false, None, None, true);
    assert e.adds[1..] == [AddQuery(UserData, 2)] && e.adds[1..][1..] == [];
    assert WithAdd([], e.adds[0]) == [first];
    assert Find([first], UserData, 2) == 1;
    assert WithAdd([first], AddQuery(UserData, 2)) == [first, second];
    assert WithAdds([], e.adds) == [first, second];
    var w := Turn(c, v);
    RunStep(c, v, None);
    assert w.handles == [first, second] && w.state == Begin(UpdateOp) && w.index == 0;
    UpdateFirstExactly(c, w);
  }

  // ---- the query phase and the end -----------------------------------------

  /** The query phase reaches the query-success handler exactly when there are records and all are
    answered already; it gives up only when there are none left. */
  lemma QueryExactly(c: Hooks, v: Session)
    requires v.state.Query?
    ensures var w := Turn(c, v);
            && w.handles == v.handles
            && (w.state.Finish? <==> v.index >= |v.handles|)
            && (w.state.QuerySuccess? <==> v.index < |v.handles| && AllFinished(v.handles))
            && (w.state.QuerySuccess? ==> w.index == 0)
            && (w.state.QuerySuccess? || w.state.Finish? || w.state == Wait(DbQuery))
  {
    hide Queries, IfReady, AllFinished;
    ReadyExactly(v.(log := v.log + Queries(v.handles)));
  }

  /** An answer reaches the query-success handler exactly when it is good and it was the last one missing. */
  lemma AnswerExactly(c: Hooks, v: Session)
    requires v.state == Message(DbQuery) && CursorInRange(v)
    ensures var w := Turn(c, v);
            var k := Find(v.handles, v.response.kind, v.response.id);
            && (w.state.Finish? <==> !v.response.ok || (k < |v.handles| && !v.response.kind.RobotData?))
            && (w.state.QuerySuccess? <==>
                  !w.state.Finish? && forall j :: 0 <= j < |v.handles| && j != k ==> v.handles[j].finished)
            && (w.state.QuerySuccess? ==> AllFinished(w.handles) && w.index == 0 && w.handles != [])
            && (w.state.QuerySuccess? || w.state.Finish? || w.state == Wait(DbQuery))
  {
    hide IfReady, Failed;
    var r := v.response;
    FailedMoves(c, v, DbQueryFailed);
    var k := Find(v.handles, r.kind, r.id);
    if k == |v.handles| {
      ReadyExactly(v);
    } else {
      var h := Saved(v.handles[k], r);
      var ids := if r.lockId.Some? then [r.lockId.value] else [];
      var w := v.(handles := v.handles[k := h], obtained := v.obtained + ids);
      FailedMoves(c, w, DbParse);
      var hs := v.handles[k := h.(empty := false)];
      ReadyExactly(w.(handles := hs));
      assert forall j :: 0 <= j < |hs| ==> hs[j].finished == (j == k || v.handles[j].finished);
    }
  }

  lemma DbAnswerExactly(c: Hooks, v: Session, op: Op)
    requires v.state == Message(Db(op)) && CursorInRange(v)
    ensures var w, h := Turn(c, v), v.handles[v.index];
            && (w.state == Success(op) <==> v.response.ok && v.response.kind == h.kind && v.response.id == h.id)
            && (w.state != Success(op) ==> w.state.Finish?)
  {
    hide Failed;
    FailedMoves(c, v, DbFailed(op));
  }

  /** A request that is waited for names the record under the cursor, and its success handler is reached
    exactly by a good answer for that very record. */
  lemma RequestAndAnswer(c: Hooks, v: Session, op: Op, r: Response)
    requires v.state == Begin(op)
    ensures var w := Turn(c, v);
            w.state.Wait? ==>
              && w.state == Wait(Db(op)) && v.index < |v.handles| && |w.log| == |v.log| + 1 && v.log < w.log
              && var sent := w.log[|v.log|];
                 && (sent.UpdateReq? <==> op.UpdateOp?) && (sent.InsertReq? <==> op.InsertOp?)
                 && (sent.DeleteReq? <==> op.DeleteOp?) && !sent.Reply?
                 && sent.kind == v.handles[v.index].kind && sent.id == v.handles[v.index].id
                 && var answered := Turn(c, w.(response := r, state := Message(Db(op))));
                    && (answered.state == Success(op) <==> r.ok && r.kind == sent.kind && r.id == sent.id)
                    && (answered.state != Success(op) ==> answered.state.Finish?)
  {
    hide Failed, OnDbMessage;
    if v.index < |v.handles| {
      var h := v.handles[v.index];
      FailedMoves(c, v.(handles := v.handles[v.index := h.(lockId := None)]), DbFailed(op));
      var w := Turn(c, v);
      if w.state.Wait? { DbAnswerExactly(c, w.(response := r, state := Message(Db(op))), op); }
    }
  }

  // ---- which records the query-success handler sees ------------------------

  /** The cursor at each call of the query-success handler during one run of the loop. */
  function Visits(c: Hooks, v: Session): seq<nat>
    requires CursorInRange(v)
    decreases Phase(v.state), Remaining(v), Rank(v.state)
  {
    if v.state.Wait? || v.state.Finish? then []
    else
      TurnMoves(c, v);
      (if v.state.QuerySuccess? then [v.index] else []) + Visits(c, Turn(c, v))
  }

  lemma CursorSteps(c: Hooks, v: Session)
    requires Phase(v.state) == 0 && !v.state.Wait? && !v.state.Finish? && CursorInRange(v)
    ensures var w := Turn(c, v);
            && Phase(w.state) == 0 && w.index == (if v.state.Next? then v.index + 1 else v.index)
            && (w.state.QuerySuccess? ==> v.state.Next?)
            && (v.state.QuerySuccess? ==> !w.state.Success?)
  {
    hide OnSuccess, OnBegin, OnNext, OnTimeout;
    match v.state {
      case QuerySuccess => SuccessMoves(c, v);
      case Begin(op) => BeginMoves(c, v, op);
      case _ => OtherMoves(c, v);
    }
  }

  /** Past the query phase, the handler sees the records one after another from the cursor on, none
    twice and none skipped. */
  lemma {:induction false} VisitsInOrder(c: Hooks, v: Session)
    requires Phase(v.state) == 0 && CursorInRange(v)
    ensures var from := if v.state.QuerySuccess? then v.index else v.index + 1;
            forall j :: 0 <= j < |Visits(c, v)| ==> Visits(c, v)[j] == from + j
    decreases Phase(v.state), Remaining(v), Rank(v.state)
  {
    if !v.state.Wait? && !v.state.Finish? {
      TurnMoves(c, v);
      CursorSteps(c, v);
      hide Turn;
      VisitsInOrder(c, Turn(c, v));
    }
  }

  /** From the query phase the handler sees the records from the first one on. */
  lemma QueryVisitsFromFirst(c: Hooks, v: Session)
    requires (v.state.Query? || v.state == Message(DbQuery)) && CursorInRange(v)
    ensures forall j :: 0 <= j < |Visits(c, v)| ==> Visits(c, v)[j] == j
  {
    TurnMoves(c, v);
    if v.state.Query? { QueryExactly(c, v); } else { AnswerExactly(c, v); }
    hide Turn;
    VisitsInOrder(c, Turn(c, v));
  }

  lemma {:induction false} UnlocksAll(hs: seq<Handle>, k: nat)
    requires k < |hs| && hs[k].needLock && hs[k].lockId.Some?
    ensures UnlockNotify(hs[k].kind, hs[k].id, hs[k].lockId.value) in Unlocks(hs)
    decreases |hs|
  {
    if k < |hs| - 1 { UnlocksAll(hs[..|hs| - 1], k); }
  }

  /** A finished session has sent, after everything else, an unlock notice for every handle that asked
    for a lock and still holds one, and then the reply unless it was sent before. */
  lemma FinishUnlocks(c: Hooks, v: Session, spare: Option<nat>)
    requires v.state.Finish? && CursorInRange(v)
    ensures var w := Run(c, v, spare);
            && w.released && v.log + Unlocks(v.handles) <= w.log
            && (w.log != v.log + Unlocks(v.handles) ==>
                  !v.replied && |w.log| == |v.log| + |Unlocks(v.handles)| + 1 && w.log[|w.log| - 1].Reply?)
            && (!v.replied && v.clientRequest && c.respondsToClient ==>
                  w.log[|w.log| - 1] == Reply(true, v.clientError))
            && forall k :: 0 <= k < |v.handles| && v.handles[k].needLock && v.handles[k].lockId.Some? ==>
                 UnlockNotify(v.handles[k].kind, v.handles[k].id, v.handles[k].lockId.value) in w.log
  {
    var w := Run(c, v, spare);
    var u := v.log + Unlocks(v.handles);
    forall k | 0 <= k < |v.handles| && v.handles[k].needLock && v.handles[k].lockId.Some?
      ensures UnlockNotify(v.handles[k].kind, v.handles[k].id, v.handles[k].lockId.value) in w.log
    {
      UnlocksAll(v.handles, k);
      assert UnlockNotify(v.handles[k].kind, v.handles[k].id, v.handles[k].lockId.value) in u;
    }
  }

  // ---- what the messages say -----------------------------------------------

  /** One query request for every record, in order. */
  lemma {:induction false} QueriesExactly(hs: seq<Handle>, k: nat)
    ensures |Queries(hs)| == |hs|
    ensures k < |hs| ==> Queries(hs)[k] == QueryReq(hs[k].kind, hs[k].id, hs[k].version, hs[k].needLock)
    decreases |hs|
  {
    if hs != [] { QueriesExactly(hs[..|hs| - 1], if k < |hs| - 1 then k else 0); }
  }

  /** An unlock notice for the records that asked for a lock and hold one, and for no other. */
  lemma {:induction false} UnlocksExactly(hs: seq<Handle>, m: Sent)
    ensures m in Unlocks(hs) <==>
              exists k :: 0 <= k < |hs| && hs[k].needLock && hs[k].lockId.Some?
                          && m == UnlockNotify(hs[k].kind, hs[k].id, hs[k].lockId.value)
    decreases |hs|
  {
    if hs != [] {
      var n := |hs| - 1;
      UnlocksExactly(hs[..n], m);
      assert forall k :: 0 <= k < n ==> hs[..n][k] == hs[k];
      var h := hs[n];
      assert m in Unlocks(hs) <==>
          m in Unlocks(hs[..n]) || (h.needLock && h.lockId.Some? && m == UnlockNotify(h.kind, h.id, h.lockId.value));
      if exists k :: 0 <= k < n && hs[k].needLock && hs[k].lockId.Some?
                     && m == UnlockNotify(hs[k].kind, hs[k].id, hs[k].lockId.value) {
        var k :| 0 <= k < n && hs[k].needLock && hs[k].lockId.Some?
                 && m == UnlockNotify(hs[k].kind, hs[k].id, hs[k].lockId.value);
        assert hs[..n][k] == hs[k];
      }
    }
  }

  /** A record is added once, unanswered, empty and asking for no lock; the others stay as they are. */
  lemma AddedExactly(hs: seq<Handle>, kind: Kind, id: nat)
    ensures var known := exists k :: 0 <= k < |hs| && hs[k].kind == kind && hs[k].id == id;
            Added(hs, kind, id) == if known then hs else hs + [Handle(kind, id, false, false, None, None, true)]
  {
  }

  /** AddInsertData and AddDeleteData add the record like a query; an insertion also says whether it holds
    anything to be saved, and touches no other record. */
  lemma InsertedExactly(hs: seq<Handle>, kind: Kind, id: nat, empty: bool, j: nat)
    requires j < |Added(hs, kind, id)|
    ensures WithAdd(hs, AddQuery(kind, id)) == WithAdd(hs, AddDelete(kind, id)) == Added(hs, kind, id)
    ensures var r, b := WithAdd(hs, AddInsert(kind, id, empty)), Added(hs, kind, id);
            && |r| == |b|
            && r[j] == (if b[j].kind == kind && b[j].id == id
                           && (forall i :: 0 <= i < j ==> b[i].kind != kind || b[i].id != id)
                        then b[j].(empty := empty) else b[j])
  {
    hide Added;
  }

  /** Where a handler's decision leads: which server's answer is waited for, or what is done next. */
  lemma DecisionLeads(c: Hooks, v: Session, r: Response)
    ensures var w, next := OnEntry(c, v), c.entry(v).next;
            && (next.ToHttp? ==> w.state.Wait? && (Starts(w, Answer(r)) <==> r.from == HttpServer))
            && (next.ToConf? ==> w.state.Wait? && (Starts(w, Answer(r)) <==> r.from == ConfigCenter))
            && (next.ToCurl? ==> w.state.Wait? && !Starts(w, Answer(r)))
            && (next.ToQuery? ==> w.state.Query?) && (next.ToFinish? ==> w.state.Finish?)
            && (next.ToBegin? ==> w.state == Begin(next.op))
  {
    hide WithAdds, Responded;
  }

  lemma AnswerIsSaved(c: Hooks, v: Session, k: nat)
    requires v.state == Message(DbQuery) && CursorInRange(v) && v.response.ok && v.response.kind.RobotData?
    requires k == Find(v.handles, v.response.kind, v.response.id) < |v.handles|
    ensures var r, h, w := v.response, v.handles[k], Turn(c, v);
            && |w.handles| == |v.handles|
            && w.handles[k] == h.(finished := true, empty := false,
                                  version := if r.version.Some? then r.version else h.version,
                                  lockId := if r.lockId.Some? then r.lockId else h.lockId)
            && forall j :: 0 <= j < |v.handles| && j != k ==> w.handles[j] == v.handles[j]
  {
    hide AllFinished;
  }

  lemma UpdateSends(c: Hooks, u: Session)
    requires u.state == Begin(UpdateOp) && u.index < |u.handles|
    requires u.handles[u.index].kind.RobotData? && !u.handles[u.index].empty
    ensures var h, w := u.handles[u.index], Turn(c, u);
            && w.state == Wait(Db(UpdateOp)) && w.log == u.log + [UpdateReq(h.kind, h.id, h.version, h.lockId)]
            && w.handles == u.handles[u.index := h.(lockId := None)]
  {
  }

  /** What a good answer for a robot brings is kept for the update: the request for that record carries
    the version and the lock id of the answer, or else those the record had, and gives the lock up. */
  lemma UpdateCarriesAnswer(c: Hooks, v: Session, k: nat, u: Session)
    requires v.state == Message(DbQuery) && CursorInRange(v) && v.response.ok && v.response.kind.RobotData?
    requires k == Find(v.handles, v.response.kind, v.response.id) < |v.handles| == |Turn(c, v).handles|
    requires u.state == Begin(UpdateOp) && u.index < |u.handles|
    requires u.handles[u.index] == Turn(c, v).handles[k]
    ensures var r, h, w := v.response, v.handles[k], Turn(c, u);
            && w.state == Wait(Db(UpdateOp)) && w.handles == u.handles[u.index := u.handles[u.index].(lockId := None)]
            && w.log == u.log + [UpdateReq(r.kind, r.id, if r.version.Some? then r.version else h.version,
                                           if r.lockId.Some? then r.lockId else h.lockId)]
  {
    hide Turn;
    AnswerIsSaved(c, v, k);
    UpdateSends(c, u);
  }

  /** The answers that end a wait: those of the server waited for. */
  lemma StartsExactly(v: Session, r: Response)
    requires v.state.Wait?
    ensures Starts(v, Answer(r)) <==>
              || (v.state.peer == Http && r.from == HttpServer)
              || (v.state.peer == Conf && r.from == ConfigCenter)
              || ((v.state.peer == DbQuery || v.state.peer.Db?) && r.from == DataServer)
    ensures Starts(v, Answer(r)) ==> Started(v, Answer(r)).state == Message(v.state.peer)
    ensures Starts(v, TimerFires) ==> Started(v, TimerFires).state == Timeout(v.state.peer)
  {
  }

  // ---- the record that gets locked -----------------------------------------

  /** Mark the record asked for, and no other. */
  function MarkNamed(hs: seq<Handle>, kind: Kind, id: nat): seq<Handle> {
    var k := Find(hs, kind, id);
    if k < |hs| then hs[k := hs[k].(needLock := true)] else hs
  }

  lemma FindInLonger(hs: seq<Handle>, kind: Kind, id: nat, h: Handle)
    requires Find(hs, kind, id) == |hs| && h.kind == kind && h.id == id
    ensures Find(hs + [h], kind, id) == |hs|
  {
    var k := Find(hs + [h], kind, id);
    assert (hs + [h])[|hs|] == h;
    assert forall j :: 0 <= j < |hs| ==> (hs + [h])[j] == hs[j];
  }

  /** AddQueryDataAndLock locks the record asked for, and nothing else, exactly when that record was not
    added before, or was the last one added, or there was nothing left to mark. */
  lemma LocksTheNamedIff(hs: seq<Handle>, kind: Kind, id: nat)
    ensures var k := Find(hs, kind, id);
            AddedAndLocked(hs, kind, id) == MarkNamed(Added(hs, kind, id), kind, id)
            <==> k == |hs| || k == |hs| - 1 || (hs[k].needLock && hs[|hs| - 1].needLock)
  {
    var k := Find(hs, kind, id);
    var n := |hs|;
    if k == n {
      FindInLonger(hs, kind, id, Handle(kind, id, false, false, None, None, true));
    } else if k < n - 1 {
      var locked, named := AddedAndLocked(hs, kind, id), MarkNamed(hs, kind, id);
      assert locked[k] == hs[k] && named[k].needLock && locked[n - 1].needLock && named[n - 1] == hs[n - 1];
      if hs[k].needLock && hs[n - 1].needLock {
        assert locked == hs && named == hs;
      }
    }
  }

  /** Asked for again, the first of two records: the second gets the lock. */
  lemma WrongRecordLocked()
    ensures var first := Handle(RobotData, 1, false, false, None, None, true);
            var second := Handle(RobotData, 2, false, false, None, None, true);
            AddedAndLocked([first, second], RobotData, 1) == [first, second.(needLock := true)]
  {
  }
}
