/** What the sessions of SessionMachine answer: which reply is sent, to whom, and with which error. */
module SessionReplies {
  import opened Common
  import opened SessionMachine

  function RepliesIn(log: seq<Sent>): seq<Sent> {
    if log == [] then []
    else
      var last := log[|log| - 1];
      RepliesIn(log[..|log| - 1]) + (if last.Reply? then [last] else [])
  }

  /** What goes wrong in a turn: a peer that did not answer in time, a bad answer to a query or one of a
    type that cannot be saved, a bad answer to a request or one for another record, a record of a type
    that cannot be updated. */
  predicate GoesWrong(v: Session, e: Error) {
    match v.state
    case Timeout(Http) => e == HttpTimeout
    case Timeout(Conf) => e == ConfTimeout
    case Timeout(Curl) => e == CurlTimeout
    case Timeout(DbQuery) => e == DbQueryTimeout
    case Timeout(Db(op)) => e == DbTimeout(op)
    case Message(DbQuery) =>
      if v.response.ok then
        && e == DbParse && !v.response.kind.RobotData?
        && exists k :: 0 <= k < |v.handles| && v.handles[k].kind == v.response.kind && v.handles[k].id == v.response.id
      else e == DbQueryFailed
    case Message(Db(op)) =>
      && e == DbFailed(op) && v.index < |v.handles|
      && var h := v.handles[v.index];
         !(v.response.ok && v.response.kind == h.kind && v.response.id == h.id)
    case Begin(op) =>
      && e == DbFailed(op) && op.UpdateOp? && v.index < |v.handles| && !v.handles[v.index].kind.RobotData?
    case _ => false
  }

  /** The reply of a session: to the client that asked, else to the server that did, if there is a
    response type for it.  Clients are told every error but that of a curl request, servers only that. */
  function Told(c: Hooks, v: Session, e: Option<Error>): seq<Sent> {
    if v.clientRequest && c.respondsToClient then [Reply(true, if e == Some(CurlTimeout) then None else e)]
    else if v.serverRequest && c.respondsToServer then [Reply(false, if e == Some(CurlTimeout) then e else None)]
    else []
  }

  predicate NoError(v: Session) {
    v.clientError == None && v.serverError == None
  }

  /** A handler of a derived class sends the reply in this turn. */
  predicate Responds(c: Hooks, v: Session) {
    (Phase(v.state) == 2 && c.entry(v).respond) || (v.state.QuerySuccess? && c.success(v).respond)
  }

  lemma RepliesGrow(log: seq<Sent>, m: Sent)
    ensures RepliesIn(log + [m]) == RepliesIn(log) + (if m.Reply? then [m] else [])
  {
    assert (log + [m])[..|log|] == log;
  }

  lemma {:induction false} NoRepliesIn(log: seq<Sent>, more: seq<Sent>)
    requires forall m :: m in more ==> !m.Reply?
    ensures RepliesIn(log + more) == RepliesIn(log)
    decreases |more|
  {
    if more == [] {
      assert log + more == log;
    } else {
      var n := |more| - 1;
      assert log + more == log + more[..n] + [more[n]];
      RepliesGrow(log + more[..n], more[n]);
      assert RepliesIn(log) + [] == RepliesIn(log);
      NoRepliesIn(log, more[..n]);
    }
  }

  lemma {:induction false} UnlocksAreNoReplies(hs: seq<Handle>)
    ensures forall m :: m in Unlocks(hs) ==> !m.Reply?
    decreases |hs|
  {
    if hs != [] { UnlocksAreNoReplies(hs[..|hs| - 1]); }
  }

  lemma {:induction false} QueriesAreNoReplies(hs: seq<Handle>)
    ensures forall m :: m in Queries(hs) ==> !m.Reply?
    decreases |hs|
  {
    if hs != [] { QueriesAreNoReplies(hs[..|hs| - 1]); }
  }

  /** SendResponse: the first time, the reply that is due. */
  lemma RespondedTells(c: Hooks, v: Session, e: Option<Error>)
    requires v.clientError == (if e == Some(CurlTimeout) then None else e) || !(v.clientRequest && c.respondsToClient)
    requires v.serverError == (if e == Some(CurlTimeout) then e else None) || !(v.serverRequest && c.respondsToServer)
    ensures var w := Responded(c, v);
            && w.log == v.log + (if v.replied then [] else Told(c, v, e))
            && w.replied == (v.replied || Told(c, v, e) != [])
            && w == v.(log := w.log, replied := w.replied)
  {
    assert v.log + [] == v.log;
  }

  /** What a turn leaves alone. */
  ghost predicate SameSession(v: Session, w: Session) {
    w.clientRequest == v.clientRequest && w.serverRequest == v.serverRequest && w.released == v.released
  }

  /** A turn in which something goes wrong ends the session; what it will be told is settled. */
  ghost predicate EndsWith(c: Hooks, v: Session, w: Session, e: Error) {
    && w.state.Finish? && w.log == v.log && w.replied == v.replied && SameSession(v, w)
    && (v.clientRequest && c.respondsToClient ==> w.clientError == if e == CurlTimeout then None else Some(e))
    && (v.serverRequest && c.respondsToServer ==> w.serverError == if e == CurlTimeout then Some(e) else None)
  }

  lemma FailedEnds(c: Hooks, v: Session, e: Error)
    requires NoError(v)
    ensures e != CurlTimeout ==> EndsWith(c, v, Failed(c, v, e), e)
    ensures e == CurlTimeout ==> EndsWith(c, v, FailedInternally(c, v, e), e)
  {
  }

  lemma TroubleEnds(c: Hooks, v: Session, e: Error)
    requires !v.state.Wait? && !v.state.Finish? && CursorInRange(v) && NoError(v) && GoesWrong(v, e)
    ensures EndsWith(c, v, Turn(c, v), e)
  {
    hide Failed, FailedInternally, EndsWith, IfReady;
    FailedEnds(c, v, e);
    if v.state == Message(DbQuery) && v.response.ok {
      var r := v.response;
      var k := Find(v.handles, r.kind, r.id);
      var ids := if r.lockId.Some? then [r.lockId.value] else [];
      var w := v.(handles := v.handles[k := Saved(v.handles[k], r)], obtained := v.obtained + ids);
      FailedEnds(c, w, e);
      assert EndsWith(c, v, Failed(c, w, e), e) by { SameForBoth(c, v, w, Failed(c, w, e), e); }
    } else if v.state == Begin(UpdateOp) {
      var w := v.(handles := v.handles[v.index := v.handles[v.index].(lockId := None)]);
      FailedEnds(c, w, e);
      assert EndsWith(c, v, Failed(c, w, e), e) by { SameForBoth(c, v, w, Failed(c, w, e), e); }
    }
  }

  lemma SameForBoth(c: Hooks, v: Session, u: Session, w: Session, e: Error)
    requires u == v.(handles := u.handles, obtained := u.obtained) && EndsWith(c, u, w, e)
    ensures EndsWith(c, v, w, e)
  {
  }

  /** In any other turn no error is set, and nothing is replied unless a handler asks for it. */
  ghost predicate Quiet(c: Hooks, v: Session, w: Session) {
    && NoError(w) && SameSession(v, w)
    && RepliesIn(w.log) == RepliesIn(v.log) + (if Responds(c, v) && !v.replied then Told(c, v, None) else [])
    && w.replied == (v.replied || (Responds(c, v) && Told(c, v, None) != []))
  }

  ghost predicate AllRight(v: Session) {
    forall e :: !GoesWrong(v, e)
  }

  lemma TimeoutGoesWrong(v: Session, p: Peer)
    requires v.state == Timeout(p)
    ensures !AllRight(v)
  {
    var e := match p
      case Http => HttpTimeout
      case Conf => ConfTimeout
      case Curl => CurlTimeout
      case DbQuery => DbQueryTimeout
      case Db(op) => DbTimeout(op);
    assert GoesWrong(v, e);
  }

  lemma SilentTurn(c: Hooks, v: Session, w: Session, more: seq<Sent>)
    requires !Responds(c, v) && NoError(v)
    requires w.log == v.log + more && forall m :: m in more ==> !m.Reply?
    requires w.clientError == v.clientError && w.serverError == v.serverError && w.replied == v.replied
    requires SameSession(v, w)
    ensures Quiet(c, v, w)
  {
    NoRepliesIn(v.log, more);
    assert RepliesIn(v.log) + [] == RepliesIn(v.log);
  }

  lemma SpokenTurn(c: Hooks, v: Session, u: Session, respond: bool, state: State)
    requires NoError(v) && respond == Responds(c, v) && u == v.(handles := u.handles)
    ensures Quiet(c, v, (if respond then Responded(c, u) else u).(state := state))
  {
    RespondedTells(c, u, None);
    assert RepliesIn(v.log) + [] == RepliesIn(v.log);
    if Told(c, v, None) != [] { RepliesGrow(v.log, Told(c, v, None)[0]); }
    assert v.log + [] == v.log;
  }

  lemma QuietEntry(c: Hooks, v: Session)
    requires Phase(v.state) == 2 && NoError(v)
    ensures Quiet(c, v, OnEntry(c, v))
  {
    hide Quiet, Responded, WithAdds;
    var e := c.entry(v);
    SpokenTurn(c, v, v.(handles := WithAdds(v.handles, e.adds)), e.respond, StateOf(e.next));
  }

  lemma QuietSuccess(c: Hooks, v: Session)
    requires v.state.QuerySuccess? && v.index < |v.handles| && NoError(v)
    ensures Quiet(c, v, OnSuccess(c, v))
  {
    hide Quiet, Responded;
    var d := c.success(v);
    var u := v.(handles := v.handles[v.index := v.handles[v.index].(empty := d.empty)]);
    SpokenTurn(c, v, u, d.respond, if d.finish then Finish else if d.op.Some? then Begin(d.op.value) else Next);
  }

  lemma QuietQuery(c: Hooks, v: Session)
    requires v.state.Query? && NoError(v)
    ensures Quiet(c, v, OnQuery(v))
  {
    hide Quiet, Queries, AllFinished;
    if v.index < |v.handles| {
      QueriesAreNoReplies(v.handles);
      SilentTurn(c, v, OnQuery(v), Queries(v.handles));
    } else {
      assert v.log + [] == v.log;
      SilentTurn(c, v, OnQuery(v), []);
    }
  }

  lemma QuietBegin(c: Hooks, v: Session, op: Op)
    requires v.state == Begin(op) && NoError(v) && AllRight(v)
    ensures Quiet(c, v, OnBegin(c, v, op))
  {
    assert op.UpdateOp? && v.index < |v.handles| ==> v.handles[v.index].kind.RobotData? by {
      assert !GoesWrong(v, DbFailed(op));
    }
    hide Quiet, Failed, AllRight, GoesWrong;
    var w := OnBegin(c, v, op);
    assert v.log + [] == v.log;
    if |w.log| > |v.log| {
      SilentTurn(c, v, w, [w.log[|v.log|]]);
    } else {
      SilentTurn(c, v, w, []);
    }
  }

  lemma QuietAnswer(c: Hooks, v: Session)
    requires v.state == Message(DbQuery) && CursorInRange(v) && NoError(v) && AllRight(v)
    ensures Quiet(c, v, OnQueryMessage(c, v))
  {
    var r := v.response;
    var k := Find(v.handles, r.kind, r.id);
    assert r.ok by { assert !GoesWrong(v, DbQueryFailed); }
    assert k < |v.handles| ==> r.kind.RobotData? by { assert !GoesWrong(v, DbParse); }
    hide Quiet, AllFinished, Saved, GoesWrong, AllRight, Failed, IfReady;
    assert v.log + [] == v.log;
    ReadyIsSilent(v);
    if k < |v.handles| {
      var h := Saved(v.handles[k], r).(empty := false);
      var ids := if r.lockId.Some? then [r.lockId.value] else [];
      ReadyIsSilent(v.(handles := v.handles[k := h], obtained := v.obtained + ids));
    }
    SilentTurn(c, v, OnQueryMessage(c, v), []);
  }

  lemma ReadyIsSilent(v: Session)
    ensures IfReady(v) == v.(index := IfReady(v).index, state := IfReady(v).state)
  {
  }

  lemma QuietRequest(c: Hooks, v: Session, op: Op)
    requires v.state == Message(Db(op)) && CursorInRange(v) && NoError(v) && AllRight(v)
    ensures Quiet(c, v, OnDbMessage(c, v, op))
  {
    assert !GoesWrong(v, DbFailed(op));
    hide Quiet, Failed;
    assert v.log + [] == v.log;
    SilentTurn(c, v, OnDbMessage(c, v, op), []);
  }

  lemma QuietTurn(c: Hooks, v: Session)
    requires !v.state.Wait? && !v.state.Finish? && CursorInRange(v) && NoError(v) && AllRight(v)
    ensures Quiet(c, v, Turn(c, v))
  {
    hide OnEntry, OnQuery, OnQueryMessage, OnSuccess, OnBegin, OnDbMessage, OnTimeout, Quiet, AllRight, GoesWrong;
    match v.state {
      case Query => QuietQuery(c, v);
      case QuerySuccess => QuietSuccess(c, v);
      case Begin(op) => QuietBegin(c, v, op);
      case Message(p) =>
        match p {
          case DbQuery => QuietAnswer(c, v);
          case Db(op) => QuietRequest(c, v, op);
          case _ => QuietEntry(c, v);
        }
      case Timeout(p) => TimeoutGoesWrong(v, p);
      case Next => QuietMove(c, v, OnNext(v));
      case Success(op) => QuietMove(c, v, v.(state := if op.UpdateOp? then Next else Finish));
      case _ => QuietEntry(c, v);
    }
  }

  lemma QuietMove(c: Hooks, v: Session, w: Session)
    requires NoError(v) && !Responds(c, v) && w == v.(index := w.index, state := w.state)
    ensures Quiet(c, v, w)
  {
    assert v.log + [] == v.log;
    SilentTurn(c, v, w, []);
  }

  // ---- whole runs of the loop ----------------------------------------------

  /** What goes wrong first, if anything does, before the loop stops. */
  ghost function Trouble(c: Hooks, v: Session): Option<Error>
    requires CursorInRange(v)
    decreases Phase(v.state), Remaining(v), Rank(v.state)
  {
    if v.state.Wait? || v.state.Finish? then None
    else if !AllRight(v) then
      var e :| GoesWrong(v, e);
      Some(e)
    else
      TurnMoves(c, v);
      Trouble(c, Turn(c, v))
  }

  /** Whether a handler sends the reply before the loop stops. */
  ghost predicate Early(c: Hooks, v: Session)
    requires CursorInRange(v)
    decreases Phase(v.state), Remaining(v), Rank(v.state)
  {
    if v.state.Wait? || v.state.Finish? || !AllRight(v) then false
    else
      TurnMoves(c, v);
      Responds(c, v) || Early(c, Turn(c, v))
  }

  lemma TellsTheSame(c: Hooks, v: Session, w: Session, e: Option<Error>)
    requires SameSession(v, w)
    ensures Told(c, w, e) == Told(c, v, e)
  {
  }

  /** The end of a session: unlock notices, and then what is due. */
  lemma FinishTells(c: Hooks, v: Session, e: Option<Error>)
    requires v.state.Finish? && !v.released
    requires v.clientError == (if e == Some(CurlTimeout) then None else e) || !(v.clientRequest && c.respondsToClient)
    requires v.serverError == (if e == Some(CurlTimeout) then e else None) || !(v.serverRequest && c.respondsToServer)
    ensures var w := Dropped(Finished(c, v));
            && w.released
            && w.log == v.log + Unlocks(v.handles) + (if v.replied then [] else Told(c, v, e))
            && RepliesIn(w.log) == RepliesIn(v.log) + (if v.replied then [] else Told(c, v, e))
  {
    hide Unlocks, Responded;
    var u := v.(log := v.log + Unlocks(v.handles));
    UnlocksAreNoReplies(v.handles);
    NoRepliesIn(v.log, Unlocks(v.handles));
    RespondedTells(c, u, e);
    assert RepliesIn(v.log) + [] == RepliesIn(v.log) && u.log + [] == u.log;
    if Told(c, v, e) != [] { RepliesGrow(u.log, Told(c, v, e)[0]); }
  }

  /** A run of the loop in which something goes wrong ends the session, and the last thing it sends is the
    reply with that error, unless it had replied before. */
  lemma TroubleIsTold(c: Hooks, v: Session, spare: Option<nat>, e: Error)
    requires !v.state.Wait? && !v.state.Finish? && CursorInRange(v) && NoError(v) && !v.released && GoesWrong(v, e)
    ensures var w := Run(c, v, spare);
            && w.released
            && RepliesIn(w.log) == RepliesIn(v.log) + (if v.replied then [] else Told(c, v, Some(e)))
            && (!v.replied && Told(c, v, Some(e)) != [] ==> w.log != [] && w.log[|w.log| - 1] == Told(c, v, Some(e))[0])
  {
    TroubleEnds(c, v, e);
    RunStep(c, v, spare);
    var u := Turn(c, v);
    hide Turn, Unlocks, RepliesIn, Finished, Dropped, GoesWrong;
    FinishTells(c, u, Some(e));
    TellsTheSame(c, v, u, Some(e));
    RunEnds(c, u, spare);
  }

  lemma RunEnds(c: Hooks, v: Session, spare: Option<nat>)
    requires CursorInRange(v) && (v.state.Finish? || v.state.Wait?)
    ensures Run(c, v, spare) == if v.state.Wait? then Timed(v, spare) else Dropped(Finished(c, v))
  {
  }

  lemma OneTrouble(v: Session, e: Error, f: Error)
    requires GoesWrong(v, e) && GoesWrong(v, f)
    ensures e == f
  {
  }

  /** What a run of the loop from v to w adds to the replies. */
  ghost function Due(c: Hooks, v: Session, w: Session): seq<Sent>
    requires CursorInRange(v)
  {
    if v.replied then []
    else if Early(c, v) then Told(c, v, None)
    else if w.released then Told(c, v, Trouble(c, v))
    else []
  }

  lemma DueAgain(c: Hooks, v: Session, u: Session, w: Session)
    requires !v.state.Wait? && !v.state.Finish? && CursorInRange(v) && CursorInRange(u) && AllRight(v)
    requires u == Turn(c, v) && Quiet(c, v, u)
    ensures RepliesIn(u.log) + Due(c, u, w) == RepliesIn(v.log) + Due(c, v, w)
    ensures Trouble(c, v) == Trouble(c, u)
    ensures Early(c, v) == (Responds(c, v) || Early(c, u))
  {
    hide Turn, AllRight, Responds;
    assert RepliesIn(v.log) + [] == RepliesIn(v.log);
    assert RepliesIn(v.log) + Told(c, v, None) + [] == RepliesIn(v.log) + Told(c, v, None);
  }

  /** Every run of the loop: a session that has replied replies no more; a handler's own reply carries no
    error; else a session that ends replies with what went wrong first, and with no error if nothing did. */
  lemma {:induction false} RunReplies(c: Hooks, v: Session, spare: Option<nat>)
    requires CursorInRange(v) && NoError(v) && !v.released
    ensures var w := Run(c, v, spare);
            && RepliesIn(w.log) == RepliesIn(v.log) + Due(c, v, w)
            && (!w.released ==> NoError(w) && w.replied == (v.replied || (Early(c, v) && Told(c, v, None) != [])))
            && (!w.released ==> Trouble(c, v) == None)
    decreases Phase(v.state), Remaining(v), Rank(v.state)
  {
    hide Turn, Quiet, RepliesIn, Unlocks, Responded, AllRight, Finished, Dropped;
    if v.state.Wait? || v.state.Finish? {
      RunEnds(c, v, spare);
      assert RepliesIn(v.log) + [] == RepliesIn(v.log);
      if v.state.Finish? { FinishTells(c, v, None); }
    } else if !AllRight(v) {
      var e := WentWrong(v);
      TroubleIsTold(c, v, spare, e);
      TroubleIs(c, v, e);
    } else {
      QuietTurn(c, v);
      TurnMoves(c, v);
      var u := Turn(c, v);
      RunStep(c, v, spare);
      QuietKeeps(c, v, u);
      hide Lower;
      RunReplies(c, u, spare);
      DueAgain(c, v, u, Run(c, v, spare));
    }
  }

  lemma WentWrong(v: Session) returns (e: Error)
    requires !AllRight(v)
    ensures GoesWrong(v, e)
  {
    e :| GoesWrong(v, e);
  }

  lemma TroubleIs(c: Hooks, v: Session, e: Error)
    requires CursorInRange(v) && !v.state.Wait? && !v.state.Finish? && GoesWrong(v, e)
    ensures Trouble(c, v) == Some(e) && !Early(c, v)
  {
    assert !AllRight(v);
    OneTrouble(v, e, Trouble(c, v).value);
  }

  lemma QuietKeeps(c: Hooks, v: Session, u: Session)
    requires Quiet(c, v, u)
    ensures NoError(u) && u.released == v.released && Told(c, u, None) == Told(c, v, None)
    ensures u.replied == (v.replied || (Responds(c, v) && Told(c, v, None) != []))
  {
  }

  // ---- whole lives ---------------------------------------------------------

  /** The first thing that went wrong in a session's life, if anything did. */
  ghost function LifeTrouble(c: Hooks, client: bool, first: Option<nat>, events: seq<Arrival>): Option<Error>
    decreases |events|
  {
    if events == [] then Trouble(c, Opened(client))
    else
      var n := |events| - 1;
      var earlier := LifeTrouble(c, client, first, events[..n]);
      var v := Life(c, client, first, events[..n]);
      if earlier.Some? || v.released || !Starts(v, events[n].event) then earlier
      else Trouble(events[n].hooks, Started(v, events[n].event))
  }

  /** Every reply in the log fits: no error, or the error of what went wrong. */
  ghost predicate Fits(log: seq<Sent>, trouble: Option<Error>) {
    forall m :: m in RepliesIn(log) ==> m.Reply? && (m.error == None || m.error == trouble)
  }

  lemma DueFits(c: Hooks, v: Session, w: Session)
    requires CursorInRange(v)
    ensures forall m :: m in Due(c, v, w) ==> m.Reply? && (m.error == None || m.error == Trouble(c, v))
  {
    hide Trouble, Early;
  }

  lemma StartedIsQuiet(v: Session, e: Event)
    requires Starts(v, e) && NoError(v) && CursorInRange(v)
    ensures var u := Started(v, e); NoError(u) && u.released == v.released && u.log == v.log && CursorInRange(u)
  {
  }

  /** Over every whole life a reply carries an error only if that is what went wrong first; a session that
    still waits has had nothing go wrong. */
  lemma {:induction false} EveryLifeReply(c: Hooks, client: bool, first: Option<nat>, events: seq<Arrival>)
    ensures var v := Life(c, client, first, events); var trouble := LifeTrouble(c, client, first, events);
            && Fits(v.log, trouble) && (!v.released ==> NoError(v) && trouble == None)
    decreases |events|
  {
    hide Run, Trouble, Due, Sound, RepliesIn, Turn;
    if events == [] {
      RunReplies(c, Opened(client), first);
      DueFits(c, Opened(client), Open(c, client, first));
      NothingSaid();
    } else {
      var n := |events| - 1;
      var v, a := Life(c, client, first, events[..n]), events[n];
      EveryLifeReply(c, client, first, events[..n]);
      SoundCursor(v);
      ReceiveFits(v, a, LifeTrouble(c, client, first, events[..n]));
    }
  }

  lemma NothingSaid()
    ensures RepliesIn([]) == []
  {
  }

  /** One message: what it adds to the replies fits what went wrong in its run. */
  lemma ReceiveFits(v: Session, a: Arrival, earlier: Option<Error>)
    requires CursorInRange(v) && Fits(v.log, earlier) && (!v.released ==> NoError(v) && earlier == None)
    ensures var w := Receive(a.hooks, v, a.event, a.spare);
            var trouble := if earlier.Some? || v.released || !Starts(v, a.event) then earlier
                           else Trouble(a.hooks, Started(v, a.event));
            && Fits(w.log, trouble) && (!w.released ==> NoError(w) && trouble == None)
  {
    hide Run, Trouble, Due, RepliesIn, Turn;
    if !v.released && Starts(v, a.event) {
      var u := Started(v, a.event);
      StartedIsQuiet(v, a.event);
      RunReplies(a.hooks, u, a.spare);
      DueFits(a.hooks, u, Receive(a.hooks, v, a.event, a.spare));
    }
  }

  /** On a message with which something goes wrong the session is dropped, and the last thing sent is the
    reply with that error, unless it had replied before. */
  ghost predicate TellsTrouble(c: Hooks, v: Session, event: Event, w: Session) {
    forall e :: Starts(v, event) && GoesWrong(Started(v, event), e) ==> ToldOf(c, v, w, e)
  }

  ghost predicate ToldOf(c: Hooks, v: Session, w: Session, e: Error) {
    && w.released
    && (!v.replied && v.clientRequest && c.respondsToClient ==>
          w.log != [] && w.log[|w.log| - 1] == Reply(true, if e == CurlTimeout then None else Some(e)))
    && (!v.replied && !v.clientRequest && v.serverRequest && c.respondsToServer ==>
          w.log != [] && w.log[|w.log| - 1] == Reply(false, if e == CurlTimeout then Some(e) else None))
  }

  /** What is true of a session between two messages: sound for every lock id, and with no error noted. */
  ghost predicate Steady(v: Session) {
    AllSound(v) && (v.released || NoError(v))
  }

  lemma SteadyCursor(v: Session)
    requires Steady(v)
    ensures CursorInRange(v)
  {
    AllSoundCursor(v);
  }

  lemma OpenSteady(c: Hooks, client: bool, spare: Option<nat>)
    ensures var w := Open(c, client, spare); Steady(w) && Settled(w) && (w.released || w.timer == spare)
  {
    hide Run, AllSound, Settled;
    OpenSettles(c, client, spare);
    RunReplies(c, Opened(client), spare);
  }

  lemma ReceiveTells(c: Hooks, v: Session, event: Event, spare: Option<nat>)
    requires CursorInRange(v) && !v.released && NoError(v)
    ensures TellsTrouble(c, v, event, Receive(c, v, event, spare))
  {
    forall e | Starts(v, event) && GoesWrong(Started(v, event), e)
      ensures ToldOf(c, v, Receive(c, v, event, spare), e)
    {
      StartedIsQuiet(v, event);
      StartedForTheSame(c, v, event, e);
      ReceiveStarts(c, v, event, spare);
      hide Run, GoesWrong, Receive, Started, RepliesIn;
      TroubleIsTold(c, Started(v, event), spare, e);
    }
  }

  lemma StartedForTheSame(c: Hooks, v: Session, event: Event, e: Error)
    requires Starts(v, event)
    ensures var u := Started(v, event); u.replied == v.replied && Told(c, u, Some(e)) == Told(c, v, Some(e))
  {
  }

  lemma ReceiveNotesNothing(c: Hooks, v: Session, event: Event, spare: Option<nat>)
    requires CursorInRange(v) && !v.released && NoError(v)
    ensures var w := Receive(c, v, event, spare); w.released || NoError(w)
  {
    hide Run, RepliesIn;
    if Starts(v, event) {
      StartedIsQuiet(v, event);
      RunReplies(c, Started(v, event), spare);
    }
  }

  /** Every message keeps a session steady, and trouble is told. */
  lemma ReceiveSteady(c: Hooks, v: Session, event: Event, spare: Option<nat>)
    requires Steady(v) && !v.released
    ensures var w := Receive(c, v, event, spare);
            && Steady(w) && Settled(w) && (w.released || w.timer == v.timer || w.timer == spare)
            && TellsTrouble(c, v, event, w)
  {
    AllSoundCursor(v);
    hide Receive, AllSound, Settled, TellsTrouble, NoError;
    ReceiveSettles(c, v, event, spare);
    ReceiveTells(c, v, event, spare);
    ReceiveNotesNothing(c, v, event, spare);
  }

  /** A server is not told that the database failed: it gets its reply without an error. */
  lemma FailureHiddenFromServer(c: Hooks, v: Session, spare: Option<nat>)
    requires v.state == Message(DbQuery) && CursorInRange(v) && NoError(v) && !v.released && !v.replied
    requires !v.response.ok
    requires !v.clientRequest && v.serverRequest && c.respondsToServer
    ensures var w := Run(c, v, spare); w.released && w.log != [] && w.log[|w.log| - 1] == Reply(false, None)
  {
    hide Run;
    TroubleIsTold(c, v, spare, DbQueryFailed);
  }
}
