/**
 * The state of the browser extension's bridge controller
 * (`legacy/browser-bridge/bridge-controller.js`) as a value, one transition per handler,
 * and what every run of handlers keeps.
 *
 * The environment is the daemon (sockets), the native host (port messages), timers and
 * stored settings; each of its moves is an event, in any order.
 */
module ControllerModel {
  import opened Wrappers

  const PROCESS_NOT_RUNNING := 103
  const PROTO_INVALID_RESPONSE := 104
  const SOCKET_CLOSED := "Daemon bridge WebSocket disconnected before requests completed."
  const SOCKET_ERROR := "Daemon bridge WebSocket reported an error."
  const CREATE_FAILED := "Failed to create daemon WebSocket: "
  const NATIVE_CLOSED := "Native host disconnected before the helper response completed."
  const CONNECT_FAILED := "Failed to connect native host: "
  const NO_NATIVE_HOST := "Failed to connect native host."
  const WRITE_FAILED := "Native host write failed: "
  const UNEXPECTED := "Native host returned an unexpected response with no pending daemon request."
  const MALFORMED_HELPER := "Native host returned malformed helper payload."

  datatype ReadyState = Connecting | Open | Closing | Closed

  datatype Request = Request(requestId: string, payload: string)

  datatype Body = Payload(value: string) | Failure(code: int, error: string)

  datatype Response = Response(requestId: string, body: Body)

  datatype WireMessage = Hello | Status(error: string) | Reply(response: Response)

  datatype Settings = Settings(host: string, port: nat)

  /** The published state. */
  datatype Shown = Shown(
    host: string, port: nat, websocket: string, nativeHost: string, queueDepth: nat, lastError: Option<string>)

  /**
   * Connections. `sockets` holds the ready state of every socket ever created, `websocket`
   * the index of the controller's own; `loading` counts `start` calls still waiting for the
   * stored settings.
   */
  datatype Link = Link(
    started: bool, loading: nat, settings: Settings,
    sockets: seq<ReadyState>, websocket: Option<nat>, nativePort: bool, timer: bool)

  /**
   * Requests: the queue and the in-flight slot, with logs: requests taken from the daemon;
   * answers handed to `sendResponse`; positions (among the requests taken) of those posted to
   * the native host; and of those posted on the present port that the host has not answered.
   * The host answers in the order of posting and its messages carry no id: `origins` records,
   * for each answer, the position whose answer the host was giving, if it was giving one.
   */
  datatype Core = Core(
    accepted: seq<Request>, replies: seq<Response>, origins: seq<Option<nat>>, posted: seq<nat>, owed: seq<nat>,
    current: Option<Request>, queue: seq<Request>)

  /** `wire` logs what went out, and on which socket. */
  datatype State = State(link: Link, core: Core, shown: Shown, wire: seq<(nat, WireMessage)>)

  /** What calls into the environment do during one handler: throw with a message, or succeed. */
  datatype Env = Env(createError: Option<string>, connectError: Option<string>, postError: Option<string>)

  function Init(): State {
    State(Link(false, 0, Settings("127.0.0.1", 10000), [], None, false, false),
          Core([], [], [], [], [], None, []),
          Shown("127.0.0.1", 10000, "idle", "idle", 0, None), [])
  }

  // ---------- requests ----------

  ghost function Outstanding(c: Core): seq<Request> {
    (if c.current.Some? then [c.current.value] else []) + c.queue
  }

  ghost function Answers(requests: seq<Request>, body: Body): seq<Response> {
    seq(|requests|, i requires 0 <= i < |requests| => Response(requests[i].requestId, body))
  }

  ghost function Accept(c: Core, request: Request): Core {
    c.(queue := c.queue + [request], accepted := c.accepted + [request])
  }

  /** Everything outstanding is answered with one failure, the in-flight request first. */
  ghost function Fail(c: Core, message: string): Core {
    c.(replies := c.replies + Answers(Outstanding(c), Failure(PROCESS_NOT_RUNNING, message)),
       origins := c.origins + Unasked(|Outstanding(c)|), current := None, queue := [])
  }

  /** Answers that the host had no part in. */
  ghost function Unasked(count: nat): seq<Option<nat>> {
    seq(count, _ => None)
  }

  /** What the host's next message answers. */
  ghost function NextOwed(c: Core): Option<nat> {
    if c.owed == [] then None else Some(c.owed[0])
  }

  /** The host has sent a message. */
  ghost function Settle(c: Core): Core {
    if c.owed == [] then c else c.(owed := c.owed[1..])
  }

  /** The port is gone, and with it everything the host still owed on it. */
  ghost function Drop(c: Core): Core {
    c.(owed := [])
  }

  ghost function Answer(c: Core, body: Body): Core
    requires c.current.Some?
  {
    Settle(c).(replies := c.replies + [Response(c.current.value.requestId, body)],
               origins := c.origins + [NextOwed(c)], current := None)
  }

  ghost function Shift(c: Core): Core
    requires c.queue != []
  {
    c.(current := Some(c.queue[0]), queue := c.queue[1..])
  }

  /** Take the next request into the slot and post it. */
  ghost function Dispatch(c: Core): Core
    requires c.queue != []
  {
    Shift(c).(posted := c.posted + [|c.replies|], owed := c.owed + [|c.replies|])
  }

  // ---------- parts of handlers ----------

  ghost function Show(s: State, shown: Shown): State {
    s.(shown := shown.(queueDepth := |Outstanding(s.core)|))
  }

  predicate SocketOpen(l: Link) {
    l.websocket.Some? && l.websocket.value < |l.sockets| && l.sockets[l.websocket.value].Open?
  }

  ghost function OnWire(l: Link, messages: seq<WireMessage>): seq<(nat, WireMessage)> {
    if SocketOpen(l)
    then seq(|messages|, i requires 0 <= i < |messages| => (l.websocket.value, messages[i]))
    else []
  }

  ghost function Send(s: State, message: WireMessage): State {
    s.(wire := s.wire + OnWire(s.link, [message]))
  }

  ghost function Replying(answers: seq<Response>): seq<WireMessage> {
    seq(|answers|, i requires 0 <= i < |answers| => Reply(answers[i]))
  }

  ghost function FailAll(s: State, message: string): State {
    var answers := Answers(Outstanding(s.core), Failure(PROCESS_NOT_RUNNING, message));
    var t := s.(core := Fail(s.core, message), wire := s.wire + OnWire(s.link, Replying(answers)));
    Show(t, t.shown)
  }

  ghost function ConnectNative(s: State, env: Env): State {
    if s.link.nativePort then s
    else if env.connectError.Some? then
      var message := CONNECT_FAILED + env.connectError.value;
      Send(Show(s, s.shown.(nativeHost := "error", lastError := Some(message))), Status(message))
    else Show(s.(link := s.link.(nativePort := true)), s.shown.(nativeHost := "connected", lastError := None))
  }

  ghost predicate CanDispatch(s: State) {
    s.core.current.None? && s.core.queue != [] && SocketOpen(s.link)
  }

  ghost function PostNext(s: State, env: Env): State
    requires s.core.queue != []
  {
    if env.postError.Some? then
      var message := WRITE_FAILED + env.postError.value;
      var taken := s.(core := Shift(s.core));
      FailAll(Send(Show(taken, taken.shown), Status(message)), message)
    else
      var sent := s.(core := Dispatch(s.core));
      Show(sent, sent.shown)
  }

  /** Start the next request if the socket is open and nothing is in flight. */
  ghost function Flush(s: State, env: Env): State {
    if !CanDispatch(s) then Show(s, s.shown)
    else
      var c := ConnectNative(s, env);
      if !c.link.nativePort then FailAll(c, NO_NATIVE_HOST) else PostNext(c, env)
  }

  ghost function ScheduleReconnect(s: State): State {
    s.(link := s.link.(timer := s.link.timer || s.link.started))
  }

  ghost function ConnectWebSocket(s: State, env: Env): State {
    if !s.link.started || s.link.websocket.Some? then s
    else if env.createError.Some? then
      var message := CREATE_FAILED + env.createError.value;
      ScheduleReconnect(Show(s, s.shown.(websocket := "error", lastError := Some(message))))
    else
      Show(s.(link := s.link.(websocket := Some(|s.link.sockets|), sockets := s.link.sockets + [Connecting])),
           s.shown.(websocket := "connecting", lastError := None))
  }

  function Unhook(l: Link): Link {
    if l.websocket.Some? && l.websocket.value < |l.sockets|
       && (l.sockets[l.websocket.value].Connecting? || l.sockets[l.websocket.value].Open?)
    then l.(websocket := None, sockets := l.sockets[l.websocket.value := Closing])
    else l.(websocket := None)
  }

  predicate Truthy(text: Option<string>) {
    text.Some? && text.value != ""
  }

  ghost function DisconnectNative(s: State, runtimeError: Option<string>): State {
    var off := s.(link := s.link.(nativePort := false), core := Drop(s.core));
    if Truthy(runtimeError) then
      var shown := Show(off, off.shown.(nativeHost := "error", lastError := runtimeError));
      FailAll(Send(shown, Status(runtimeError.value)), runtimeError.value)
    else FailAll(Show(off, off.shown.(nativeHost := "disconnected")), NATIVE_CLOSED)
  }

  // ---------- events ----------

  datatype SocketData = Malformed(error: string) | Envelope(request: Request)

  datatype NativeData = NotAnObject | Object(value: string)

  datatype Event =
    | StartBegins
    | StartFinishes(stored: Settings)
    | StartFails
    | Stop
    | UpdateBegins(next: Settings)
    | UpdateFinishes
    | SocketOpens(index: nat)
    | SocketMessage(data: SocketData)
    | SocketError
    | SocketClosing(index: nat)
    | SocketCloses(index: nat)
    | TimerFires
    | NativeMessage(message: NativeData)
    | NativeDisconnects(lastError: Option<string>)

  ghost predicate Enabled(s: State, e: Event) {
    match e
    case StartFinishes(_) => s.link.loading > 0
    case StartFails => s.link.loading > 0
    case SocketOpens(i) => i < |s.link.sockets| && s.link.sockets[i].Connecting?
    case SocketMessage(data) => data.Envelope? ==> data.request.requestId != ""
    case SocketClosing(i) => i < |s.link.sockets| && !s.link.sockets[i].Closed?
    case SocketCloses(i) => i < |s.link.sockets| && !s.link.sockets[i].Closed?
    case TimerFires => s.link.timer
    case _ => true
  }

  ghost function OnStartBegins(s: State): State {
    if s.link.started then s else s.(link := s.link.(started := true, loading := s.link.loading + 1))
  }

  ghost function OnStartFinishes(s: State, stored: Settings, env: Env): State
    requires s.link.loading > 0
  {
    var t := s.(link := s.link.(loading := s.link.loading - 1, settings := stored));
    ConnectWebSocket(Show(t, t.shown.(host := stored.host, port := stored.port)), env)
  }

  ghost function OnStop(s: State): State {
    var t := DisconnectNative(s.(link := s.link.(started := false, timer := false)), None);
    t.(link := Unhook(t.link))
  }

  ghost function OnUpdateFinishes(s: State, env: Env): State {
    var t := Show(s, s.shown.(host := s.link.settings.host, port := s.link.settings.port, lastError := None));
    ConnectWebSocket(t.(link := Unhook(t.link)), env)
  }

  ghost function Greeted(s: State, index: nat): State
    requires index < |s.link.sockets|
  {
    var t := s.(link := s.link.(sockets := s.link.sockets[index := Open], timer := false));
    Send(Show(t, t.shown.(websocket := "connected", lastError := None)), Hello)
  }

  ghost function OnSocketMessage(s: State, data: SocketData, env: Env): State {
    match data
    case Malformed(error) => Send(s, Status(error))
    case Envelope(request) => Flush(s.(core := Accept(s.core, request)), env)
  }

  ghost function OnSocketCloses(s: State, index: nat): State
    requires index < |s.link.sockets|
  {
    var t := s.(link := s.link.(sockets := s.link.sockets[index := Closed], websocket := None));
    ScheduleReconnect(FailAll(Show(t, t.shown.(websocket := "disconnected")), SOCKET_CLOSED))
  }

  ghost function BodyOf(message: NativeData): Body {
    if message.Object? then Payload(message.value) else Failure(PROTO_INVALID_RESPONSE, MALFORMED_HELPER)
  }

  ghost function OnNativeMessage(s: State, message: NativeData, env: Env): State {
    if s.core.current.None? then Send(s.(core := Settle(s.core)), Status(UNEXPECTED))
    else
      var answered := Send(s, Reply(Response(s.core.current.value.requestId, BodyOf(message))));
      Flush(answered.(core := Answer(s.core, BodyOf(message))), env)
  }

  ghost function Step(s: State, e: Event, env: Env): State
    requires Enabled(s, e)
  {
    match e
    case StartBegins => OnStartBegins(s)
    case StartFinishes(stored) => OnStartFinishes(s, stored, env)
    case StartFails => s.(link := s.link.(loading := s.link.loading - 1))
    case Stop => OnStop(s)
    case UpdateBegins(next) => s.(link := s.link.(settings := next))
    case UpdateFinishes => OnUpdateFinishes(s, env)
    case SocketOpens(i) => Flush(Greeted(s, i), env)
    case SocketMessage(data) => OnSocketMessage(s, data, env)
    case SocketError => Show(s, s.shown.(websocket := "error", lastError := Some(SOCKET_ERROR)))
    case SocketClosing(i) => s.(link := s.link.(sockets := s.link.sockets[i := Closing]))
    case SocketCloses(i) => OnSocketCloses(s, i)
    case TimerFires => ConnectWebSocket(s.(link := s.link.(timer := false)), env)
    case NativeMessage(message) => OnNativeMessage(s, message, env)
    case NativeDisconnects(error) => DisconnectNative(s, error)
  }

  type Move = (Event, Env)

  /** The state after a run; a move that is not possible when its turn comes does not happen. */
  ghost function After(run: seq<Move>): State {
    if run == [] then Init()
    else
      var s, m := After(run[..|run| - 1]), run[|run| - 1];
      if Enabled(s, m.0) then Step(s, m.0, m.1) else s
  }

  // ---------- invariants ----------

  /**
   * The requests taken from the daemon are, in order, those answered, the one in flight
   * and those queued; each answer carries the id of the request at its position.
   */
  ghost predicate Conserved(c: Core) {
    && |c.replies| <= |c.accepted|
    && c.accepted[|c.replies|..] == Outstanding(c)
    && forall i :: 0 <= i < |c.replies| ==> c.replies[i].requestId == c.accepted[i].requestId
  }

  /** Requests are posted in order, each at most once; all but the in-flight one have been answered to the daemon. */
  ghost predicate PostedInOrder(c: Core) {
    && (forall i, j :: 0 <= i < j < |c.posted| ==> c.posted[i] < c.posted[j])
    && (forall i :: 0 <= i < |c.posted| ==>
          c.posted[i] < |c.replies| || (c.current.Some? && c.posted[i] == |c.replies|))
  }

  /** The in-flight request has been posted, last of all. */
  ghost predicate InFlightPosted(c: Core) {
    c.current.Some? ==> c.posted != [] && c.posted[|c.posted| - 1] == |c.replies|
  }

  /** A successful answer was only ever given to a request that had been posted. */
  ghost predicate PayloadsWerePosted(c: Core) {
    forall i :: 0 <= i < |c.replies| && c.replies[i].body.Payload? ==> i in c.posted
  }

  /**
   * What the host owes was posted in order and answers requests up to the one in flight; a
   * successful answer was the host's to the same request or to an earlier one.
   */
  ghost predicate OwedInOrder(c: Core) {
    && |c.origins| == |c.replies|
    && (forall i, j :: 0 <= i < j < |c.owed| ==> c.owed[i] < c.owed[j])
    && (forall i :: 0 <= i < |c.owed| ==>
          c.owed[i] < |c.replies| || (c.current.Some? && c.owed[i] == |c.replies|))
    && (forall i :: 0 <= i < |c.replies| && c.replies[i].body.Payload? ==>
          c.origins[i].Some? && c.origins[i].value <= i)
  }

  /** The answer to the in-flight request is owed, last of all. */
  ghost predicate InFlightOwed(c: Core) {
    c.current.Some? ==> c.owed != [] && c.owed[|c.owed| - 1] == |c.replies|
  }

  /** An open socket never leaves a queued request waiting with nothing in flight. */
  ghost predicate NoStall(s: State) {
    SocketOpen(s.link) && s.core.queue != [] ==> s.core.current.Some?
  }

  /** What holds of the logs even while a request is being taken in or out of the slot. */
  ghost predicate Consistent(c: Core) {
    Conserved(c) && PostedInOrder(c) && PayloadsWerePosted(c) && OwedInOrder(c)
  }

  ghost predicate CoreInv(c: Core) {
    Consistent(c) && InFlightPosted(c) && InFlightOwed(c)
  }

  ghost predicate Inv(s: State) {
    && (s.link.websocket.Some? ==> s.link.websocket.value < |s.link.sockets|)
    && (s.core.owed != [] ==> s.link.nativePort)
    && CoreInv(s.core) && NoStall(s)
    && s.shown.queueDepth == |Outstanding(s.core)|
  }

  lemma AcceptKeeps(c: Core, request: Request)
    requires CoreInv(c)
    ensures CoreInv(Accept(c, request))
  {
    var t := Accept(c, request);
    assert t.accepted[|c.replies|..] == c.accepted[|c.replies|..] + [request];
    assert Outstanding(t) == Outstanding(c) + [request];
  }

  lemma FailKeeps(c: Core, message: string)
    requires Consistent(c)
    ensures CoreInv(Fail(c, message)) && Outstanding(Fail(c, message)) == []
    ensures c.replies <= Fail(c, message).replies
  {
    var t := Fail(c, message);
    assert |t.replies| == |c.accepted|;
    assert t.accepted[|t.replies|..] == [];
    forall i | 0 <= i < |t.replies| ensures t.replies[i].requestId == c.accepted[i].requestId {
      if i >= |c.replies| {
        assert c.accepted[i] == c.accepted[|c.replies|..][i - |c.replies|];
      }
    }
  }

  lemma AnswerKeeps(c: Core, body: Body)
    requires CoreInv(c) && c.current.Some?
    ensures CoreInv(Answer(c, body)) && c.replies <= Answer(c, body).replies
  {
    var t := Answer(c, body);
    assert c.accepted[|c.replies|] == c.accepted[|c.replies|..][0] == c.current.value;
    assert t.accepted[|t.replies|..] == c.accepted[|c.replies|..][1..] == c.queue == Outstanding(t);
  }

  lemma ShiftKeeps(c: Core)
    requires CoreInv(c) && c.current.None? && c.queue != []
    ensures Consistent(Shift(c)) && CoreInv(Dispatch(c))
    ensures Outstanding(Shift(c)) == Outstanding(Dispatch(c)) == Outstanding(c)
  {
    assert Outstanding(Shift(c)) == [c.queue[0]] + c.queue[1..] == c.queue == Outstanding(c);
  }

  /** What flushing does to the requests. */
  ghost function FlushCore(s: State, env: Env): Core {
    if !CanDispatch(s) then s.core
    else if !s.link.nativePort && env.connectError.Some? then Fail(s.core, NO_NATIVE_HOST)
    else if env.postError.Some? then Fail(Shift(s.core), WRITE_FAILED + env.postError.value)
    else Dispatch(s.core)
  }

  /** ... and to the connections: at most, a native port is opened. */
  lemma FlushEffect(s: State, env: Env)
    ensures var t := Flush(s, env);
      && t.core == FlushCore(s, env)
      && t.link == s.link.(nativePort := t.link.nativePort)
      && (s.link.nativePort ==> t.link.nativePort)
      && (t.core.owed != s.core.owed ==> t.link.nativePort)
      && t.shown.queueDepth == |Outstanding(t.core)|
  {
  }

  /** Flushing turns a state that may be stalled into one that is not. */
  lemma FlushEstablishes(s: State, env: Env)
    requires CoreInv(s.core) && (s.link.websocket.Some? ==> s.link.websocket.value < |s.link.sockets|)
    requires s.core.owed != [] ==> s.link.nativePort
    ensures Inv(Flush(s, env)) && s.core.replies <= Flush(s, env).core.replies
  {
    FlushEffect(s, env);
    if CanDispatch(s) {
      ShiftKeeps(s.core);
      FailKeeps(s.core, NO_NATIVE_HOST);
      if env.postError.Some? {
        FailKeeps(Shift(s.core), WRITE_FAILED + env.postError.value);
      }
    }
  }

  lemma FailAllEstablishes(s: State, message: string)
    requires Consistent(s.core) && (s.link.websocket.Some? ==> s.link.websocket.value < |s.link.sockets|)
    requires s.core.owed != [] ==> s.link.nativePort
    ensures Inv(FailAll(s, message)) && s.core.replies <= FailAll(s, message).core.replies
    ensures Outstanding(FailAll(s, message).core) == [] && FailAll(s, message).link == s.link
  {
    FailKeeps(s.core, message);
  }

  lemma DisconnectNativeKeeps(s: State, error: Option<string>)
    requires Inv(s)
    ensures Inv(DisconnectNative(s, error)) && s.core.replies <= DisconnectNative(s, error).core.replies
    ensures Outstanding(DisconnectNative(s, error).core) == []
  {
    var off := s.(link := s.link.(nativePort := false), core := Drop(s.core));
    FailAllEstablishes(Show(off, off.shown.(nativeHost := "disconnected")), NATIVE_CLOSED);
    if Truthy(error) {
      var shown := Show(off, off.shown.(nativeHost := "error", lastError := error));
      FailAllEstablishes(Send(shown, Status(error.value)), error.value);
    }
  }

  lemma SocketClosesKeeps(s: State, index: nat)
    requires Inv(s) && index < |s.link.sockets|
    ensures Inv(OnSocketCloses(s, index)) && s.core.replies <= OnSocketCloses(s, index).core.replies
  {
    var t := s.(link := s.link.(sockets := s.link.sockets[index := Closed], websocket := None));
    FailAllEstablishes(Show(t, t.shown.(websocket := "disconnected")), SOCKET_CLOSED);
  }

  lemma ConnectWebSocketKeeps(s: State, env: Env)
    requires Inv(s)
    ensures Inv(ConnectWebSocket(s, env)) && ConnectWebSocket(s, env).core == s.core
  {
  }

  lemma OnSocketMessageKeeps(s: State, data: SocketData, env: Env)
    requires Inv(s)
    ensures Inv(OnSocketMessage(s, data, env)) && s.core.replies <= OnSocketMessage(s, data, env).core.replies
  {
    if data.Envelope? {
      AcceptKeeps(s.core, data.request);
      FlushEstablishes(s.(core := Accept(s.core, data.request)), env);
    }
  }

  lemma OnNativeMessageKeeps(s: State, message: NativeData, env: Env)
    requires Inv(s)
    ensures Inv(OnNativeMessage(s, message, env)) && s.core.replies <= OnNativeMessage(s, message, env).core.replies
  {
    if s.core.current.Some? {
      AnswerKeeps(s.core, BodyOf(message));
      var answered := Send(s, Reply(Response(s.core.current.value.requestId, BodyOf(message))));
      FlushEstablishes(answered.(core := Answer(s.core, BodyOf(message))), env);
    }
  }

  lemma OnStartFinishesKeeps(s: State, stored: Settings, env: Env)
    requires Inv(s) && s.link.loading > 0
    ensures Inv(OnStartFinishes(s, stored, env)) && OnStartFinishes(s, stored, env).core == s.core
  {
    var t := s.(link := s.link.(loading := s.link.loading - 1, settings := stored));
    ConnectWebSocketKeeps(Show(t, t.shown.(host := stored.host, port := stored.port)), env);
  }

  lemma OnStopKeeps(s: State)
    requires Inv(s)
    ensures Inv(OnStop(s)) && s.core.replies <= OnStop(s).core.replies
  {
    DisconnectNativeKeeps(s.(link := s.link.(started := false, timer := false)), None);
  }

  lemma OnUpdateFinishesKeeps(s: State, env: Env)
    requires Inv(s)
    ensures Inv(OnUpdateFinishes(s, env)) && OnUpdateFinishes(s, env).core == s.core
  {
    var t := Show(s, s.shown.(host := s.link.settings.host, port := s.link.settings.port, lastError := None));
    ConnectWebSocketKeeps(t.(link := Unhook(t.link)), env);
  }

  lemma SocketOpensKeeps(s: State, index: nat, env: Env)
    requires Inv(s) && index < |s.link.sockets|
    ensures Inv(Flush(Greeted(s, index), env)) && s.core.replies <= Flush(Greeted(s, index), env).core.replies
  {
    FlushEstablishes(Greeted(s, index), env);
  }

  lemma LinkOnlyKeeps(s: State, e: Event, env: Env)
    requires Inv(s) && Enabled(s, e)
    requires e.StartBegins? || e.StartFails? || e.UpdateBegins? || e.SocketError? || e.SocketClosing?
    ensures Inv(Step(s, e, env)) && s.core == Step(s, e, env).core
  {
  }

  predicate FromSocket(e: Event) {
    e.SocketOpens? || e.SocketMessage? || e.SocketCloses? || e.TimerFires?
  }

  lemma SocketStepKeeps(s: State, e: Event, env: Env)
    requires Inv(s) && Enabled(s, e) && FromSocket(e)
    ensures Inv(Step(s, e, env)) && s.core.replies <= Step(s, e, env).core.replies
  {
    match e
    case SocketOpens(i) => SocketOpensKeeps(s, i, env);
    case SocketMessage(data) => OnSocketMessageKeeps(s, data, env);
    case SocketCloses(i) => SocketClosesKeeps(s, i);
    case TimerFires => ConnectWebSocketKeeps(s.(link := s.link.(timer := false)), env);
  }

  lemma OtherStepKeeps(s: State, e: Event, env: Env)
    requires Inv(s) && Enabled(s, e) && !FromSocket(e)
    ensures Inv(Step(s, e, env)) && s.core.replies <= Step(s, e, env).core.replies
  {
    match e
    case StartFinishes(stored) => OnStartFinishesKeeps(s, stored, env);
    case Stop => OnStopKeeps(s);
    case UpdateFinishes => OnUpdateFinishesKeeps(s, env);
    case NativeMessage(message) => OnNativeMessageKeeps(s, message, env);
    case NativeDisconnects(error) => DisconnectNativeKeeps(s, error);
    case _ => LinkOnlyKeeps(s, e, env);
  }

  lemma StepKeeps(s: State, e: Event, env: Env)
    requires Inv(s) && Enabled(s, e)
    ensures Inv(Step(s, e, env)) && s.core.replies <= Step(s, e, env).core.replies
  {
    if FromSocket(e) {
      SocketStepKeeps(s, e, env);
    } else {
      OtherStepKeeps(s, e, env);
    }
  }

  /** In every reachable state: conservation, single flight, no stall, true queue depth, no invented success. */
  lemma {:induction false} EveryRunKeeps(run: seq<Move>)
    ensures Inv(After(run))
  {
    if run != [] {
      var before, m := run[..|run| - 1], run[|run| - 1];
      EveryRunKeeps(before);
      if Enabled(After(before), m.0) {
        StepKeeps(After(before), m.0, m.1);
      }
    }
  }

  /** An answer given at some point of a run is there, at the same position, ever after. */
  lemma {:induction false} AnswersAreFinal(run: seq<Move>, point: nat)
    requires point <= |run|
    ensures After(run[..point]).core.replies <= After(run).core.replies
  {
    if point == |run| {
      assert run[..point] == run;
    } else {
      var before, m := run[..|run| - 1], run[|run| - 1];
      assert before[..point] == run[..point];
      AnswersAreFinal(before, point);
      EveryRunKeeps(before);
      if Enabled(After(before), m.0) {
        StepKeeps(After(before), m.0, m.1);
      }
    }
  }

  // ---------- whose answer it is ----------

  /** The host owes an answer to the request in flight and to no other. */
  ghost predicate Aligned(c: Core) {
    c.owed == if c.current.Some? then [|c.replies|] else []
  }

  /** Every successful answer is the host's answer to that very request. */
  ghost predicate OwnAnswers(c: Core) {
    |c.origins| == |c.replies|
    && forall i :: 0 <= i < |c.replies| && c.replies[i].body.Payload? ==> c.origins[i] == Some(i)
  }

  /** The one handler that lets go of the in-flight request while its port stays open. */
  ghost predicate AbandonsInFlight(s: State, e: Event) {
    e.SocketCloses? && s.core.current.Some?
  }

  lemma AlignedAfterFlush(s: State, env: Env)
    ensures Aligned(s.core) ==> Aligned(Flush(s, env).core)
    ensures OwnAnswers(s.core) ==> OwnAnswers(Flush(s, env).core)
  {
    FlushEffect(s, env);
  }

  lemma AlignedAfterAnswer(c: Core, body: Body)
    requires Aligned(c) && c.current.Some?
    ensures Aligned(Answer(c, body))
    ensures OwnAnswers(c) ==> OwnAnswers(Answer(c, body))
  {
  }

  lemma AlignedAfterNative(s: State, message: NativeData, env: Env)
    requires Aligned(s.core)
    ensures Aligned(OnNativeMessage(s, message, env).core)
    ensures OwnAnswers(s.core) ==> OwnAnswers(OnNativeMessage(s, message, env).core)
  {
    if s.core.current.None? {
      assert Settle(s.core) == s.core;
    } else {
      var response := Response(s.core.current.value.requestId, BodyOf(message));
      AlignedAfterAnswer(s.core, BodyOf(message));
      AlignedAfterFlush(Send(s, Reply(response)).(core := Answer(s.core, BodyOf(message))), env);
    }
  }

  lemma AlignedAfterDisconnect(s: State, error: Option<string>)
    ensures Aligned(DisconnectNative(s, error).core)
    ensures OwnAnswers(s.core) ==> OwnAnswers(DisconnectNative(s, error).core)
  {
  }

  lemma AlignedAfterClose(s: State, index: nat)
    requires Aligned(s.core) && index < |s.link.sockets|
    ensures Aligned(OnSocketCloses(s, index).core) <==> s.core.current.None?
    ensures OwnAnswers(s.core) ==> OwnAnswers(OnSocketCloses(s, index).core)
  {
  }

  lemma AlignedAfterMessage(s: State, data: SocketData, env: Env)
    requires Aligned(s.core)
    ensures Aligned(OnSocketMessage(s, data, env).core)
    ensures OwnAnswers(s.core) ==> OwnAnswers(OnSocketMessage(s, data, env).core)
  {
    if data.Envelope? {
      AlignedAfterFlush(s.(core := Accept(s.core, data.request)), env);
    }
  }

  /** Alignment is lost by exactly one step: a socket closes while a request is in flight. */
  lemma AlignmentLostExactly(s: State, e: Event, env: Env)
    requires Aligned(s.core) && Enabled(s, e)
    ensures Aligned(Step(s, e, env).core) <==> !AbandonsInFlight(s, e)
    ensures OwnAnswers(s.core) ==> OwnAnswers(Step(s, e, env).core)
  {
    match e
    case Stop => AlignedAfterDisconnect(s.(link := s.link.(started := false, timer := false)), None);
    case SocketOpens(i) => AlignedAfterFlush(Greeted(s, i), env);
    case SocketMessage(data) => AlignedAfterMessage(s, data, env);
    case SocketCloses(i) => AlignedAfterClose(s, i);
    case NativeMessage(message) => AlignedAfterNative(s, message, env);
    case NativeDisconnects(error) => AlignedAfterDisconnect(s, error);
    case _ =>
  }

  /** In this run no socket closed while a request was in flight. */
  ghost predicate Undisturbed(run: seq<Move>) {
    run != [] ==>
      Undisturbed(run[..|run| - 1])
      && (var s, e := After(run[..|run| - 1]), run[|run| - 1].0; Enabled(s, e) ==> !AbandonsInFlight(s, e))
  }

  /** In such a run the host owes at most one answer, and every success is the answer to its own request. */
  lemma {:induction false} AnswersAreTheirOwn(run: seq<Move>)
    requires Undisturbed(run)
    ensures Aligned(After(run).core) && OwnAnswers(After(run).core)
  {
    if run != [] {
      var before, m := run[..|run| - 1], run[|run| - 1];
      AnswersAreTheirOwn(before);
      if Enabled(After(before), m.0) {
        AlignmentLostExactly(After(before), m.0, m.1);
      }
    }
  }

  lemma OriginsKept(s: State, env: Env)
    ensures s.core.origins <= Flush(s, env).core.origins
  {
    FlushEffect(s, env);
  }

  lemma FirstOwedIsOwnExactly(c: Core)
    requires CoreInv(c) && c.current.Some?
    ensures NextOwed(c) == Some(|c.replies|) <==> |c.owed| == 1
  {
  }

  lemma NativeOrigin(s: State, message: NativeData, env: Env)
    requires s.core.current.Some? && |s.core.origins| == |s.core.replies|
    ensures s.core.origins + [NextOwed(s.core)] <= OnNativeMessage(s, message, env).core.origins
  {
    var answered := Send(s, Reply(Response(s.core.current.value.requestId, BodyOf(message))));
    OriginsKept(answered.(core := Answer(s.core, BodyOf(message))), env);
  }

  /** In any run, the host's next message answers the request in flight exactly when it is all the host owes. */
  lemma NextAnswerIsOwnExactly(run: seq<Move>, message: NativeData, env: Env)
    requires After(run).core.current.Some?
    ensures var c, t := After(run).core, OnNativeMessage(After(run), message, env).core;
      && |c.replies| < |t.origins|
      && (t.origins[|c.replies|] == Some(|c.replies|) <==> |c.owed| == 1)
  {
    EveryRunKeeps(run);
    FirstOwedIsOwnExactly(After(run).core);
    NativeOrigin(After(run), message, env);
  }

  /**
   * It does go wrong: the socket closes while the first request is in flight, a new one brings
   * a second request, and the host's late answer to the first is passed off as a success of
   * the second.
   */
  lemma LateAnswerMisdelivered() returns (run: seq<Move>)
    ensures After(run).core.replies ==
      [Response("r1", Failure(PROCESS_NOT_RUNNING, SOCKET_CLOSED)), Response("r2", Payload("answer to r1"))]
    ensures After(run).core.origins == [None, Some(0)] && After(run).core.owed == [1]
  {
    var env := Env(None, None, None);
    run := RunToSecondRequest();
    var s := After(run);
    var body := Payload("answer to r1");
    run := Extend(run, NativeMessage(Object("answer to r1")), env);
    var answered := Send(s, Reply(Response("r2", body)));
    FlushEffect(answered.(core := Answer(s.core, body)), env);
  }

  lemma RunToFirstRequest() returns (run: seq<Move>)
    ensures After(run).link == Link(true, 0, Settings("127.0.0.1", 10000), [Open], Some(0), true, false)
    ensures After(run).core == Core([Request("r1", "")], [], [], [0], [0], Some(Request("r1", "")), [])
  {
    var env := Env(None, None, None);
    run := RunToConnected();
    var s := After(run);
    run := Extend(run, SocketMessage(Envelope(Request("r1", ""))), env);
    FlushEffect(s.(core := Accept(s.core, Request("r1", ""))), env);
  }

  lemma RunToReconnected() returns (run: seq<Move>)
    ensures After(run).link == Link(true, 0, Settings("127.0.0.1", 10000), [Closed, Open], Some(1), true, false)
    ensures After(run).core == Core([Request("r1", "")], [Response("r1", Failure(PROCESS_NOT_RUNNING, SOCKET_CLOSED))],
                                    [None], [0], [0], None, [])
  {
    var env := Env(None, None, None);
    run := RunToFirstRequest();
    run := Extend(run, SocketCloses(0), env);
    assert [Open][0 := Closed] == [Closed];
    run := Extend(run, TimerFires, env);
    var s := After(run);
    assert s.link == Link(true, 0, Settings("127.0.0.1", 10000), [Closed, Connecting], Some(1), true, false);
    OpeningLink(s, 1, env);
    assert s.link.sockets[1 := Connecting] == s.link.sockets && s.link.sockets[1 := Open] == [Closed, Open];
    run := Extend(run, SocketOpens(1), env);
  }

  lemma RunToSecondRequest() returns (run: seq<Move>)
    ensures After(run).core == Core([Request("r1", ""), Request("r2", "")],
                                    [Response("r1", Failure(PROCESS_NOT_RUNNING, SOCKET_CLOSED))],
                                    [None], [0, 1], [0, 1], Some(Request("r2", "")), [])
    ensures After(run).link.nativePort
  {
    var env := Env(None, None, None);
    run := RunToReconnected();
    var s := After(run);
    run := Extend(run, SocketMessage(Envelope(Request("r2", ""))), env);
    FlushEffect(s.(core := Accept(s.core, Request("r2", ""))), env);
  }

  // ---------- what reaches the daemon ----------

  ghost function RepliesOn(wire: seq<(nat, WireMessage)>): seq<Response> {
    if wire == [] then []
    else
      var last := wire[|wire| - 1].1;
      RepliesOn(wire[..|wire| - 1]) + (if last.Reply? then [last.response] else [])
  }

  ghost predicate Subsequence(a: seq<Response>, b: seq<Response>) {
    a == [] ||
    (b != [] && ((a[|a| - 1] == b[|b| - 1] && Subsequence(a[..|a| - 1], b[..|b| - 1])) || Subsequence(a, b[..|b| - 1])))
  }

  /** The answers on the wire are some of those handed to `sendResponse`, in the same order. */
  ghost predicate WireInOrder(s: State) {
    Subsequence(RepliesOn(s.wire), s.core.replies)
  }

  lemma {:induction false} RepliesOnConcat(a: seq<(nat, WireMessage)>, b: seq<(nat, WireMessage)>)
    ensures RepliesOn(a + b) == RepliesOn(a) + RepliesOn(b)
  {
    if b == [] {
      assert a + b == a;
    } else {
      RepliesOnConcat(a, b[..|b| - 1]);
      assert (a + b)[..|a + b| - 1] == a + b[..|b| - 1];
    }
  }

  lemma {:induction false} RepliesOnAnswers(l: Link, answers: seq<Response>)
    ensures RepliesOn(OnWire(l, Replying(answers))) == if SocketOpen(l) then answers else []
  {
    if SocketOpen(l) && answers != [] {
      var init := answers[..|answers| - 1];
      RepliesOnAnswers(l, init);
      assert OnWire(l, Replying(answers))[..|answers| - 1] == OnWire(l, Replying(init));
    }
  }

  lemma {:induction false} SubsequenceExtends(a: seq<Response>, b: seq<Response>, more: seq<Response>)
    requires Subsequence(a, b)
    ensures Subsequence(a, b + more) && Subsequence(a + more, b + more)
  {
    if more == [] {
      assert a + more == a && b + more == b;
    } else {
      var init := more[..|more| - 1];
      SubsequenceExtends(a, b, init);
      assert (b + more)[..|b + more| - 1] == b + init && (a + more)[..|a + more| - 1] == a + init;
    }
  }

  /** Positions show what a subsequence is: each element is one of the other's, further on than the one before. */
  lemma {:induction false} SubsequencePositions(a: seq<Response>, b: seq<Response>) returns (at: seq<nat>)
    requires Subsequence(a, b)
    ensures |at| == |a| && forall i :: 0 <= i < |at| ==> at[i] < |b| && b[at[i]] == a[i]
    ensures forall i, j :: 0 <= i < j < |at| ==> at[i] < at[j]
    decreases |b|
  {
    if a == [] {
      at := [];
    } else if a[|a| - 1] == b[|b| - 1] && Subsequence(a[..|a| - 1], b[..|b| - 1]) {
      at := SubsequencePositions(a[..|a| - 1], b[..|b| - 1]);
      at := at + [|b| - 1];
    } else {
      at := SubsequencePositions(a, b[..|b| - 1]);
    }
  }

  /** The socket that an answer goes out on, when there is one. */
  function OwnSocket(l: Link): Option<nat> {
    if SocketOpen(l) then l.websocket else None
  }

  /**
   * From one state to a later one: nothing is taken back, everything new on the wire went out
   * on the controller's own socket, and the new answers are on it, all of them and in order, if
   * there is such a socket, or else none.
   */
  ghost predicate Delivers(s: State, t: State, own: Option<nat>) {
    && s.core.replies <= t.core.replies && s.wire <= t.wire
    && RepliesOn(t.wire[|s.wire|..]) == (if own.Some? then t.core.replies[|s.core.replies|..] else [])
    && forall k :: |s.wire| <= k < |t.wire| ==> own == Some(t.wire[k].0)
  }

  lemma NothingDelivered(s: State, t: State, own: Option<nat>)
    requires s.core.replies == t.core.replies && s.wire == t.wire
    ensures Delivers(s, t, own)
  {
    assert t.wire[|s.wire|..] == [] && t.core.replies[|s.core.replies|..] == [];
  }

  lemma DeliversOn(s: State, t: State, u: State, own: Option<nat>)
    requires Delivers(s, t, own) && Delivers(t, u, own)
    ensures Delivers(s, u, own)
  {
    Suffixes(s.wire, t.wire, u.wire);
    Suffixes(s.core.replies, t.core.replies, u.core.replies);
    RepliesOnConcat(t.wire[|s.wire|..], u.wire[|t.wire|..]);
  }

  lemma Suffixes<T>(a: seq<T>, b: seq<T>, c: seq<T>)
    requires a <= b <= c
    ensures a <= c && c[|a|..] == b[|a|..] + c[|b|..]
    ensures forall k :: |a| <= k < |b| ==> c[k] == b[k]
  {
  }

  lemma SendDelivers(s: State, message: WireMessage)
    requires !message.Reply?
    ensures Delivers(s, Send(s, message), OwnSocket(s.link))
  {
    var sent := OnWire(s.link, [message]);
    assert (s.wire + sent)[|s.wire|..] == sent;
    assert s.core.replies[|s.core.replies|..] == [];
    if SocketOpen(s.link) {
      assert sent[..0] == [];
      assert RepliesOn(sent) == [];
    }
  }

  /** Handing answers to `sendResponse` puts all of them on the wire, or none. */
  lemma AnswersDeliver(s: State, t: State, answers: seq<Response>)
    requires t.core.replies == s.core.replies + answers
    requires t.wire == s.wire + OnWire(s.link, Replying(answers))
    ensures Delivers(s, t, OwnSocket(s.link))
  {
    RepliesOnAnswers(s.link, answers);
    assert t.wire[|s.wire|..] == OnWire(s.link, Replying(answers));
    assert t.core.replies[|s.core.replies|..] == answers;
  }

  lemma FailAllDelivers(s: State, message: string)
    ensures Delivers(s, FailAll(s, message), OwnSocket(s.link))
  {
    AnswersDeliver(s, FailAll(s, message), Answers(Outstanding(s.core), Failure(PROCESS_NOT_RUNNING, message)));
  }

  /** A status, then failures for everything outstanding. */
  lemma StatusThenFailures(s: State, t: State, status: string, message: string)
    requires t.core.replies == s.core.replies && t.wire == s.wire && t.link.websocket == s.link.websocket
    requires t.link.sockets == s.link.sockets
    ensures Delivers(s, FailAll(Send(t, Status(status)), message), OwnSocket(s.link))
  {
    NothingDelivered(s, t, OwnSocket(s.link));
    SendDelivers(t, Status(status));
    DeliversOn(s, t, Send(t, Status(status)), OwnSocket(s.link));
    FailAllDelivers(Send(t, Status(status)), message);
    DeliversOn(s, Send(t, Status(status)), FailAll(Send(t, Status(status)), message), OwnSocket(s.link));
  }

  lemma FlushDelivers(s: State, env: Env)
    ensures Delivers(s, Flush(s, env), OwnSocket(s.link))
  {
    if !CanDispatch(s) {
      NothingDelivered(s, Flush(s, env), OwnSocket(s.link));
    } else if !s.link.nativePort && env.connectError.Some? {
      var message := CONNECT_FAILED + env.connectError.value;
      StatusThenFailures(s, Show(s, s.shown.(nativeHost := "error", lastError := Some(message))), message,
                         NO_NATIVE_HOST);
    } else if env.postError.Some? {
      var c := ConnectNative(s, env);
      var message := WRITE_FAILED + env.postError.value;
      var taken := c.(core := Shift(c.core));
      StatusThenFailures(s, Show(taken, taken.shown), message, message);
    } else {
      NothingDelivered(s, Flush(s, env), OwnSocket(s.link));
    }
  }

  lemma DisconnectNativeDelivers(s: State, error: Option<string>)
    ensures Delivers(s, DisconnectNative(s, error), OwnSocket(s.link))
  {
    var off := s.(link := s.link.(nativePort := false), core := Drop(s.core));
    if Truthy(error) {
      StatusThenFailures(s, Show(off, off.shown.(nativeHost := "error", lastError := error)), error.value, error.value);
    } else {
      var shown := Show(off, off.shown.(nativeHost := "disconnected"));
      NothingDelivered(s, shown, OwnSocket(s.link));
      FailAllDelivers(shown, NATIVE_CLOSED);
      DeliversOn(s, shown, FailAll(shown, NATIVE_CLOSED), OwnSocket(s.link));
    }
  }

  lemma NativeMessageDelivers(s: State, message: NativeData, env: Env)
    ensures Delivers(s, OnNativeMessage(s, message, env), OwnSocket(s.link))
  {
    if s.core.current.None? {
      var settled := s.(core := Settle(s.core));
      NothingDelivered(s, settled, OwnSocket(s.link));
      SendDelivers(settled, Status(UNEXPECTED));
      DeliversOn(s, settled, Send(settled, Status(UNEXPECTED)), OwnSocket(s.link));
    } else {
      var response := Response(s.core.current.value.requestId, BodyOf(message));
      var t := Send(s, Reply(response)).(core := Answer(s.core, BodyOf(message)));
      assert Replying([response]) == [Reply(response)];
      AnswersDeliver(s, t, [response]);
      FlushDelivers(t, env);
      DeliversOn(s, t, Flush(t, env), OwnSocket(s.link));
    }
  }

  lemma SocketOpensDelivers(s: State, index: nat, env: Env)
    requires index < |s.link.sockets|
    ensures Delivers(s, Flush(Greeted(s, index), env), OwnSocket(Greeted(s, index).link))
  {
    var t := s.(link := s.link.(sockets := s.link.sockets[index := Open], timer := false));
    var shown := Show(t, t.shown.(websocket := "connected", lastError := None));
    var own := OwnSocket(shown.link);
    NothingDelivered(s, shown, own);
    SendDelivers(shown, Hello);
    DeliversOn(s, shown, Greeted(s, index), own);
    FlushDelivers(Greeted(s, index), env);
    DeliversOn(s, Greeted(s, index), Flush(Greeted(s, index), env), own);
  }

  lemma SocketMessageDelivers(s: State, data: SocketData, env: Env)
    ensures Delivers(s, OnSocketMessage(s, data, env), OwnSocket(s.link))
  {
    if data.Malformed? {
      SendDelivers(s, Status(data.error));
    } else {
      var accepted := s.(core := Accept(s.core, data.request));
      NothingDelivered(s, accepted, OwnSocket(s.link));
      FlushDelivers(accepted, env);
      DeliversOn(s, accepted, Flush(accepted, env), OwnSocket(s.link));
    }
  }

  lemma SocketClosesDelivers(s: State, index: nat)
    requires index < |s.link.sockets|
    ensures Delivers(s, OnSocketCloses(s, index), None)
  {
    var t := s.(link := s.link.(sockets := s.link.sockets[index := Closed], websocket := None));
    var shown := Show(t, t.shown.(websocket := "disconnected"));
    NothingDelivered(s, shown, None);
    FailAllDelivers(shown, SOCKET_CLOSED);
    DeliversOn(s, shown, FailAll(shown, SOCKET_CLOSED), None);
  }

  /** The socket open to the controller when a handler hands over its answers: its own, unless a socket just closed. */
  function HandOver(s: State, e: Event): Option<nat> {
    if s.link.websocket.Some? && s.link.websocket.value < |s.link.sockets| && !e.SocketCloses?
       && (s.link.sockets[s.link.websocket.value].Open? || e == SocketOpens(s.link.websocket.value))
    then s.link.websocket else None
  }

  lemma OwnOnceGreeted(s: State, index: nat)
    requires index < |s.link.sockets|
    ensures OwnSocket(Greeted(s, index).link) == HandOver(s, SocketOpens(index))
  {
  }

  lemma StopDelivers(s: State)
    ensures Delivers(s, OnStop(s), OwnSocket(s.link))
  {
    var t := s.(link := s.link.(started := false, timer := false));
    NothingDelivered(s, t, OwnSocket(s.link));
    DisconnectNativeDelivers(t, None);
    DeliversOn(s, t, DisconnectNative(t, None), OwnSocket(s.link));
    NothingDelivered(DisconnectNative(t, None), OnStop(s), OwnSocket(s.link));
    DeliversOn(s, DisconnectNative(t, None), OnStop(s), OwnSocket(s.link));
  }

  lemma QuietDelivers(s: State, e: Event, env: Env)
    requires Enabled(s, e)
    requires e.StartBegins? || e.StartFinishes? || e.StartFails? || e.UpdateBegins? || e.UpdateFinishes?
             || e.SocketError? || e.SocketClosing? || e.TimerFires?
    ensures Delivers(s, Step(s, e, env), HandOver(s, e))
  {
    NothingDelivered(s, Step(s, e, env), HandOver(s, e));
  }

  /** Every step delivers the answers it adds, all of them or none, by whether the own socket is open. */
  lemma StepDelivers(s: State, e: Event, env: Env)
    requires Enabled(s, e)
    ensures Delivers(s, Step(s, e, env), HandOver(s, e))
  {
    match e
    case Stop => StopDelivers(s);
    case SocketOpens(i) =>
      SocketOpensDelivers(s, i, env);
      OwnOnceGreeted(s, i);
    case SocketMessage(data) => SocketMessageDelivers(s, data, env);
    case SocketCloses(i) => SocketClosesDelivers(s, i);
    case NativeMessage(message) => NativeMessageDelivers(s, message, env);
    case NativeDisconnects(error) => DisconnectNativeDelivers(s, error);
    case _ => QuietDelivers(s, e, env);
  }

  // ---------- what the answers say ----------

  /** One failure with this message for the request in flight and one for each queued request, in order. */
  ghost predicate FailsEach(c: Core, answers: seq<Response>, message: string) {
    var first := if c.current.Some? then 1 else 0;
    && |answers| == first + |c.queue|
    && (c.current.Some? ==> answers[0] == Response(c.current.value.requestId, Failure(103, message)))
    && forall k :: 0 <= k < |c.queue| ==> answers[first + k] == Response(c.queue[k].requestId, Failure(103, message))
  }

  /** What one step adds to the answers. */
  ghost predicate Adds(s: State, t: State, answers: seq<Response>) {
    t.core.replies == s.core.replies + answers
  }

  lemma FailAllAdds(s: State, message: string) returns (answers: seq<Response>)
    ensures Adds(s, FailAll(s, message), answers) && FailsEach(s.core, answers, message)
  {
    answers := Answers(Outstanding(s.core), Failure(PROCESS_NOT_RUNNING, message));
  }

  /** Flushing answers something only where it cannot start a request, and then it fails all there are. */
  lemma FlushAdds(s: State, env: Env) returns (answers: seq<Response>)
    ensures Adds(s, Flush(s, env), answers)
    ensures var refused := !s.link.nativePort && env.connectError.Some?;
            var unwritten := env.postError.Some?;
      if CanDispatch(s) && (refused || unwritten)
      then FailsEach(s.core, answers, if refused then NO_NATIVE_HOST else WRITE_FAILED + env.postError.value)
      else answers == []
  {
    FlushEffect(s, env);
    if CanDispatch(s) && !s.link.nativePort && env.connectError.Some? {
      answers := FailAllAdds(s, NO_NATIVE_HOST);
    } else if CanDispatch(s) && env.postError.Some? {
      answers := Answers(Outstanding(Shift(s.core)), Failure(PROCESS_NOT_RUNNING, WRITE_FAILED + env.postError.value));
      assert Outstanding(Shift(s.core)) == s.core.queue;
    } else {
      answers := [];
    }
  }

  /**
   * What the answers of a step say: the host's own message for the request in flight; one failure
   * for everything outstanding when a socket closes, the port goes or the controller stops, with
   * the reason; and otherwise only what a request that cannot be started brings about.
   */
  lemma AnswersGiven(s: State, e: Event, env: Env) returns (answers: seq<Response>)
    requires Enabled(s, e)
    ensures Adds(s, Step(s, e, env), answers)
    ensures e.SocketCloses? ==> FailsEach(s.core, answers, SOCKET_CLOSED)
    ensures e.Stop? ==> FailsEach(s.core, answers, NATIVE_CLOSED)
    ensures e.NativeDisconnects? ==>
      FailsEach(s.core, answers, if Truthy(e.lastError) then e.lastError.value else NATIVE_CLOSED)
    ensures e.NativeMessage? && s.core.current.Some? ==>
      && answers != []
      && answers[0] == Response(s.core.current.value.requestId,
                                if e.message.Object? then Payload(e.message.value) else Failure(104, MALFORMED_HELPER))
    ensures e.NativeMessage? && s.core.current.None? ==> answers == []
    ensures !(e.SocketCloses? || e.Stop? || e.NativeDisconnects?) && env.connectError.None? && env.postError.None? ==>
      |answers| == if e.NativeMessage? && s.core.current.Some? then 1 else 0
  {
    match e
    case Stop => answers := StopAdds(s);
    case SocketCloses(i) => answers := SocketClosesAdds(s, i);
    case NativeDisconnects(error) => answers := DisconnectAdds(s, error);
    case NativeMessage(message) => answers := NativeMessageAdds(s, message, env);
    case SocketOpens(i) => answers := FlushAdds(Greeted(s, i), env);
    case SocketMessage(data) =>
      answers := [];
      if data.Envelope? {
        answers := FlushAdds(s.(core := Accept(s.core, data.request)), env);
      }
    case _ =>
      QuietDelivers(s, e, env);
      answers := [];
  }

  lemma StopAdds(s: State) returns (answers: seq<Response>)
    ensures Adds(s, OnStop(s), answers) && FailsEach(s.core, answers, NATIVE_CLOSED)
  {
    answers := DisconnectAdds(s.(link := s.link.(started := false, timer := false)), None);
  }

  lemma SocketClosesAdds(s: State, index: nat) returns (answers: seq<Response>)
    requires index < |s.link.sockets|
    ensures Adds(s, OnSocketCloses(s, index), answers) && FailsEach(s.core, answers, SOCKET_CLOSED)
  {
    var t := s.(link := s.link.(sockets := s.link.sockets[index := Closed], websocket := None));
    answers := FailAllAdds(Show(t, t.shown.(websocket := "disconnected")), SOCKET_CLOSED);
  }

  lemma DisconnectAdds(s: State, error: Option<string>) returns (answers: seq<Response>)
    ensures Adds(s, DisconnectNative(s, error), answers)
    ensures FailsEach(s.core, answers, if Truthy(error) then error.value else NATIVE_CLOSED)
  {
    var off := s.(link := s.link.(nativePort := false), core := Drop(s.core));
    if Truthy(error) {
      var shown := Show(off, off.shown.(nativeHost := "error", lastError := error));
      answers := FailAllAdds(Send(shown, Status(error.value)), error.value);
    } else {
      answers := FailAllAdds(Show(off, off.shown.(nativeHost := "disconnected")), NATIVE_CLOSED);
    }
  }

  lemma NativeMessageAdds(s: State, message: NativeData, env: Env) returns (answers: seq<Response>)
    ensures Adds(s, OnNativeMessage(s, message, env), answers)
    ensures s.core.current.None? ==> answers == []
    ensures s.core.current.Some? ==>
      && answers != []
      && answers[0] == Response(s.core.current.value.requestId,
                                if message.Object? then Payload(message.value) else Failure(104, MALFORMED_HELPER))
      && (env.connectError.None? && env.postError.None? ==> |answers| == 1)
  {
    if s.core.current.None? {
      answers := [];
    } else {
      var first := Response(s.core.current.value.requestId, BodyOf(message));
      var more := FlushAdds(Send(s, Reply(first)).(core := Answer(s.core, BodyOf(message))), env);
      answers := [first] + more;
    }
  }

  /** What else goes out: the greeting first of all on a new connection, and a status for what makes no sense. */
  lemma GreetsAndComplains(s: State, e: Event, env: Env)
    requires Enabled(s, e) && HandOver(s, e).Some?
    ensures var wire, own := Step(s, e, env).wire, HandOver(s, e).value;
      && (e.SocketOpens? ==> s.wire + [(own, Hello)] <= wire)
      && (e.SocketMessage? && e.data.Malformed? ==> wire == s.wire + [(own, Status(e.data.error))])
      && (e.NativeMessage? && s.core.current.None? ==> wire == s.wire + [(own, Status(UNEXPECTED))])
  {
    if e.SocketOpens? {
      FlushDelivers(Greeted(s, e.index), env);
      OwnOnceGreeted(s, e.index);
      assert OnWire(Greeted(s, e.index).link, [Hello]) == [(HandOver(s, e).value, Hello)];
    }
    assert SocketOpen(s.link) ==>
      forall error :: OnWire(s.link, [Status(error)]) == [(s.link.websocket.value, Status(error))];
  }

  /** What is published: the daemon's address, and the last news of the socket. */
  lemma PublishesExactly(s: State, e: Event, env: Env)
    requires Enabled(s, e)
    ensures var t := Step(s, e, env);
            var created, refused := |t.link.sockets| > |s.link.sockets|, env.createError.Some?;
      && (t.shown.host, t.shown.port)
         == (if e.StartFinishes? then (e.stored.host, e.stored.port)
             else if e.UpdateFinishes? then (s.link.settings.host, s.link.settings.port)
             else (s.shown.host, s.shown.port))
      && (e.SocketOpens? ==> t.shown.websocket == "connected")
      && (e.SocketCloses? ==> t.shown.websocket == "disconnected")
      && (e.SocketError? ==> t.shown.websocket == "error" && t.shown.lastError == Some(SOCKET_ERROR))
      && (created ==> t.shown.websocket == "connecting" && t.shown.lastError.None? && t.link.websocket.Some?)
      && (!created && !e.SocketOpens? && !e.SocketCloses? && !e.SocketError? ==>
            t.shown.websocket == s.shown.websocket || (t.shown.websocket == "error" && refused && t.link.timer))
  {
    match e
    case SocketOpens(i) => FlushPublishes(Greeted(s, i), env);
    case SocketMessage(data) =>
      if data.Envelope? {
        FlushPublishes(s.(core := Accept(s.core, data.request)), env);
      }
    case NativeMessage(message) =>
      if s.core.current.Some? {
        var answered := Send(s, Reply(Response(s.core.current.value.requestId, BodyOf(message))));
        FlushPublishes(answered.(core := Answer(s.core, BodyOf(message))), env);
      }
    case _ =>
  }

  lemma FlushPublishes(s: State, env: Env)
    ensures var t := Flush(s, env);
      t.shown.host == s.shown.host && t.shown.port == s.shown.port && t.shown.websocket == s.shown.websocket
      && t.link.sockets == s.link.sockets
  {
  }

  /** Stopping lets go of everything, and closes the own socket if it was alive. */
  lemma StopLetsGo(s: State)
    requires s.link.websocket.Some? ==> s.link.websocket.value < |s.link.sockets|
    ensures var t := OnStop(s).link;
      && !t.started && !t.timer && !t.nativePort && t.websocket.None?
      && (s.link.websocket.Some? ==>
            var own := s.link.websocket.value;
            own < |t.sockets| && (t.sockets[own].Closing? || t.sockets[own].Closed?))
  {
    assert DisconnectNative(s.(link := s.link.(started := false, timer := false)), None).link
        == s.link.(started := false, timer := false, nativePort := false);
  }

  /** A started controller without a socket opens one as soon as it may. */
  lemma ConnectOpens(s: State, env: Env)
    requires s.link.started && s.link.websocket.None? && env.createError.None?
    ensures ConnectWebSocket(s, env).link
         == s.link.(sockets := s.link.sockets + [Connecting], websocket := Some(|s.link.sockets|))
  {
  }

  /** Changed settings close the own socket and open a new one. */
  lemma UpdateReopens(s: State, env: Env)
    requires s.link.started && s.link.websocket.Some? && s.link.websocket.value < |s.link.sockets|
    requires env.createError.None?
    ensures var own, t := s.link.websocket.value, OnUpdateFinishes(s, env).link;
      && |t.sockets| == |s.link.sockets| + 1 && t.websocket == Some(|s.link.sockets|)
      && t.sockets[|s.link.sockets|].Connecting? && (t.sockets[own].Closing? || t.sockets[own].Closed?)
      && forall i :: 0 <= i < |s.link.sockets| && i != own ==> t.sockets[i] == s.link.sockets[i]
  {
    var t := Show(s, s.shown.(host := s.link.settings.host, port := s.link.settings.port, lastError := None));
    ConnectOpens(t.(link := Unhook(t.link)), env);
  }

  /** The native host is shown as connected exactly while there is a port to it. */
  ghost predicate ShowsHost(s: State) {
    s.shown.nativeHost == "connected" <==> s.link.nativePort
  }

  lemma FlushShowsHost(s: State, env: Env)
    requires ShowsHost(s)
    ensures ShowsHost(Flush(s, env))
  {
  }

  lemma StepShowsHost(s: State, e: Event, env: Env)
    requires ShowsHost(s) && Enabled(s, e)
    ensures ShowsHost(Step(s, e, env))
  {
    match e
    case SocketOpens(i) => FlushShowsHost(Greeted(s, i), env);
    case SocketMessage(data) =>
      if data.Envelope? {
        FlushShowsHost(s.(core := Accept(s.core, data.request)), env);
      }
    case NativeMessage(message) =>
      if s.core.current.Some? {
        var answered := Send(s, Reply(Response(s.core.current.value.requestId, BodyOf(message))));
        FlushShowsHost(answered.(core := Answer(s.core, BodyOf(message))), env);
      }
    case _ =>
  }

  // ---------- over a run ----------

  lemma {:induction false} EveryRunShowsHost(run: seq<Move>)
    ensures ShowsHost(After(run))
  {
    if run != [] {
      var before, m := run[..|run| - 1], run[|run| - 1];
      EveryRunShowsHost(before);
      if Enabled(After(before), m.0) {
        StepShowsHost(After(before), m.0, m.1);
      }
    }
  }

  /** The answers given while the own socket was open, over a run. */
  ghost function GivenWhileOpen(run: seq<Move>): seq<Response> {
    if run == [] then []
    else
      var before, m := run[..|run| - 1], run[|run| - 1];
      GivenWhileOpen(before)
      + if Enabled(After(before), m.0) && HandOver(After(before), m.0).Some?
           && |After(before).core.replies| <= |After(run).core.replies|
        then After(run).core.replies[|After(before).core.replies|..]
        else []
  }

  /** In every run the wire carries exactly the answers given while the own socket was open. */
  lemma {:induction false} DeliversExactly(run: seq<Move>)
    ensures RepliesOn(After(run).wire) == GivenWhileOpen(run)
  {
    if run != [] {
      var before, m := run[..|run| - 1], run[|run| - 1];
      DeliversExactly(before);
      var s, t := After(before), After(run);
      if Enabled(s, m.0) {
        StepDelivers(s, m.0, m.1);
        DeliveredSum(s, t, HandOver(s, m.0));
      }
    }
  }

  lemma DeliveredSum(s: State, t: State, own: Option<nat>)
    requires Delivers(s, t, own)
    ensures RepliesOn(t.wire)
         == RepliesOn(s.wire) + if own.Some? then t.core.replies[|s.core.replies|..] else []
  {
    RepliesOnConcat(s.wire, t.wire[|s.wire|..]);
    assert t.wire == s.wire + t.wire[|s.wire|..];
  }

  lemma DeliveryInOrder(s: State, t: State, own: Option<nat>)
    requires WireInOrder(s) && Delivers(s, t, own)
    ensures WireInOrder(t)
  {
    var more := t.core.replies[|s.core.replies|..];
    DeliveredSum(s, t, own);
    assert t.core.replies == s.core.replies + more;
    SubsequenceExtends(RepliesOn(s.wire), s.core.replies, more);
    assert RepliesOn(s.wire) + [] == RepliesOn(s.wire);
  }

  lemma StepInOrder(s: State, e: Event, env: Env)
    requires WireInOrder(s) && Enabled(s, e)
    ensures WireInOrder(Step(s, e, env))
  {
    StepDelivers(s, e, env);
    DeliveryInOrder(s, Step(s, e, env), HandOver(s, e));
  }

  lemma {:induction false} EveryRunWiresInOrder(run: seq<Move>)
    ensures WireInOrder(After(run))
  {
    if run != [] {
      var before, m := run[..|run| - 1], run[|run| - 1];
      EveryRunWiresInOrder(before);
      if Enabled(After(before), m.0) {
        StepInOrder(After(before), m.0, m.1);
      }
    }
  }

  /** In every run the daemon receives at most one answer per request, in the order of the requests, under its id. */
  lemma DeliveredInOrder(run: seq<Move>) returns (at: seq<nat>)
    ensures var s, delivered := After(run), RepliesOn(After(run).wire);
      && |at| == |delivered|
      && (forall i :: 0 <= i < |at| ==>
            at[i] < |s.core.replies| <= |s.core.accepted| && delivered[i] == s.core.replies[at[i]]
            && delivered[i].requestId == s.core.accepted[at[i]].requestId)
      && (forall i, j :: 0 <= i < j < |at| ==> at[i] < at[j])
  {
    EveryRunKeeps(run);
    EveryRunWiresInOrder(run);
    at := SubsequencePositions(RepliesOn(After(run).wire), After(run).core.replies);
  }

  // ---------- reconnecting ----------

  /** A started controller has a socket, a reconnect timer, or settings still loading. */
  ghost predicate Retrying(l: Link) {
    l.started ==> l.websocket.Some? || l.timer || l.loading > 0
  }

  lemma RetryingAfterFlush(s: State, env: Env)
    ensures Retrying(Flush(s, env).link) <==> Retrying(s.link)
  {
    FlushEffect(s, env);
  }

  /**
   * The controller stops trying to reconnect in exactly two ways. A socket that is no longer
   * its own opens while it waits on the timer, because the open handler cancels the timer
   * without asking whose socket it is. Or the stored settings cannot be loaded, when nothing
   * else is under way: it then counts as started until it is stopped.
   */
  lemma RetryingLostExactly(s: State, e: Event, env: Env)
    requires Retrying(s.link) && Enabled(s, e)
    ensures Retrying(Step(s, e, env).link)
            <==> !(s.link.started && s.link.websocket.None?
                   && ((e.SocketOpens? && s.link.loading == 0)
                       || (e.StartFails? && s.link.loading == 1 && !s.link.timer)))
  {
    match e
    case SocketOpens(i) => RetryingAfterFlush(Greeted(s, i), env);
    case SocketMessage(data) =>
      if data.Envelope? {
        RetryingAfterFlush(s.(core := Accept(s.core, data.request)), env);
      }
    case NativeMessage(message) =>
      if s.core.current.Some? {
        var answered := Send(s, Reply(Response(s.core.current.value.requestId, BodyOf(message))));
        RetryingAfterFlush(answered.(core := Answer(s.core, BodyOf(message))), env);
      }
    case _ =>
  }

  /** Opening a socket with nothing queued changes the link in two places only. */
  lemma OpeningLink(s: State, index: nat, env: Env)
    requires index < |s.link.sockets| && s.core.queue == []
    ensures var t := Step(s.(link := s.link.(sockets := s.link.sockets[index := Connecting])), SocketOpens(index), env);
      t.link == s.link.(sockets := s.link.sockets[index := Open], timer := false) && t.core == s.core
  {
    var from := s.(link := s.link.(sockets := s.link.sockets[index := Connecting]));
    assert from.link.sockets[index := Open] == s.link.sockets[index := Open];
  }

  /** It does happen: change the settings, and let the old socket close before the new one opens. */
  lemma RetryingLostInARun() returns (run: seq<Move>)
    ensures var s := After(run);
            s.link.started && s.link.websocket.None? && !s.link.timer && s.link.loading == 0
  {
    var env := Env(None, None, None);
    run := RunToReconnecting();
    var s := After(run);
    OpeningLink(s, 1, env);
    assert s.link.sockets[1 := Connecting] == s.link.sockets;
    run := Extend(run, SocketOpens(1), env);
  }

  /** So does the other: the settings fail to load, and starting again does nothing. */
  lemma RetryingLostAtStart() returns (run: seq<Move>)
    ensures run != [] && run[|run| - 1].0.StartBegins? && After(run) == After(run[..|run| - 1])
    ensures var s := After(run);
            s.link.started && s.link.websocket.None? && !s.link.timer && s.link.loading == 0
  {
    var env := Env(None, None, None);
    run := Extend([], StartBegins, env);
    run := Extend(run, StartFails, env);
    run := Extend(run, StartBegins, env);
  }

  lemma RunToConnected() returns (run: seq<Move>)
    ensures After(run).link == Link(true, 0, Settings("127.0.0.1", 10000), [Open], Some(0), false, false)
    ensures After(run).core == Init().core
  {
    var env, stored := Env(None, None, None), Settings("127.0.0.1", 10000);
    run := Extend([], StartBegins, env);
    run := Extend(run, StartFinishes(stored), env);
    var s := After(run);
    assert s.link == Link(true, 0, stored, [Connecting], Some(0), false, false) && s.core == Init().core;
    OpeningLink(s, 0, env);
    assert s.link.sockets[0 := Connecting] == s.link.sockets && s.link.sockets[0 := Open] == [Open];
    run := Extend(run, SocketOpens(0), env);
  }

  lemma RunToReconnecting() returns (run: seq<Move>)
    ensures After(run).link == Link(true, 0, Settings("127.0.0.1", 10000), [Closed, Connecting], None, false, true)
    ensures After(run).core.queue == []
  {
    var env := Env(None, None, None);
    run := RunToConnected();
    run := Extend(run, UpdateFinishes, env);
    var s := After(run);
    assert s.link == Link(true, 0, Settings("127.0.0.1", 10000), [Closing, Connecting], Some(1), false, false);
    assert [Closing, Connecting][0 := Closed] == [Closed, Connecting];
    run := Extend(run, SocketCloses(0), env);
  }

  lemma Extend(run: seq<Move>, e: Event, env: Env) returns (longer: seq<Move>)
    ensures longer == run + [(e, env)] && longer[..|longer| - 1] == run
    ensures After(longer) == if Enabled(After(run), e) then Step(After(run), e, env) else After(run)
  {
    longer := run + [(e, env)];
    assert longer[..|longer| - 1] == run;
  }
}
