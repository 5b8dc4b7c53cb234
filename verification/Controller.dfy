/**
 * `BridgeController` (`legacy/browser-bridge/bridge-controller.js`), handler by handler,
 * each tied to its transition in `ControllerModel`.
 */
module Controller {
  import opened Wrappers
  import opened ControllerModel

  class BridgeController {
    var started: bool
    var settings: Settings
    var state: Shown
    var websocket: Option<nat>
    var nativePort: bool
    var pendingQueue: seq<Request>
    var currentRequest: Option<Request>
    var reconnectTimer: bool

    // The environment: ready states of the sockets created so far, and whose settings are loading.
    var sockets: seq<ReadyState>
    var loading: nat

    // Logs.
    ghost var accepted: seq<Request>
    ghost var replies: seq<Response>
    ghost var origins: seq<Option<nat>>
    ghost var posted: seq<nat>
    ghost var owed: seq<nat>
    ghost var wire: seq<(nat, WireMessage)>

    ghost function View(): State
      reads this
    {
      State(Link(started, loading, settings, sockets, websocket, nativePort, reconnectTimer),
            Core(accepted, replies, origins, posted, owed, currentRequest, pendingQueue), state, wire)
    }

    constructor ()
      ensures View() == Init()
    {
      started, loading, settings := false, 0, Settings("127.0.0.1", 10000);
      state := Shown("127.0.0.1", 10000, "idle", "idle", 0, None);
      websocket, nativePort, reconnectTimer, sockets := None, false, false, [];
      pendingQueue, currentRequest := [], None;
      accepted, replies, origins, posted, owed, wire := [], [], [], [], [], [];
    }

    method UpdateState(patched: Shown)
      modifies this`state
      ensures View() == Show(old(View()), patched)
    {
      state := patched.(queueDepth := |pendingQueue| + if currentRequest.Some? then 1 else 0);
    }

    method SendWebSocket(message: WireMessage)
      modifies this`wire
      ensures View() == Send(old(View()), message)
    {
      if websocket.None? || websocket.value >= |sockets| || !sockets[websocket.value].Open? {
        assert wire + [] == wire;
        return;
      }
      wire := wire + [(websocket.value, message)];
    }

    method SendStatus(error: string)
      modifies this`wire
      ensures View() == Send(old(View()), Status(error))
    {
      SendWebSocket(Status(error));
    }

    method SendResponse(response: Response, ghost origin: Option<nat>)
      modifies this`wire, this`replies, this`origins
      ensures View() == Send(old(View()), Reply(response)).(
        core := old(View()).core.(replies := old(replies) + [response], origins := old(origins) + [origin]))
    {
      replies, origins := replies + [response], origins + [origin];
      SendWebSocket(Reply(response));
    }

    /** One failure for each, in order. */
    method Reject(rejected: seq<Request>, message: string)
      modifies this`wire, this`replies, this`origins
      ensures origins == old(origins) + Unasked(|rejected|)
      ensures replies == old(replies) + Answers(rejected, Failure(PROCESS_NOT_RUNNING, message))
      ensures wire == old(wire)
        + OnWire(View().link, Replying(Answers(rejected, Failure(PROCESS_NOT_RUNNING, message))))
    {
      ghost var link := View().link;
      ghost var answers := Answers(rejected, Failure(PROCESS_NOT_RUNNING, message));
      assert wire + OnWire(link, Replying(answers[..0])) == wire;
      for i := 0 to |rejected|
        invariant replies == old(replies) + answers[..i] && origins == old(origins) + Unasked(i)
        invariant wire == old(wire) + OnWire(link, Replying(answers[..i]))
      {
        SendResponse(Response(rejected[i].requestId, Failure(PROCESS_NOT_RUNNING, message)), None);
        assert answers[..i + 1] == answers[..i] + [answers[i]];
        assert OnWire(link, Replying(answers[..i + 1]))
            == OnWire(link, Replying(answers[..i])) + OnWire(link, [Reply(answers[i])]);
      }
      assert answers[..|rejected|] == answers;
    }

    method FailCurrentAndQueue(message: string)
      modifies this
      ensures View() == FailAll(old(View()), message)
    {
      var rejected: seq<Request> := [];
      if currentRequest.Some? {
        rejected := rejected + [currentRequest.value];
        currentRequest := None;
      }
      rejected := rejected + pendingQueue;
      pendingQueue := [];
      assert rejected == Outstanding(old(View()).core);

      Reject(rejected, message);
      UpdateState(state);
    }

    method ConnectNativePort(env: Env) returns (ok: bool)
      modifies this
      ensures View() == ConnectNative(old(View()), env) && ok == nativePort
    {
      if nativePort {
        return true;
      }
      if env.connectError.Some? {
        var message := CONNECT_FAILED + env.connectError.value;
        UpdateState(state.(nativeHost := "error", lastError := Some(message)));
        SendStatus(message);
        return false;
      }
      nativePort := true;
      UpdateState(state.(nativeHost := "connected", lastError := None));
      ok := true;
    }

    method TakeNext()
      requires pendingQueue != []
      modifies this`currentRequest, this`pendingQueue, this`state
      ensures View() == var taken := old(View()).(core := Shift(old(View()).core)); Show(taken, taken.shown)
    {
      currentRequest := Some(pendingQueue[0]);
      pendingQueue := pendingQueue[1..];
      UpdateState(state);
    }

    /** The end of `flushQueue`: take the next request and post it. */
    method PostRequest(env: Env)
      requires pendingQueue != []
      modifies this
      ensures View() == PostNext(old(View()), env)
    {
      TakeNext();
      if env.postError.Some? {
        var message := WRITE_FAILED + env.postError.value;
        SendStatus(message);
        FailCurrentAndQueue(message);
        return;
      }
      posted, owed := posted + [|replies|], owed + [|replies|];
    }

    method FlushQueue(env: Env)
      modifies this
      ensures View() == Flush(old(View()), env)
    {
      if currentRequest.Some? || |pendingQueue| == 0 {
        UpdateState(state);
        return;
      }
      if websocket.None? || websocket.value >= |sockets| || !sockets[websocket.value].Open? {
        UpdateState(state);
        return;
      }
      var port := ConnectNativePort(env);
      if !port {
        FailCurrentAndQueue(NO_NATIVE_HOST);
        return;
      }
      PostRequest(env);
    }

    method HandleNativeMessage(message: NativeData, env: Env)
      modifies this
      ensures View() == OnNativeMessage(old(View()), message, env)
    {
      ghost var origin := NextOwed(View().core);
      owed := Settle(View().core).owed;
      if currentRequest.None? {
        SendStatus(UNEXPECTED);
        return;
      }
      var current := currentRequest.value;
      currentRequest := None;
      if !message.Object? {
        SendResponse(Response(current.requestId, Failure(PROTO_INVALID_RESPONSE, MALFORMED_HELPER)), origin);
        FlushQueue(env);
        return;
      }
      SendResponse(Response(current.requestId, Payload(message.value)), origin);
      FlushQueue(env);
    }

    method HandleWebSocketMessage(data: SocketData, env: Env)
      modifies this
      ensures View() == OnSocketMessage(old(View()), data, env)
    {
      if data.Malformed? {
        SendStatus(data.error);
        return;
      }
      pendingQueue := pendingQueue + [data.request];
      accepted := accepted + [data.request];
      ghost var pushed := View();
      UpdateState(state);
      FlushIgnoresDepth(pushed, env);
      FlushQueue(env);
    }

    method CancelReconnect()
      modifies this`reconnectTimer
      ensures View() == old(View()).(link := old(View()).link.(timer := false))
    {
      if !reconnectTimer {
        return;
      }
      reconnectTimer := false;
    }

    method Reconnect()
      modifies this`reconnectTimer
      ensures View() == ScheduleReconnect(old(View()))
    {
      if !started || reconnectTimer {
        return;
      }
      reconnectTimer := true;
    }

    method Connect(env: Env)
      modifies this
      ensures View() == ConnectWebSocket(old(View()), env)
    {
      if !started || websocket.Some? {
        return;
      }
      if env.createError.Some? {
        UpdateState(state.(websocket := "error", lastError := Some(CREATE_FAILED + env.createError.value)));
        Reconnect();
        return;
      }
      websocket := Some(|sockets|);
      sockets := sockets + [Connecting];
      UpdateState(state.(websocket := "connecting", lastError := None));
    }

    method Disconnect()
      modifies this`websocket, this`sockets
      ensures View() == old(View()).(link := Unhook(old(View()).link))
    {
      var socket := websocket;
      websocket := None;
      if socket.Some? && socket.value < |sockets|
         && (sockets[socket.value].Connecting? || sockets[socket.value].Open?) {
        sockets := sockets[socket.value := Closing];
      }
    }

    method DisconnectNativePort(runtimeError: Option<string>)
      modifies this
      ensures View() == DisconnectNative(old(View()), runtimeError)
    {
      nativePort, owed := false, [];
      var failed := Truthy(runtimeError);
      var message := if failed then runtimeError.value else NATIVE_CLOSED;
      UpdateState(state.(nativeHost := if failed then "error" else "disconnected",
                         lastError := if failed then runtimeError else state.lastError));
      if failed {
        SendStatus(message);
      }
      FailCurrentAndQueue(message);
    }

    method SocketOpened(index: nat, env: Env)
      requires index < |sockets|
      modifies this
      ensures View() == Flush(Greeted(old(View()), index), env)
    {
      sockets := sockets[index := Open];
      CancelReconnect();
      UpdateState(state.(websocket := "connected", lastError := None));
      SendWebSocket(Hello);
      FlushQueue(env);
    }

    method SocketClosed(index: nat)
      requires index < |sockets|
      modifies this
      ensures View() == OnSocketCloses(old(View()), index)
    {
      sockets := sockets[index := Closed];
      websocket := None;
      UpdateState(state.(websocket := "disconnected"));
      FailCurrentAndQueue(SOCKET_CLOSED);
      Reconnect();
    }

    method StartBegin()
      modifies this
      ensures View() == OnStartBegins(old(View()))
    {
      if started {
        return;
      }
      started := true;
      loading := loading + 1;
    }

    method StartFinish(stored: Settings, env: Env)
      requires loading > 0
      modifies this
      ensures View() == OnStartFinishes(old(View()), stored, env)
    {
      loading := loading - 1;
      settings := stored;
      UpdateState(state.(host := settings.host, port := settings.port));
      Connect(env);
    }

    /** The stored settings could not be loaded: `start` ends where it waited. */
    method StartFail()
      requires loading > 0
      modifies this`loading
      ensures View() == old(View()).(link := old(View()).link.(loading := old(loading) - 1))
    {
      loading := loading - 1;
    }

    method StopController()
      modifies this
      ensures View() == OnStop(old(View()))
    {
      started := false;
      CancelReconnect();
      DisconnectNativePort(None);
      Disconnect();
    }

    method UpdateFinish(env: Env)
      modifies this
      ensures View() == OnUpdateFinishes(old(View()), env)
    {
      UpdateState(state.(host := settings.host, port := settings.port, lastError := None));
      Disconnect();
      Connect(env);
    }

    /** The event loop's dispatch: one handler runs to completion. */
    method Handle(e: Event, env: Env)
      requires Enabled(View(), e)
      modifies this
      ensures View() == Step(old(View()), e, env)
      ensures old(Inv(View())) ==> Inv(View())
      ensures old(WireInOrder(View())) ==> WireInOrder(View())
    {
      StepInvariants(View(), e, env);
      match e
      case StartBegins => StartBegin();
      case StartFinishes(stored) => StartFinish(stored, env);
      case StartFails => StartFail();
      case Stop => StopController();
      case UpdateBegins(next) => settings := next;
      case UpdateFinishes => UpdateFinish(env);
      case SocketOpens(i) => SocketOpened(i, env);
      case SocketMessage(data) => HandleWebSocketMessage(data, env);
      case SocketError => UpdateState(state.(websocket := "error", lastError := Some(SOCKET_ERROR)));
      case SocketClosing(i) => sockets := sockets[i := Closing];
      case SocketCloses(i) => SocketClosed(i);
      case TimerFires =>
        reconnectTimer := false;
        Connect(env);
      case NativeMessage(message) => HandleNativeMessage(message, env);
      case NativeDisconnects(error) => DisconnectNativePort(error);
    }
  }

  lemma StepInvariants(s: State, e: Event, env: Env)
    requires Enabled(s, e)
    ensures Inv(s) ==> Inv(Step(s, e, env))
    ensures WireInOrder(s) ==> WireInOrder(Step(s, e, env))
  {
    if Inv(s) {
      StepKeeps(s, e, env);
    }
    if WireInOrder(s) {
      StepInOrder(s, e, env);
    }
  }

  /** Publishing before a flush shows nothing afterwards: the flush publishes again. */
  lemma FlushIgnoresDepth(s: State, env: Env)
    ensures Flush(Show(s, s.shown), env) == Flush(s, env)
  {
  }
}
