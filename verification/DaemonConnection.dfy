/**
 * One connection of the browser bridge (`legacy/rust-src/daemon.rs`, after it has attached):
 * what its loop does to the bridge, event by event, and how it ends.
 */
module DaemonConnection {
  import opened Wrappers
  import opened DaemonModel

  const UNKNOWN_ERROR := "Browser bridge reported an unknown error."

  /** A locked section run by another task between two of the loop's steps. */
  datatype Section =
    | Attaching(connection: nat, transport: nat, browser: string, now: string)
    | Marking(connection: nat, status: string, error: Option<string>)
    | Completing(requestId: string)
    | Entering(requestId: string, waiter: nat, sendOk: bool)

  /** Other tasks act for other connections, and mark only the statuses that detach. */
  predicate FromOthers(section: Section, connection: nat) {
    match section
    case Attaching(c, _, _, _) => c != connection
    case Marking(c, status, _) => c != connection && Detaching(status)
    case _ => true
  }

  function Run(b: Bridge, section: Section): Bridge {
    match section
    case Attaching(c, transport, browser, now) => Attach(b, c, transport, browser, now).0
    case Marking(c, status, error) => MarkStatus(b, c, status, error).0
    case Completing(id) => Complete(b, id).0
    case Entering(id, waiter, sendOk) => Enter(b, id, waiter, sendOk).0
  }

  /** What happens next: the bridge has a request to pass on, the browser sends something, or another task runs. */
  datatype Arrival =
    | ChannelClosed
    | Forwarded
    | ForwardFailed
    | StreamEnded
    | ReceiveFailed
    | CloseFrame
    | Undecodable
    | Greeting
    | Reported(status: string, error: Option<string>)
    | Responded(requestId: string)
    | Elsewhere(section: Section)

  /** The loop is still running, has broken out, or was left through an error return. */
  datatype Ending = Running | Finished | Abandoned

  function OnReported(b: Bridge, connection: nat, status: string, error: Option<string>): Bridge {
    if status == ERROR then
      MarkStatus(b, connection, ERROR, Some(if error.Some? then error.value else UNKNOWN_ERROR)).0
    else if status == DISCONNECTED then MarkStatus(b, connection, DISCONNECTED, error).0
    else b
  }

  /** The channel of a connection only closes once the bridge has let go of it. */
  function Serve(b: Bridge, connection: nat, arrivals: seq<Arrival>): (Bridge, Ending)
    decreases |arrivals|
  {
    if arrivals == [] then (b, Running)
    else
      var rest := arrivals[1..];
      match arrivals[0]
      case ChannelClosed => if b.activeConnection == Some(connection) then Serve(b, connection, rest) else (b, Finished)
      case ForwardFailed => (b, Abandoned)
      case ReceiveFailed => (b, Abandoned)
      case Undecodable => (b, Abandoned)
      case StreamEnded => (MarkStatus(b, connection, DISCONNECTED, None).0, Finished)
      case CloseFrame => (MarkStatus(b, connection, DISCONNECTED, None).0, Finished)
      case Reported(status, error) => Serve(OnReported(b, connection, status, error), connection, rest)
      case Responded(id) => Serve(Complete(b, id).0, connection, rest)
      case Elsewhere(section) => Serve(Run(b, section), connection, rest)
      case _ => Serve(b, connection, rest)
  }

  predicate LetsGo(a: Arrival) {
    a.StreamEnded? || a.CloseFrame? || (a.Reported? && Detaching(a.status))
  }

  /** Another connection attached. */
  predicate Replaces(a: Arrival) {
    a.Elsewhere? && a.section.Attaching?
  }

  ghost predicate Interleaved(arrivals: seq<Arrival>, connection: nat) {
    forall i :: 0 <= i < |arrivals| && arrivals[i].Elsewhere? ==> FromOthers(arrivals[i].section, connection)
  }

  predicate LeavesByError(a: Arrival) {
    a.ForwardFailed? || a.ReceiveFailed? || a.Undecodable?
  }

  function AfterOne(b: Bridge, connection: nat, a: Arrival): Bridge {
    match a
    case Reported(status, error) => OnReported(b, connection, status, error)
    case Responded(id) => Complete(b, id).0
    case Elsewhere(section) => Run(b, section)
    case _ => b
  }

  /**
   * Whatever other tasks do meanwhile, a connection still holds the bridge when its loop has
   * ended exactly if no other attached, the browser reported no error or disconnect, and
   * neither the stream nor a close frame ended it. Leaving through an error return does not
   * let go: the step that would mark the error stands after the loop, where only successful
   * ends arrive. The bridge then shows a connection whose task is gone, and keeps its waiters.
   */
  lemma {:induction false} LetGoExactly(b: Bridge, connection: nat, arrivals: seq<Arrival>) returns (k: nat)
    requires Attachment(b) && Interleaved(arrivals, connection)
    ensures k <= |arrivals|
    ensures var (t, ending) := Serve(b, connection, arrivals);
      && Attachment(t) && (t, ending) == Serve(b, connection, arrivals[..k])
      && (t.activeConnection == Some(connection)
          <==> (b.activeConnection == Some(connection)
                && forall i :: 0 <= i < k ==> !LetsGo(arrivals[i]) && !Replaces(arrivals[i])))
      && (t.activeConnection == Some(connection) ==> t.transport == b.transport)
      && (ending.Finished? ==> t.activeConnection != Some(connection))
      && (ending.Abandoned? ==> k > 0 && LeavesByError(arrivals[k - 1]))
      && (ending.Running? ==> k == |arrivals|)
      && (k < |arrivals| ==> k > 0 && !ending.Running?)
      && (k > 0 ==> Serve(b, connection, arrivals[..k - 1]).1.Running?)
    decreases |arrivals|
  {
    if arrivals == [] {
      k := 0;
    } else {
      var a := arrivals[0];
      if LeavesByError(a) || a.StreamEnded? || a.CloseFrame?
         || (a.ChannelClosed? && b.activeConnection != Some(connection)) {
        k := 1;
      } else {
        OneArrival(b, connection, a);
        k := LetGoExactly(AfterOne(b, connection, a), connection, arrivals[1..]);
        assert arrivals[..k + 1][1..] == arrivals[1..][..k];
        assert k > 0 ==> arrivals[..k][1..] == arrivals[1..][..k - 1];
        k := k + 1;
      }
    }
  }

  /** One event that does not end the loop. */
  lemma OneArrival(b: Bridge, connection: nat, a: Arrival)
    requires Attachment(b) && (a.Elsewhere? ==> FromOthers(a.section, connection)) && !a.StreamEnded? && !a.CloseFrame?
    ensures var t := AfterOne(b, connection, a);
      && Attachment(t)
      && (t.activeConnection == Some(connection)
          <==> b.activeConnection == Some(connection) && !LetsGo(a) && !Replaces(a))
      && (t.activeConnection == Some(connection) ==> t.transport == b.transport)
  {
  }

  // ---------- what becomes of the waiters ----------

  /** The bridge before the event at `i`. */
  function Before(b: Bridge, connection: nat, arrivals: seq<Arrival>, i: nat): Bridge
    requires i <= |arrivals|
  {
    Serve(b, connection, arrivals[..i]).0
  }

  /** The event that ends the loop. */
  predicate EndsLoop(b: Bridge, connection: nat, a: Arrival) {
    LeavesByError(a) || a.StreamEnded? || a.CloseFrame? || (a.ChannelClosed? && b.activeConnection != Some(connection))
  }

  /** Someone else marks the connection that is attached. */
  predicate MarksActive(b: Bridge, a: Arrival) {
    a.Elsewhere? && a.section.Marking? && b.activeConnection == Some(a.section.connection)
  }

  predicate EntersWaiter(b: Bridge, a: Arrival, id: string, n: nat) {
    b.transport.Some? && a == Elsewhere(Entering(id, n, true))
  }

  /** The event takes whatever waits under `id`: it answers it, lets everything go, or enters that id anew. */
  predicate TakesWaiter(b: Bridge, connection: nat, a: Arrival, id: string) {
    || a == Arrival.Responded(id)
    || a == Elsewhere(Completing(id))
    || (a.Elsewhere? && a.section.Entering? && a.section.requestId == id)
    || Replaces(a) || MarksActive(b, a)
    || (LetsGo(a) && b.activeConnection == Some(connection))
  }

  predicate Waits(b: Bridge, id: string, n: nat) {
    id in b.pending && b.pending[id] == n
  }

  /** One event: who waits afterwards, who is attached, and what is shown. */
  lemma OneEvent(b: Bridge, connection: nat, a: Arrival, id: string, n: nat)
    requires Attachment(b) && (a.Elsewhere? ==> FromOthers(a.section, connection))
    ensures var (t, ending) := Serve(b, connection, [a]);
      && (Waits(t, id, n) <==> EntersWaiter(b, a, id, n) || (Waits(b, id, n) && !TakesWaiter(b, connection, a, id)))
      && (ending.Running? <==> !EndsLoop(b, connection, a))
      && (ending.Abandoned? <==> LeavesByError(a))
      && t.activeConnection ==
           (if Replaces(a) then Some(a.section.connection)
            else if MarksActive(b, a) || (LetsGo(a) && b.activeConnection == Some(connection)) then None
            else b.activeConnection)
  {
    assert [a][1..] == [];
  }

  /** What is shown after one event of this connection, while it is attached. */
  lemma ShownAfterOne(b: Bridge, connection: nat, a: Arrival)
    requires Attachment(b) && b.activeConnection == Some(connection) && !a.Elsewhere?
    ensures var shown := Serve(b, connection, [a]).0.snapshot;
      && (LetsGo(a) ==> shown.browser == b.snapshot.browser && shown.connectedAt.None?)
      && (a.StreamEnded? || a.CloseFrame? ==> shown.status == DISCONNECTED && shown.lastError.None?)
      && (a.Reported? && a.status == DISCONNECTED ==> shown.status == DISCONNECTED && shown.lastError == a.error)
      && (a.Reported? && a.status == ERROR ==>
            shown.status == ERROR
            && shown.lastError == Some(if a.error.Some? then a.error.value else UNKNOWN_ERROR))
      && (!LetsGo(a) ==> shown == b.snapshot)
  {
    assert [a][1..] == [];
  }

  /** The loop takes its events one at a time. */
  lemma {:induction false} ServeSnoc(b: Bridge, connection: nat, arrivals: seq<Arrival>, a: Arrival)
    ensures Serve(b, connection, arrivals + [a])
         == if Serve(b, connection, arrivals).1.Running? then Serve(Serve(b, connection, arrivals).0, connection, [a])
            else Serve(b, connection, arrivals)
    decreases |arrivals|
  {
    if arrivals == [] {
      assert [] + [a] == [a];
    } else {
      assert (arrivals + [a])[1..] == arrivals[1..] + [a];
      ServeSnoc(AfterOne(b, connection, arrivals[0]), connection, arrivals[1..], a);
    }
  }

  lemma OneEnding(b: Bridge, connection: nat, a: Arrival)
    ensures Serve(b, connection, [a]).1.Running? <==> !EndsLoop(b, connection, a)
  {
    assert [a][1..] == [];
  }

  /** The loop goes on as long as no event ends it. */
  lemma {:induction false} RunsOnExactly(b: Bridge, connection: nat, arrivals: seq<Arrival>)
    ensures Serve(b, connection, arrivals).1.Running? <==>
      forall i :: 0 <= i < |arrivals| ==> !EndsLoop(Before(b, connection, arrivals, i), connection, arrivals[i])
    decreases |arrivals|
  {
    if arrivals != [] {
      var m := |arrivals| - 1;
      var before, a := arrivals[..m], arrivals[m];
      assert arrivals == before + [a];
      ServeSnoc(b, connection, before, a);
      RunsOnExactly(b, connection, before);
      PrefixesAgree(b, connection, before, a);
      OneEnding(Before(b, connection, arrivals, m), connection, a);
    }
  }

  lemma PrefixesAgree(b: Bridge, connection: nat, arrivals: seq<Arrival>, a: Arrival)
    ensures forall i :: 0 <= i <= |arrivals| ==>
      Before(b, connection, arrivals + [a], i) == Before(b, connection, arrivals, i)
  {
    forall i | 0 <= i <= |arrivals|
      ensures Before(b, connection, arrivals + [a], i) == Before(b, connection, arrivals, i)
    {
      assert (arrivals + [a])[..i] == arrivals[..i];
    }
  }

  /** Where a waiter came from: it was there, or the event before `j` entered it. */
  predicate CameAt(b: Bridge, connection: nat, arrivals: seq<Arrival>, j: nat, id: string, n: nat)
    requires j <= |arrivals|
  {
    if j == 0 then Waits(b, id, n) else EntersWaiter(Before(b, connection, arrivals, j - 1), arrivals[j - 1], id, n)
  }

  predicate UntakenSince(b: Bridge, connection: nat, arrivals: seq<Arrival>, j: nat, id: string) {
    forall i :: j <= i < |arrivals| ==> !TakesWaiter(Before(b, connection, arrivals, i), connection, arrivals[i], id)
  }

  /** A waiter came, and nothing has taken it since. */
  ghost predicate CameAndStayed(b: Bridge, connection: nat, arrivals: seq<Arrival>, id: string, n: nat) {
    exists j :: 0 <= j <= |arrivals| && CameAt(b, connection, arrivals, j, id, n)
                && UntakenSince(b, connection, arrivals, j, id)
  }

  lemma HistoryGrows(b: Bridge, connection: nat, arrivals: seq<Arrival>, a: Arrival, id: string, n: nat)
    ensures CameAndStayed(b, connection, arrivals + [a], id, n) <==>
      var last := Serve(b, connection, arrivals).0;
      EntersWaiter(last, a, id, n)
      || (CameAndStayed(b, connection, arrivals, id, n) && !TakesWaiter(last, connection, a, id))
  {
    var all := arrivals + [a];
    PrefixesAgree(b, connection, arrivals, a);
    assert arrivals[..|arrivals|] == arrivals;
    assert forall j :: 0 <= j <= |arrivals| ==>
      (CameAt(b, connection, all, j, id, n) <==> CameAt(b, connection, arrivals, j, id, n));
    forall j | 0 <= j <= |arrivals|
      ensures UntakenSince(b, connection, all, j, id) <==>
        (UntakenSince(b, connection, arrivals, j, id)
         && !TakesWaiter(Serve(b, connection, arrivals).0, connection, a, id))
    {
      StaysOn(b, connection, arrivals, a, j, id);
    }
    assert CameAt(b, connection, all, |all|, id, n) <==> EntersWaiter(Serve(b, connection, arrivals).0, a, id, n);
    assert UntakenSince(b, connection, all, |all|, id);
  }

  lemma StaysOn(b: Bridge, connection: nat, arrivals: seq<Arrival>, a: Arrival, j: nat, id: string)
    requires j <= |arrivals|
    ensures UntakenSince(b, connection, arrivals + [a], j, id) <==>
      (UntakenSince(b, connection, arrivals, j, id)
       && !TakesWaiter(Serve(b, connection, arrivals).0, connection, a, id))
  {
    var all := arrivals + [a];
    PrefixesAgree(b, connection, arrivals, a);
    assert arrivals[..|arrivals|] == arrivals;
    assert Before(b, connection, all, |arrivals|) == Serve(b, connection, arrivals).0;
    forall i | j <= i < |arrivals| ensures all[i] == arrivals[i] {}
    assert all[|arrivals|] == a;
  }

  /** As long as the loop takes every event. */
  lemma {:induction false} PendingWhileRunning(b: Bridge, connection: nat, arrivals: seq<Arrival>, id: string, n: nat)
    requires Attachment(b) && Interleaved(arrivals, connection)
    requires arrivals == [] || Serve(b, connection, arrivals[..|arrivals| - 1]).1.Running?
    ensures Waits(Serve(b, connection, arrivals).0, id, n) <==> CameAndStayed(b, connection, arrivals, id, n)
    decreases |arrivals|
  {
    if arrivals == [] {
      assert CameAt(b, connection, arrivals, 0, id, n) <==> Waits(b, id, n);
    } else {
      var m := |arrivals| - 1;
      var before, a := arrivals[..m], arrivals[m];
      assert arrivals == before + [a];
      ServeSnoc(b, connection, before, a);
      RanBefore(b, connection, before);
      PendingWhileRunning(b, connection, before, id, n);
      HistoryGrows(b, connection, before, a, id, n);
      var _ := LetGoExactly(b, connection, before);
      OneEvent(Serve(b, connection, before).0, connection, a, id, n);
    }
  }

  lemma RanBefore(b: Bridge, connection: nat, arrivals: seq<Arrival>)
    requires Serve(b, connection, arrivals).1.Running?
    ensures arrivals == [] || Serve(b, connection, arrivals[..|arrivals| - 1]).1.Running?
  {
    if arrivals != [] {
      var m := |arrivals| - 1;
      assert arrivals == arrivals[..m] + [arrivals[m]];
      ServeSnoc(b, connection, arrivals[..m], arrivals[m]);
    }
  }

  /**
   * Who waits, in any interleaving: a waiter is pending at the end exactly when it was there or
   * was entered, and no later event the loop took answered its id, entered it anew, let the
   * bridge go, marked the attached connection, or attached another. A response takes the waiter
   * of its id and no other. The loop takes the events up to the first that ends it.
   */
  lemma PendingExactly(b: Bridge, connection: nat, arrivals: seq<Arrival>, id: string, n: nat) returns (k: nat)
    requires Attachment(b) && Interleaved(arrivals, connection)
    ensures k <= |arrivals|
    ensures forall i :: 0 <= i < k - 1 ==> !EndsLoop(Before(b, connection, arrivals, i), connection, arrivals[i])
    ensures k < |arrivals| ==> k > 0 && EndsLoop(Before(b, connection, arrivals, k - 1), connection, arrivals[k - 1])
    ensures Waits(Serve(b, connection, arrivals).0, id, n) <==>
      CameAndStayed(b, connection, arrivals[..k], id, n)
  {
    k := LetGoExactly(b, connection, arrivals);
    var taken := arrivals[..k];
    if k > 0 {
      assert taken[..k - 1] == arrivals[..k - 1];
      RunsOnExactly(b, connection, arrivals[..k - 1]);
      forall i | 0 <= i < k - 1
        ensures !EndsLoop(Before(b, connection, arrivals, i), connection, arrivals[i])
      {
        assert arrivals[..k - 1][..i] == arrivals[..i];
        assert !EndsLoop(Before(b, connection, arrivals[..k - 1], i), connection, arrivals[..k - 1][i]);
      }
    }
    if k < |arrivals| {
      assert taken == arrivals[..k - 1] + [arrivals[k - 1]];
      ServeSnoc(b, connection, arrivals[..k - 1], arrivals[k - 1]);
      OneEnding(Before(b, connection, arrivals, k - 1), connection, arrivals[k - 1]);
    }
    PendingWhileRunning(b, connection, taken, id, n);
  }

  /** Nothing in this event takes the waiter of `id` away. */
  predicate Spares(a: Arrival, id: string) {
    && !LetsGo(a) && !Replaces(a) && a != Arrival.Responded(id)
    && (a.Elsewhere? ==> a.section != Completing(id) && !(a.section.Entering? && a.section.requestId == id))
  }

  /** So a waiter handed to the connection stays behind when an error return ends its loop. */
  lemma {:induction false} WaitersLeftBehind(b: Bridge, connection: nat, arrivals: seq<Arrival>, id: string)
    requires Attachment(b) && Interleaved(arrivals, connection)
    requires b.activeConnection == Some(connection) && id in b.pending
    requires forall i :: 0 <= i < |arrivals| ==> Spares(arrivals[i], id)
    ensures var t := Serve(b, connection, arrivals).0;
      t.transport == b.transport && id in t.pending && t.pending[id] == b.pending[id]
    decreases |arrivals|
  {
    if arrivals != [] {
      OneArrival(b, connection, arrivals[0]);
      WaitersLeftBehind(AfterOne(b, connection, arrivals[0]), connection, arrivals[1..], id);
    }
  }
}
