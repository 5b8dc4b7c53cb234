/**
 * `BrowserBridge` (`legacy/rust-src/daemon.rs`): one method per section that holds the
 * lock, updating the shared fields in place.
 */
module Daemon {
  import opened Wrappers
  import opened DaemonModel
  import opened DaemonConnection

  class BrowserBridge {
    var snapshot: Snapshot
    var transport: Option<nat>
    var activeConnectionId: Option<nat>
    var pending: map<string, nat>

    function View(): Bridge
      reads this
    {
      Bridge(snapshot, transport, activeConnectionId, pending)
    }

    constructor ()
      ensures View() == NewBridge() && Attachment(View())
    {
      snapshot := Snapshot(WAITING, None, None, None);
      transport, activeConnectionId, pending := None, None, map[];
    }

    method AttachSection(connectionId: nat, sender: nat, browser: string, now: string) returns (stale: map<string, nat>)
      requires Attachment(View())
      modifies this
      ensures (View(), stale) == Attach(old(View()), connectionId, sender, browser, now)
      ensures Attachment(View()) && pending == map[] && stale == old(pending)
      ensures transport == Some(sender) && activeConnectionId == Some(connectionId)
      ensures snapshot == Snapshot(ATTACHED, Some(browser), Some(now), None)
    {
      stale := pending;
      pending := map[];
      transport := Some(sender);
      activeConnectionId := Some(connectionId);
      snapshot := snapshot.(status := ATTACHED);
      snapshot := snapshot.(browser := Some(browser));
      snapshot := snapshot.(connectedAt := Some(now));
      snapshot := snapshot.(lastError := None);
    }

    method CompleteSection(requestId: string) returns (sender: Option<nat>)
      requires Attachment(View())
      modifies this`pending
      ensures (View(), sender) == Complete(old(View()), requestId)
      ensures Attachment(View()) && pending == old(pending) - {requestId}
      ensures sender == if requestId in old(pending) then Some(old(pending)[requestId]) else None
    {
      if requestId !in pending {
        assert pending - {requestId} == pending;
        return None;
      }
      sender := Some(pending[requestId]);
      pending := pending - {requestId};
    }

    method MarkStatusSection(connectionId: nat, status: string, error: Option<string>)
      returns (taken: Option<map<string, nat>>)
      requires Attachment(View())
      modifies this
      ensures (View(), taken) == MarkStatus(old(View()), connectionId, status, error)
      ensures old(activeConnectionId) != Some(connectionId) ==> View() == old(View()) && taken.None?
      ensures Detaching(status) ==> Attachment(View())
      ensures old(activeConnectionId) == Some(connectionId) ==>
        && snapshot.status == status && snapshot.lastError == error && snapshot.browser == old(snapshot).browser
        && snapshot.connectedAt == (if status == ATTACHED then old(snapshot).connectedAt else None)
        && (status == DISCONNECTED || status == ERROR ==>
              transport.None? && activeConnectionId.None? && pending == map[] && taken == Some(old(pending)))
        && (status != DISCONNECTED && status != ERROR ==>
              transport == old(transport) && activeConnectionId == old(activeConnectionId)
              && pending == old(pending) && taken == Some(map[]))
    {
      if activeConnectionId != Some(connectionId) {
        return None;
      }
      var drained: map<string, nat> := map[];
      if status == DISCONNECTED || status == ERROR {
        transport := None;
        activeConnectionId := None;
        drained := pending;
        pending := map[];
      }
      snapshot := snapshot.(status := status);
      snapshot := snapshot.(connectedAt := if status == ATTACHED then snapshot.connectedAt else None);
      snapshot := snapshot.(lastError := error);
      taken := Some(drained);
    }

    method MarkError(connectionId: nat, error: string) returns (failing: map<string, nat>)
      requires Attachment(View())
      modifies this
      ensures Attachment(View())
      ensures old(activeConnectionId) != Some(connectionId) ==> View() == old(View()) && failing == map[]
      ensures old(activeConnectionId) == Some(connectionId) ==>
        failing == old(pending) && transport.None? && snapshot.status == ERROR && snapshot.lastError == Some(error)
    {
      var taken := MarkStatusSection(connectionId, ERROR, Some(error));
      failing := if taken.Some? then taken.value else map[];
    }

    method MarkDisconnected(connectionId: nat, error: Option<string>) returns (failing: map<string, nat>)
      requires Attachment(View())
      modifies this
      ensures Attachment(View())
      ensures old(activeConnectionId) != Some(connectionId) ==> View() == old(View()) && failing == map[]
      ensures old(activeConnectionId) == Some(connectionId) ==>
        failing == old(pending) && transport.None? && snapshot.status == DISCONNECTED && snapshot.lastError == error
    {
      var taken := MarkStatusSection(connectionId, DISCONNECTED, error);
      failing := if taken.Some? then taken.value else map[];
    }

    /** The locked part of `enqueue_request`. */
    method EnqueueSection(requestId: string, sender: nat, sendOk: bool) returns (outcome: EnterOutcome)
      requires Attachment(View())
      modifies this`pending
      ensures (View(), outcome) == Enter(old(View()), requestId, sender, sendOk)
      ensures Attachment(View()) && outcome != WrongStatus
      ensures outcome != Queued && requestId !in old(pending) ==> View() == old(View())
      ensures transport.None? ==> outcome == NoTransport && pending == old(pending)
      ensures transport.Some? && sendOk ==> outcome == Queued && pending == old(pending)[requestId := sender]
      ensures transport.Some? && !sendOk ==> outcome == SendFailed && pending == old(pending) - {requestId}
    {
      if transport.None? {
        return NoTransport;
      }
      if snapshot.status != ATTACHED {
        assert false;  // the attachment invariant excludes it
        return WrongStatus;
      }
      ghost var before := pending;
      pending := pending[requestId := sender];
      if !sendOk {
        pending := pending - {requestId};
        assert pending == before - {requestId};
        assert requestId !in before ==> before - {requestId} == before;
        return SendFailed;
      }
      outcome := Queued;
    }

    /** A section that another task runs while the loop waits. */
    method RunElsewhere(section: Section)
      requires Attachment(View()) && (section.Marking? ==> Detaching(section.status))
      modifies this
      ensures View() == Run(old(View()), section) && Attachment(View())
    {
      match section {
        case Attaching(connection, sender, browser, now) =>
          var _ := AttachSection(connection, sender, browser, now);
        case Marking(connection, status, error) =>
          var _ := MarkStatusSection(connection, status, error);
        case Completing(requestId) =>
          var _ := CompleteSection(requestId);
        case Entering(requestId, waiter, sendOk) =>
          var _ := EnqueueSection(requestId, waiter, sendOk);
      }
    }

    /** The loop of one connection, interleaved with the sections of other tasks. */
    method ServeConnection(connectionId: nat, arrivals: seq<Arrival>) returns (ending: Ending)
      requires Attachment(View()) && Interleaved(arrivals, connectionId)
      modifies this
      ensures (View(), ending) == Serve(old(View()), connectionId, arrivals)
      ensures Attachment(View())
    {
      for next := 0 to |arrivals|
        invariant Attachment(View())
        invariant Serve(old(View()), connectionId, arrivals) == Serve(View(), connectionId, arrivals[next..])
      {
        assert arrivals[next..][1..] == arrivals[next + 1..];
        match arrivals[next] {
          case ChannelClosed =>
            if activeConnectionId != Some(connectionId) {
              return Finished;
            }
          case ForwardFailed => return Abandoned;
          case ReceiveFailed => return Abandoned;
          case Undecodable => return Abandoned;
          case StreamEnded =>
            var _ := MarkStatusSection(connectionId, DISCONNECTED, None);
            return Finished;
          case CloseFrame =>
            var _ := MarkStatusSection(connectionId, DISCONNECTED, None);
            return Finished;
          case Reported(status, error) =>
            if status == ERROR {
              var _ := MarkStatusSection(connectionId, ERROR, Some(if error.Some? then error.value else UNKNOWN_ERROR));
            } else if status == DISCONNECTED {
              var _ := MarkStatusSection(connectionId, DISCONNECTED, error);
            }
          case Responded(requestId) =>
            var _ := CompleteSection(requestId);
          case Elsewhere(section) =>
            RunElsewhere(section);
          case _ =>
        }
      }
      ending := Running;
    }

    /** `fail_pending`: every waiter taken is sent the error, once each, in some order. */
    static method FailPending(failing: map<string, nat>, error: string)
      returns (sends: seq<(nat, string)>, order: seq<string>)
      ensures |sends| == |order| == |failing|
      ensures forall id :: id in order <==> id in failing
      ensures forall i, j :: 0 <= i < j < |order| ==> order[i] != order[j]
      ensures forall i :: 0 <= i < |order| ==> order[i] in failing && sends[i] == (failing[order[i]], error)
    {
      sends, order := [], [];
      var rest := failing.Keys;
      while rest != {}
        invariant rest <= failing.Keys
        invariant forall id :: id in order <==> id in failing && id !in rest
        invariant forall i, j :: 0 <= i < j < |order| ==> order[i] != order[j]
        invariant |sends| == |order| && |order| + |rest| == |failing|
        invariant forall i :: 0 <= i < |order| ==> order[i] in failing && sends[i] == (failing[order[i]], error)
        decreases |rest|
      {
        var id :| id in rest;
        sends := sends + [(failing[id], error)];
        order := order + [id];
        rest := rest - {id};
      }
    }
  }
}
