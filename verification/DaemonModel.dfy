/**
 * The daemon's side of the bridge (`legacy/rust-src/daemon.rs`): the state behind the lock,
 * what each locked section does to it, and every interleaving of the tasks that run them.
 *
 * Between a locked section and what follows it other tasks may run, so taking waiters out of
 * the pending map and answering them are separate moves, and so are drawing a request number
 * and entering the map.
 */
module DaemonModel {
  import opened Wrappers
  import Decimal

  const WAITING := "waiting"
  const ATTACHED := "attached"
  const DISCONNECTED := "disconnected"
  const ERROR := "error"

  /** Both counters are unsigned 64-bit and wrap. */
  const COUNTER_RANGE: nat := 0x1_0000_0000_0000_0000

  datatype Snapshot = Snapshot(
    status: string, browser: Option<string>, connectedAt: Option<string>, lastError: Option<string>)

  /** `pending` maps request ids to waiters; a waiter is named by the position of its call. */
  datatype Bridge = Bridge(
    snapshot: Snapshot, transport: Option<nat>, activeConnection: Option<nat>, pending: map<string, nat>)

  function NewBridge(): Bridge {
    Bridge(Snapshot(WAITING, None, None, None), None, None, map[])
  }

  // ---------- numbering ----------

  /** The identifier of the n-th call, counting from zero; the counter starts at one. */
  function RequestId(n: nat): string {
    "bridge-" + Decimal.Render((1 + n) % COUNTER_RANGE)
  }

  function ConnectionId(c: nat): nat {
    (1 + c) % COUNTER_RANGE
  }

  /** Numbers repeat exactly after a full turn of the counter, and so do the ids made from them. */
  lemma IdsRepeatExactly(m: nat, n: nat)
    ensures RequestId(m) == RequestId(n) <==> m % COUNTER_RANGE == n % COUNTER_RANGE
    ensures ConnectionId(m) == ConnectionId(n) <==> m % COUNTER_RANGE == n % COUNTER_RANGE
  {
    var i, j := ConnectionId(m), ConnectionId(n);
    CounterTurns(m, n);
    if RequestId(m) == RequestId(n) {
      assert RequestId(m)[7..] == Decimal.Render(i) && RequestId(n)[7..] == Decimal.Render(j);
      Decimal.RenderInjective(i, j);
    }
  }

  lemma CounterTurns(m: nat, n: nat)
    ensures ConnectionId(m) == ConnectionId(n) <==> m % COUNTER_RANGE == n % COUNTER_RANGE
  {
  }

  lemma IdsDifferWithinRange(m: nat, n: nat)
    requires m < COUNTER_RANGE && n < COUNTER_RANGE && m != n
    ensures RequestId(m) != RequestId(n) && ConnectionId(m) != ConnectionId(n)
  {
    IdsRepeatExactly(m, n);
  }

  // ---------- locked sections ----------

  function Attach(b: Bridge, connection: nat, transport: nat, browser: string, now: string)
    : (Bridge, map<string, nat>)
  {
    (Bridge(Snapshot(ATTACHED, Some(browser), Some(now), None), Some(transport), Some(connection), map[]), b.pending)
  }

  predicate Detaching(status: string) {
    status == DISCONNECTED || status == ERROR
  }

  function MarkStatus(b: Bridge, connection: nat, status: string, error: Option<string>)
    : (Bridge, Option<map<string, nat>>)
  {
    if b.activeConnection != Some(connection) then (b, None)
    else
      var snapshot := Snapshot(status, b.snapshot.browser,
                               if status == ATTACHED then b.snapshot.connectedAt else None, error);
      if Detaching(status) then (Bridge(snapshot, None, None, map[]), Some(b.pending))
      else (b.(snapshot := snapshot), Some(map[]))
  }

  function Complete(b: Bridge, requestId: string): (Bridge, Option<nat>) {
    if requestId in b.pending then (b.(pending := b.pending - {requestId}), Some(b.pending[requestId]))
    else (b, None)
  }

  datatype EnterOutcome = Queued | NoTransport | WrongStatus | SendFailed

  function Enter(b: Bridge, requestId: string, waiter: nat, sendOk: bool): (Bridge, EnterOutcome) {
    if b.transport.None? then (b, NoTransport)
    else if b.snapshot.status != ATTACHED then (b, WrongStatus)
    else if sendOk then (b.(pending := b.pending[requestId := waiter]), Queued)
    else (b.(pending := b.pending - {requestId}), SendFailed)
  }

  // ---------- the attachment invariant ----------

  predicate Attachment(b: Bridge) {
    && (b.transport.Some? <==> b.activeConnection.Some?)
    && (b.transport.Some? <==> b.snapshot.status == ATTACHED)
    && (b.transport.Some? <==> b.snapshot.connectedAt.Some?)
    && (b.transport.None? ==> b.pending == map[])
  }

  /** Every locked section the tasks run keeps it, and under it the second status check is dead. */
  lemma SectionsKeepAttachment(b: Bridge, connection: nat, transport: nat, text: string, now: string,
                               error: Option<string>, requestId: string, waiter: nat, sendOk: bool)
    requires Attachment(b)
    ensures Attachment(Attach(b, connection, transport, text, now).0)
    ensures Detaching(text) ==> Attachment(MarkStatus(b, connection, text, error).0)
    ensures Attachment(Complete(b, requestId).0)
    ensures Attachment(Enter(b, requestId, waiter, sendOk).0)
    ensures Enter(b, requestId, waiter, sendOk).1 != WrongStatus
  {
  }

  /** `mark_status` as such keeps it exactly for these statuses; its callers pass only the detaching two. */
  lemma MarkStatusKeepsExactly(b: Bridge, connection: nat, status: string, error: Option<string>)
    requires Attachment(b)
    ensures Attachment(MarkStatus(b, connection, status, error).0)
            <==> (b.activeConnection != Some(connection) || Detaching(status) || status == ATTACHED)
  {
  }

  // ---------- all tasks together ----------

  /** Why a waiter was failed: a newer connection attached, or a connection reported its end. */
  datatype Cause = ReplacedBy(connection: nat) | ReportedBy(connection: nat)

  datatype Answer = Value(payload: string) | Refusal(code: int, error: string)

  /** A response as it came in: the id it names, what it says, and the connection it came on. */
  datatype Response = Response(named: string, answer: Answer, origin: nat)

  /** One use of a waiter's one-shot channel. */
  datatype Sending = Responded(named: string, answer: Answer, origin: nat) | Failed(cause: Cause)

  /** Waiters taken out of the map by one task and not yet failed by it. */
  datatype Batch = Batch(waiters: map<string, nat>, cause: Cause)

  /** What a call of `enqueue_request` returned. */
  datatype Return = Received(sending: Sending) | TimedOut | NotAttached

  /** Where a waiter is. The invariant ties each place to the container it stands for. */
  datatype Place = Drawn | Pending | Batched(batch: nat) | Taken | Sent(at: nat) | Removed | Refused

  /**
   * `ids`: the id drawn by each call so far; `connections`: the id of each connection.
   * `drawn`: calls that have their id and not yet the lock. `taken`: waiters removed by a
   * response and not yet answered. `sends`: every use of a channel, in order. `removed`:
   * entries withdrawn after a failed send. `refused`: calls that found no bridge. `results`:
   * what calls returned, in order. `outbox`: requests handed to each connection's channel.
   * `attached`: connections that have attached. `owner`: the connection that was active
   * when a waiter entered the map.
   */
  datatype World = World(
    bridge: Bridge,
    ids: seq<string>,
    connections: seq<nat>,
    drawn: set<nat>,
    batches: seq<Batch>,
    taken: map<nat, Response>,
    sends: seq<(nat, Sending)>,
    removed: set<nat>,
    refused: set<nat>,
    results: seq<(nat, Return)>,
    outbox: seq<(nat, string)>,
    attached: set<nat>,
    owner: map<nat, nat>,
    place: seq<Place>)

  function NewWorld(): World {
    World(NewBridge(), [], [], {}, [], map[], [], {}, {}, [], [], {}, map[], [])
  }

  datatype Move =
    | Call
    | EnterLock(waiter: nat, sendOk: bool)
    | Accept
    | AttachLock(connection: nat, browser: string, now: string)
    | StatusLock(connection: nat, status: string, error: Option<string>)
    | FailOne(batch: nat, id: string)
    | CompleteLock(connection: nat, named: string, answer: Answer)
    | Deliver(waiter: nat)
    | Receive(position: nat)
    | Timeout(waiter: nat)

  ghost predicate HasReturned(results: seq<(nat, Return)>, n: nat) {
    exists i :: 0 <= i < |results| && results[i].0 == n
  }

  ghost predicate Enabled(w: World, m: Move) {
    match m
    case EnterLock(n, _) => n in w.drawn && n < |w.ids| == |w.place|
    case AttachLock(c, _, _) => c < |w.connections| && c !in w.attached
    case StatusLock(c, status, _) => c < |w.connections| && Detaching(status)
    case FailOne(i, id) => i < |w.batches| && id in w.batches[i].waiters && w.batches[i].waiters[id] < |w.place|
    case CompleteLock(c, named, _) =>
      c < |w.connections| && (named in w.bridge.pending ==> w.bridge.pending[named] < |w.place|)
    case Deliver(n) => n in w.taken && n < |w.place|
    case Receive(i) => i < |w.sends| && !HasReturned(w.results, w.sends[i].0)
    case Timeout(n) =>
      n < |w.place| && n !in w.drawn && n !in w.removed && n !in w.refused && !HasReturned(w.results, n)
    case _ => true
  }

  ghost function ReturnFrom(w: World, n: nat, r: Return): World {
    w.(results := w.results + [(n, r)])
  }

  ghost function SendTo(w: World, n: nat, s: Sending): World
    requires n < |w.place|
  {
    w.(sends := w.sends + [(n, s)], place := w.place[n := Sent(|w.sends|)])
  }

  ghost function OnCall(w: World): World {
    w.(ids := w.ids + [RequestId(|w.ids|)], drawn := w.drawn + {|w.ids|}, place := w.place + [Drawn])
  }

  ghost function OnEnter(w: World, n: nat, sendOk: bool): World
    requires n < |w.ids| == |w.place|
  {
    var (b, outcome) := Enter(w.bridge, w.ids[n], n, sendOk);
    var t := w.(bridge := b, drawn := w.drawn - {n});
    match outcome
    case Queued =>
      t.(place := w.place[n := Pending], outbox := w.outbox + [(w.bridge.transport.value, w.ids[n])],
         owner := w.owner[n := w.bridge.transport.value])
    case SendFailed => ReturnFrom(t.(place := w.place[n := Removed], removed := w.removed + {n}), n, NotAttached)
    case _ => ReturnFrom(t.(place := w.place[n := Refused], refused := w.refused + {n}), n, NotAttached)
  }

  ghost function Rebatched(place: seq<Place>, moved: set<nat>, batch: nat): seq<Place> {
    seq(|place|, n requires 0 <= n < |place| => if n in moved then Batched(batch) else place[n])
  }

  /** Move a whole pending map into a new batch. */
  ghost function TakeAll(w: World, b: Bridge, cause: Cause): World {
    w.(bridge := b, batches := w.batches + [Batch(w.bridge.pending, cause)],
       place := Rebatched(w.place, w.bridge.pending.Values, |w.batches|))
  }

  ghost function OnAttach(w: World, c: nat, browser: string, now: string): World
    requires c < |w.connections|
  {
    TakeAll(w.(attached := w.attached + {c}), Attach(w.bridge, w.connections[c], c, browser, now).0, ReplacedBy(c))
  }

  ghost function OnStatus(w: World, c: nat, status: string, error: Option<string>): World
    requires c < |w.connections|
  {
    var (b, pending) := MarkStatus(w.bridge, w.connections[c], status, error);
    if pending.None? then w else TakeAll(w, b, ReportedBy(c))
  }

  ghost function OnFailOne(w: World, i: nat, id: string): World
    requires i < |w.batches| && id in w.batches[i].waiters && w.batches[i].waiters[id] < |w.place|
  {
    var batch := w.batches[i];
    SendTo(w.(batches := w.batches[i := batch.(waiters := batch.waiters - {id})]),
           batch.waiters[id], Failed(batch.cause))
  }

  ghost function OnComplete(w: World, c: nat, named: string, answer: Answer): World
    requires named in w.bridge.pending ==> w.bridge.pending[named] < |w.place|
  {
    var (b, waiter) := Complete(w.bridge, named);
    if waiter.None? then w
    else w.(bridge := b, taken := w.taken[waiter.value := Response(named, answer, c)],
            place := w.place[waiter.value := Taken])
  }

  function Responding(r: Response): Sending {
    Responded(r.named, r.answer, r.origin)
  }

  ghost function OnDeliver(w: World, n: nat): World
    requires n in w.taken && n < |w.place|
  {
    SendTo(w.(taken := w.taken - {n}), n, Responding(w.taken[n]))
  }

  ghost function Step(w: World, m: Move): World
    requires Enabled(w, m)
  {
    match m
    case Call => OnCall(w)
    case EnterLock(n, sendOk) => OnEnter(w, n, sendOk)
    case Accept => w.(connections := w.connections + [ConnectionId(|w.connections|)])
    case AttachLock(c, browser, now) => OnAttach(w, c, browser, now)
    case StatusLock(c, status, error) => OnStatus(w, c, status, error)
    case FailOne(i, id) => OnFailOne(w, i, id)
    case CompleteLock(c, named, answer) => OnComplete(w, c, named, answer)
    case Deliver(n) => OnDeliver(w, n)
    case Receive(i) => ReturnFrom(w, w.sends[i].0, Received(w.sends[i].1))
    case Timeout(n) => ReturnFrom(w, n, TimedOut)
  }

  ghost function After(run: seq<Move>): World {
    if run == [] then NewWorld()
    else
      var w, m := After(run[..|run| - 1]), run[|run| - 1];
      if Enabled(w, m) then Step(w, m) else w
  }

  // ---------- what every run keeps ----------

  ghost predicate Distinct<T>(s: seq<T>) {
    forall i, j :: 0 <= i < j < |s| ==> s[i] != s[j]
  }

  /** The simple containers hold exactly the waiters placed there. */
  ghost predicate SimplePlaced(place: seq<Place>, drawn: set<nat>, taken: set<nat>, removed: set<nat>,
                               refused: set<nat>) {
    && (forall n: nat :: n in drawn <==> n < |place| && place[n].Drawn?)
    && (forall n: nat :: n in taken <==> n < |place| && place[n].Taken?)
    && (forall n: nat :: n in removed <==> n < |place| && place[n].Removed?)
    && (forall n: nat :: n in refused <==> n < |place| && place[n].Refused?)
  }

  /** A map holds exactly the waiters with this place, each under its own id. */
  ghost predicate MapPlaced(place: seq<Place>, ids: seq<string>, waiters: map<string, nat>, p: Place)
    requires |place| == |ids|
  {
    && (forall n :: 0 <= n < |place| && place[n] == p ==> ids[n] in waiters && waiters[ids[n]] == n)
    && (forall id :: id in waiters ==> waiters[id] < |place| && place[waiters[id]] == p && ids[waiters[id]] == id)
  }

  ghost predicate BatchesPlaced(place: seq<Place>, ids: seq<string>, batches: seq<Batch>)
    requires |place| == |ids|
  {
    && (forall n :: 0 <= n < |place| && place[n].Batched? ==> place[n].batch < |batches|)
    && (forall i :: 0 <= i < |batches| ==> MapPlaced(place, ids, batches[i].waiters, Batched(i)))
  }

  /** The log of channel uses has each sent waiter at its place; no channel is used twice. */
  ghost predicate SendsPlaced(place: seq<Place>, sends: seq<(nat, Sending)>) {
    && (forall n :: 0 <= n < |place| && place[n].Sent? ==> place[n].at < |sends| && sends[place[n].at].0 == n)
    && (forall i :: 0 <= i < |sends| ==> sends[i].0 < |place| && place[sends[i].0] == Sent(i))
  }

  /** Every waiter is in exactly one place, and every container agrees. */
  ghost predicate Partition(w: World) {
    && |w.place| == |w.ids|
    && SimplePlaced(w.place, w.drawn, w.taken.Keys, w.removed, w.refused)
    && MapPlaced(w.place, w.ids, w.bridge.pending, Pending)
    && BatchesPlaced(w.place, w.ids, w.batches)
    && SendsPlaced(w.place, w.sends)
  }

  /** A response reaches only the waiter whose id it names. */
  ghost predicate NamedOnly(ids: seq<string>, taken: map<nat, Response>, sends: seq<(nat, Sending)>) {
    && (forall n :: n in taken ==> n < |ids| && taken[n].named == ids[n])
    && (forall i :: 0 <= i < |sends| && sends[i].1.Responded? ==>
          sends[i].0 < |ids| && sends[i].1.named == ids[sends[i].0])
  }

  ghost predicate Returned(results: seq<(nat, Return)>, place: seq<Place>, sends: seq<(nat, Sending)>) {
    && (forall i, j :: 0 <= i < j < |results| ==> results[i].0 != results[j].0)
    && (forall i :: 0 <= i < |results| ==> results[i].0 < |place| && !place[results[i].0].Drawn?)
    && (forall i :: 0 <= i < |results| && results[i].1.Received? ==> (results[i].0, results[i].1.sending) in sends)
  }

  /** A call whose entry was withdrawn or never made has been told so. */
  ghost predicate Settled(results: seq<(nat, Return)>, removed: set<nat>, refused: set<nat>) {
    forall n :: n in removed + refused ==> (n, NotAttached) in results
  }

  ghost predicate Justified(owner: map<nat, nat>, n: nat, cause: Cause) {
    n in owner && match cause
      case ReplacedBy(c) => owner[n] != c
      case ReportedBy(c) => owner[n] == c
  }

  /**
   * A waiter is failed only by the connection it was handed to reporting its own end, or by
   * another connection attaching: never by an error or disconnect of an older one.
   */
  ghost predicate FailuresJustified(owner: map<nat, nat>, batches: seq<Batch>, sends: seq<(nat, Sending)>) {
    && (forall i, id :: 0 <= i < |batches| && id in batches[i].waiters ==>
          Justified(owner, batches[i].waiters[id], batches[i].cause))
    && (forall i :: 0 <= i < |sends| && sends[i].1.Failed? ==> Justified(owner, sends[i].0, sends[i].1.cause))
  }

  /** What is pending was handed to the channel of the connection now attached, and belongs to it. */
  ghost predicate HandedOver(b: Bridge, owner: map<nat, nat>, outbox: seq<(nat, string)>) {
    forall id :: id in b.pending ==>
      b.transport.Some? && (b.transport.value, id) in outbox
      && b.pending[id] in owner && owner[b.pending[id]] == b.transport.value
  }

  ghost predicate Connected(b: Bridge, connections: seq<nat>, attached: set<nat>) {
    b.transport.Some? ==>
      b.transport.value < |connections| && b.transport.value in attached
      && b.activeConnection == Some(connections[b.transport.value])
  }

  ghost predicate Inv(w: World) {
    && Attachment(w.bridge) && Partition(w)
    && Distinct(w.ids) && Distinct(w.connections)
    && NamedOnly(w.ids, w.taken, w.sends)
    && Returned(w.results, w.place, w.sends) && Settled(w.results, w.removed, w.refused)
    && FailuresJustified(w.owner, w.batches, w.sends)
    && HandedOver(w.bridge, w.owner, w.outbox)
    && Connected(w.bridge, w.connections, w.attached)
    && (forall n :: n in w.owner ==> w.owner[n] in w.attached && n < |w.place| && !w.place[n].Drawn?)
  }

  ghost predicate WithinCounters(w: World) {
    |w.ids| <= COUNTER_RANGE && |w.connections| <= COUNTER_RANGE
  }

  // ---------- moving one waiter ----------

  /** A waiter moves: the container of its old place loses it, that of the new one gains it, the others stay. */
  lemma SimpleMoves(place: seq<Place>, drawn: set<nat>, taken: set<nat>, removed: set<nat>, refused: set<nat>,
                    n: nat, p: Place)
    requires SimplePlaced(place, drawn, taken, removed, refused) && n < |place|
    ensures SimplePlaced(place[n := p],
                         Moved(drawn, n, place[n].Drawn?, p.Drawn?), Moved(taken, n, place[n].Taken?, p.Taken?),
                         Moved(removed, n, place[n].Removed?, p.Removed?),
                         Moved(refused, n, place[n].Refused?, p.Refused?))
  {
    var t := place[n := p];
    forall k: nat ensures k < |place| ==> t[k] == if k == n then p else place[k] {}
  }

  function Moved(s: set<nat>, n: nat, from: bool, to: bool): set<nat> {
    if to then s + {n} else if from then s - {n} else s
  }

  lemma MapGains(place: seq<Place>, ids: seq<string>, waiters: map<string, nat>, q: Place, n: nat)
    requires |place| == |ids| && n < |place| && Distinct(ids)
    requires MapPlaced(place, ids, waiters, q)
    ensures MapPlaced(place[n := q], ids, waiters[ids[n] := n], q)
  {
    forall id | id in waiters && id != ids[n] ensures waiters[id] != n {
      assert ids[waiters[id]] == id;
    }
    OthersKeepTheirIds(ids, n);
  }

  lemma MapLoses(place: seq<Place>, ids: seq<string>, waiters: map<string, nat>, q: Place, n: nat, p: Place)
    requires |place| == |ids| && n < |place| && Distinct(ids) && p != q
    requires MapPlaced(place, ids, waiters, q)
    ensures MapPlaced(place[n := p], ids, waiters - {ids[n]}, q)
  {
    forall id | id in waiters && id != ids[n] ensures waiters[id] != n {
      assert ids[waiters[id]] == id;
    }
    OthersKeepTheirIds(ids, n);
  }

  lemma OthersKeepTheirIds(ids: seq<string>, n: nat)
    requires Distinct(ids) && n < |ids|
    ensures forall k :: 0 <= k < |ids| && k != n ==> ids[k] != ids[n]
  {
  }

  lemma MapStays(place: seq<Place>, ids: seq<string>, waiters: map<string, nat>, q: Place, n: nat, p: Place)
    requires |place| == |ids| && n < |place| && place[n] != q && p != q
    requires MapPlaced(place, ids, waiters, q)
    ensures MapPlaced(place[n := p], ids, waiters, q)
  {
  }

  lemma BatchesStay(place: seq<Place>, ids: seq<string>, batches: seq<Batch>, n: nat, p: Place)
    requires |place| == |ids| && n < |place| && !place[n].Batched? && !p.Batched?
    requires BatchesPlaced(place, ids, batches)
    ensures BatchesPlaced(place[n := p], ids, batches)
  {
    forall i | 0 <= i < |batches| ensures MapPlaced(place[n := p], ids, batches[i].waiters, Batched(i)) {
      MapStays(place, ids, batches[i].waiters, Batched(i), n, p);
    }
  }

  lemma BatchesLose(place: seq<Place>, ids: seq<string>, batches: seq<Batch>, b: nat, n: nat, p: Place)
    requires |place| == |ids| && n < |place| && Distinct(ids)
    requires b < |batches| && place[n] == Batched(b) && !p.Batched?
    requires BatchesPlaced(place, ids, batches)
    ensures BatchesPlaced(place[n := p], ids, batches[b := batches[b].(waiters := batches[b].waiters - {ids[n]})])
  {
    var after := batches[b := batches[b].(waiters := batches[b].waiters - {ids[n]})];
    forall i | 0 <= i < |after| ensures MapPlaced(place[n := p], ids, after[i].waiters, Batched(i)) {
      if i == b {
        MapLoses(place, ids, batches[b].waiters, Batched(b), n, p);
      } else {
        MapStays(place, ids, batches[i].waiters, Batched(i), n, p);
      }
    }
  }

  lemma SendsStay(place: seq<Place>, sends: seq<(nat, Sending)>, n: nat, p: Place)
    requires n < |place| && !place[n].Sent? && !p.Sent? && SendsPlaced(place, sends)
    ensures SendsPlaced(place[n := p], sends)
  {
  }

  lemma SendsGain(place: seq<Place>, sends: seq<(nat, Sending)>, n: nat, s: Sending)
    requires n < |place| && !place[n].Sent? && SendsPlaced(place, sends)
    ensures SendsPlaced(place[n := Sent(|sends|)], sends + [(n, s)])
  {
  }

  // ---------- each move ----------

  lemma CallPartition(w: World)
    requires Partition(w)
    ensures Partition(OnCall(w))
  {
    var t := OnCall(w);
    MapGrows(w.place, w.ids, w.bridge.pending, Pending, Drawn, RequestId(|w.ids|));
    forall i | 0 <= i < |w.batches| ensures MapPlaced(t.place, t.ids, t.batches[i].waiters, Batched(i)) {
      MapGrows(w.place, w.ids, w.batches[i].waiters, Batched(i), Drawn, RequestId(|w.ids|));
    }
  }

  lemma MapGrows(place: seq<Place>, ids: seq<string>, waiters: map<string, nat>, q: Place, p: Place, id: string)
    requires |place| == |ids| && MapPlaced(place, ids, waiters, q) && p != q
    ensures MapPlaced(place + [p], ids + [id], waiters, q)
  {
  }

  lemma CallKeeps(w: World)
    requires Inv(w) && |w.ids| < COUNTER_RANGE
    requires forall n :: 0 <= n < |w.ids| ==> w.ids[n] != RequestId(|w.ids|)
    ensures Inv(OnCall(w))
  {
    CallPartition(w);
  }

  lemma EnterPartition(w: World, n: nat, sendOk: bool)
    requires Inv(w) && n in w.drawn
    ensures Partition(OnEnter(w, n, sendOk))
  {
    var t := OnEnter(w, n, sendOk);
    var p := t.place[n];
    SimpleMoves(w.place, w.drawn, w.taken.Keys, w.removed, w.refused, n, p);
    BatchesStay(w.place, w.ids, w.batches, n, p);
    SendsStay(w.place, w.sends, n, p);
    match p
    case Refused => MapStays(w.place, w.ids, w.bridge.pending, Pending, n, p);
    case Pending => MapGains(w.place, w.ids, w.bridge.pending, Pending, n);
    case _ => MapLoses(w.place, w.ids, w.bridge.pending, Pending, n, p);
  }

  lemma EnterReturns(w: World, n: nat, sendOk: bool)
    requires Inv(w) && n in w.drawn
    ensures Returned(OnEnter(w, n, sendOk).results, OnEnter(w, n, sendOk).place, w.sends)
  {
    assert forall i :: 0 <= i < |w.results| ==> w.results[i].0 != n;
  }

  lemma EnterSettles(w: World, n: nat, sendOk: bool)
    requires Inv(w) && n in w.drawn
    ensures var t := OnEnter(w, n, sendOk); Settled(t.results, t.removed, t.refused)
  {
    var t := OnEnter(w, n, sendOk);
    assert t.results != w.results ==> t.results[|w.results|] == (n, NotAttached);
    assert forall r :: r in w.results ==> r in t.results;
  }

  lemma EnterOwner(w: World, n: nat, sendOk: bool)
    requires Inv(w) && n in w.drawn
    ensures var t := OnEnter(w, n, sendOk);
      && HandedOver(t.bridge, t.owner, t.outbox)
      && FailuresJustified(t.owner, t.batches, t.sends)
  {
    var t := OnEnter(w, n, sendOk);
    assert n !in w.owner;
    assert forall k :: k in w.owner ==> k in t.owner && t.owner[k] == w.owner[k];
    forall id | id in t.bridge.pending
      ensures t.bridge.transport.Some? && (t.bridge.transport.value, id) in t.outbox
        && t.bridge.pending[id] in t.owner && t.owner[t.bridge.pending[id]] == t.bridge.transport.value
    {
      if id !in w.bridge.pending || t.bridge.pending[id] == n {
        assert t.outbox[|w.outbox|] == (w.bridge.transport.value, w.ids[n]);
      } else {
        assert (w.bridge.transport.value, id) in w.outbox;
      }
    }
  }

  lemma EnterKeeps(w: World, n: nat, sendOk: bool)
    requires Inv(w) && n in w.drawn
    ensures Inv(OnEnter(w, n, sendOk))
  {
    EnterPartition(w, n, sendOk);
    EnterReturns(w, n, sendOk);
    EnterSettles(w, n, sendOk);
    EnterOwner(w, n, sendOk);
  }

  /** The waiters of the map, renamed as a batch. */
  lemma MapRebatched(place: seq<Place>, ids: seq<string>, pending: map<string, nat>, batch: nat)
    requires |place| == |ids| && MapPlaced(place, ids, pending, Pending)
    requires forall n :: 0 <= n < |place| ==> place[n] != Batched(batch)
    ensures var t := Rebatched(place, pending.Values, batch);
      && MapPlaced(t, ids, pending, Batched(batch)) && MapPlaced(t, ids, map[], Pending)
      && forall n :: 0 <= n < |place| ==> t[n] == if place[n] == Pending then Batched(batch) else place[n]
  {
    forall n | 0 <= n < |place| ensures n in pending.Values <==> place[n] == Pending {
      if place[n] == Pending {
        assert pending[ids[n]] == n;
      }
    }
  }

  lemma MapUntouched(place: seq<Place>, t: seq<Place>, ids: seq<string>, waiters: map<string, nat>, q: Place,
                     batch: nat)
    requires |place| == |ids| == |t| && MapPlaced(place, ids, waiters, q) && q != Pending && q != Batched(batch)
    requires forall n :: 0 <= n < |place| ==> t[n] == if place[n] == Pending then Batched(batch) else place[n]
    ensures MapPlaced(t, ids, waiters, q)
  {
  }

  lemma TakeAllPartition(w: World, b: Bridge, cause: Cause)
    requires Inv(w) && b.pending == map[]
    ensures Partition(TakeAll(w, b, cause))
  {
    var t := TakeAll(w, b, cause);
    MapRebatched(w.place, w.ids, w.bridge.pending, |w.batches|);
    forall i | 0 <= i < |t.batches| ensures MapPlaced(t.place, t.ids, t.batches[i].waiters, Batched(i)) {
      if i < |w.batches| {
        MapUntouched(w.place, t.place, w.ids, w.batches[i].waiters, Batched(i), |w.batches|);
      }
    }
  }

  lemma TakeAllKeeps(w: World, b: Bridge, cause: Cause)
    requires Inv(w) && Attachment(b) && b.pending == map[]
    requires Connected(b, w.connections, w.attached)
    requires forall id :: id in w.bridge.pending ==> Justified(w.owner, w.bridge.pending[id], cause)
    ensures Inv(TakeAll(w, b, cause))
  {
    TakeAllPartition(w, b, cause);
  }

  lemma AttachKeeps(w: World, c: nat, browser: string, now: string)
    requires Inv(w) && Enabled(w, AttachLock(c, browser, now))
    ensures Inv(OnAttach(w, c, browser, now))
  {
    var joined := w.(attached := w.attached + {c});
    TakeAllKeeps(joined, Attach(w.bridge, w.connections[c], c, browser, now).0, ReplacedBy(c));
  }

  lemma StatusKeeps(w: World, c: nat, status: string, error: Option<string>)
    requires Inv(w) && Enabled(w, StatusLock(c, status, error))
    ensures Inv(OnStatus(w, c, status, error))
  {
    if w.bridge.activeConnection == Some(w.connections[c]) {
      assert w.bridge.transport.value == c;
      TakeAllKeeps(w, MarkStatus(w.bridge, w.connections[c], status, error).0, ReportedBy(c));
    }
  }

  lemma FailOnePartition(w: World, i: nat, id: string)
    requires Inv(w) && Enabled(w, FailOne(i, id))
    ensures Partition(OnFailOne(w, i, id)) && w.place[w.batches[i].waiters[id]] == Batched(i)
  {
    var n := w.batches[i].waiters[id];
    var p := Sent(|w.sends|);
    assert MapPlaced(w.place, w.ids, w.batches[i].waiters, Batched(i));
    assert w.place[n] == Batched(i) && w.ids[n] == id;
    SimpleMoves(w.place, w.drawn, w.taken.Keys, w.removed, w.refused, n, p);
    MapStays(w.place, w.ids, w.bridge.pending, Pending, n, p);
    BatchesLose(w.place, w.ids, w.batches, i, n, p);
    SendsGain(w.place, w.sends, n, Failed(w.batches[i].cause));
  }

  lemma FailOneJustified(w: World, i: nat, id: string)
    requires Inv(w) && Enabled(w, FailOne(i, id))
    ensures FailuresJustified(w.owner, OnFailOne(w, i, id).batches, OnFailOne(w, i, id).sends)
  {
    var t := OnFailOne(w, i, id);
    assert Justified(w.owner, w.batches[i].waiters[id], w.batches[i].cause);
    forall k, x | 0 <= k < |t.batches| && x in t.batches[k].waiters
      ensures Justified(w.owner, t.batches[k].waiters[x], t.batches[k].cause)
    {
      assert x in w.batches[k].waiters;
    }
  }

  lemma FailOneKeeps(w: World, i: nat, id: string)
    requires Inv(w) && Enabled(w, FailOne(i, id))
    ensures Inv(OnFailOne(w, i, id))
  {
    FailOnePartition(w, i, id);
    FailOneJustified(w, i, id);
    ReturnedStays(w.results, w.place, w.sends, w.batches[i].waiters[id], Failed(w.batches[i].cause));
  }

  lemma ReturnedStays(results: seq<(nat, Return)>, place: seq<Place>, sends: seq<(nat, Sending)>, n: nat, s: Sending)
    requires Returned(results, place, sends) && n < |place|
    ensures Returned(results, place[n := Sent(|sends|)], sends + [(n, s)])
  {
  }

  lemma CompletePartition(w: World, c: nat, named: string, answer: Answer)
    requires Inv(w) && named in w.bridge.pending && w.bridge.pending[named] < |w.place|
    ensures Partition(OnComplete(w, c, named, answer)) && w.ids[w.bridge.pending[named]] == named
  {
    var n := w.bridge.pending[named];
    SimpleMoves(w.place, w.drawn, w.taken.Keys, w.removed, w.refused, n, Taken);
    MapLoses(w.place, w.ids, w.bridge.pending, Pending, n, Taken);
    BatchesStay(w.place, w.ids, w.batches, n, Taken);
    SendsStay(w.place, w.sends, n, Taken);
    assert OnComplete(w, c, named, answer).taken.Keys == w.taken.Keys + {n};
  }

  lemma CompleteKeeps(w: World, c: nat, named: string, answer: Answer)
    requires Inv(w) && Enabled(w, CompleteLock(c, named, answer))
    ensures Inv(OnComplete(w, c, named, answer))
  {
    if named in w.bridge.pending {
      CompletePartition(w, c, named, answer);
    }
  }

  lemma DeliverPartition(w: World, n: nat)
    requires Inv(w) && Enabled(w, Deliver(n))
    ensures Partition(OnDeliver(w, n)) && w.place[n].Taken?
  {
    var p := Sent(|w.sends|);
    SimpleMoves(w.place, w.drawn, w.taken.Keys, w.removed, w.refused, n, p);
    MapStays(w.place, w.ids, w.bridge.pending, Pending, n, p);
    BatchesStay(w.place, w.ids, w.batches, n, p);
    SendsGain(w.place, w.sends, n, Responding(w.taken[n]));
    assert OnDeliver(w, n).taken.Keys == w.taken.Keys - {n};
  }

  lemma DeliverKeeps(w: World, n: nat)
    requires Inv(w) && Enabled(w, Deliver(n))
    ensures Inv(OnDeliver(w, n))
  {
    DeliverPartition(w, n);
    ReturnedStays(w.results, w.place, w.sends, n, Responding(w.taken[n]));
  }

  lemma StepKeeps(w: World, m: Move)
    requires Inv(w) && Enabled(w, m) && WithinCounters(Step(w, m))
    requires forall n :: 0 <= n < |w.ids| ==> w.ids[n] == RequestId(n)
    requires forall c :: 0 <= c < |w.connections| ==> w.connections[c] == ConnectionId(c)
    ensures Inv(Step(w, m))
  {
    match m
    case Call =>
      forall n | 0 <= n < |w.ids| ensures w.ids[n] != RequestId(|w.ids|) {
        IdsDifferWithinRange(n, |w.ids|);
      }
      CallKeeps(w);
    case EnterLock(n, sendOk) => EnterKeeps(w, n, sendOk);
    case Accept =>
      forall c | 0 <= c < |w.connections| ensures w.connections[c] != ConnectionId(|w.connections|) {
        IdsDifferWithinRange(c, |w.connections|);
      }
    case AttachLock(c, browser, now) => AttachKeeps(w, c, browser, now);
    case StatusLock(c, status, error) => StatusKeeps(w, c, status, error);
    case FailOne(i, id) => FailOneKeeps(w, i, id);
    case CompleteLock(c, named, answer) => CompleteKeeps(w, c, named, answer);
    case Deliver(n) => DeliverKeeps(w, n);
    case Receive(i) => assert w.sends[i] in w.sends;
    case Timeout(n) =>
  }

  // ---------- every run ----------

  lemma StepNumbers(w: World, m: Move)
    requires Enabled(w, m)
    ensures Step(w, m).ids == if m.Call? then w.ids + [RequestId(|w.ids|)] else w.ids
    ensures Step(w, m).connections
         == if m.Accept? then w.connections + [ConnectionId(|w.connections|)] else w.connections
  {
  }

  ghost predicate Numbered(w: World) {
    && (forall n :: 0 <= n < |w.ids| ==> w.ids[n] == RequestId(n))
    && (forall c :: 0 <= c < |w.connections| ==> w.connections[c] == ConnectionId(c))
  }

  /** Ids are drawn in order from the counters, in every run. */
  lemma {:induction false} NumberedInOrder(run: seq<Move>)
    ensures Numbered(After(run))
  {
    if run != [] {
      var before, m := run[..|run| - 1], run[|run| - 1];
      NumberedInOrder(before);
      if Enabled(After(before), m) {
        StepNumbers(After(before), m);
      }
    }
  }

  /** The invariant holds in every run that draws at most 2^64 request and connection numbers. */
  lemma {:induction false} EveryRunKeeps(run: seq<Move>)
    requires WithinCounters(After(run))
    ensures Inv(After(run))
  {
    if run != [] {
      var before, m := run[..|run| - 1], run[|run| - 1];
      if Enabled(After(before), m) {
        StepNumbers(After(before), m);
      }
      EveryRunKeeps(before);
      if Enabled(After(before), m) {
        NumberedInOrder(before);
        StepKeeps(After(before), m);
      }
    }
  }

  /** That bound is sharp: request ids are pairwise distinct exactly up to 2^64 calls. */
  lemma RequestIdsDistinctExactly(run: seq<Move>)
    ensures Distinct(After(run).ids) <==> |After(run).ids| <= COUNTER_RANGE
  {
    NumberedInOrder(run);
    var ids := After(run).ids;
    if |ids| <= COUNTER_RANGE {
      forall i, j | 0 <= i < j < |ids| ensures ids[i] != ids[j] {
        IdsDifferWithinRange(i, j);
      }
    } else {
      IdsRepeatExactly(0, COUNTER_RANGE);
      assert ids[0] == ids[COUNTER_RANGE];
    }
  }

  // ---------- what the invariant says ----------

  ghost predicate InPending(w: World, n: nat) {
    exists id :: id in w.bridge.pending && w.bridge.pending[id] == n
  }

  ghost predicate InBatch(w: World, n: nat) {
    exists i, id :: 0 <= i < |w.batches| && id in w.batches[i].waiters && w.batches[i].waiters[id] == n
  }

  ghost predicate WasSent(w: World, n: nat) {
    exists i :: 0 <= i < |w.sends| && w.sends[i].0 == n
  }

  function One(b: bool): nat {
    if b then 1 else 0
  }

  /**
   * Exactly once: in every run, each call's waiter is in exactly one of: not yet in the map,
   * pending, taken to be failed, taken to be answered, sent a result, withdrawn, refused;
   * no channel carries two results and no call returns twice.
   */
  lemma ExactlyOnce(run: seq<Move>, n: nat)
    requires WithinCounters(After(run)) && n < |After(run).ids|
    ensures var w := After(run);
      One(n in w.drawn) + One(InPending(w, n)) + One(InBatch(w, n)) + One(n in w.taken) + One(WasSent(w, n))
      + One(n in w.removed) + One(n in w.refused) == 1
    ensures var w := After(run);
      (forall i, j :: 0 <= i < j < |w.sends| ==> w.sends[i].0 != w.sends[j].0)
      && (forall i, j :: 0 <= i < j < |w.results| ==> w.results[i].0 != w.results[j].0)
  {
    EveryRunKeeps(run);
    var w := After(run);
    assert InPending(w, n) <==> w.place[n].Pending? by {
      if w.place[n].Pending? { assert w.ids[n] in w.bridge.pending; }
    }
    InBatchExactly(w, n);
    assert WasSent(w, n) <==> w.place[n].Sent?;
  }

  lemma InBatchExactly(w: World, n: nat)
    requires Inv(w) && n < |w.place|
    ensures InBatch(w, n) <==> w.place[n].Batched?
  {
    if w.place[n].Batched? {
      var i := w.place[n].batch;
      assert MapPlaced(w.place, w.ids, w.batches[i].waiters, Batched(i));
      assert w.ids[n] in w.batches[i].waiters;
    }
    if InBatch(w, n) {
      var i, id :| 0 <= i < |w.batches| && id in w.batches[i].waiters && w.batches[i].waiters[id] == n;
      assert MapPlaced(w.place, w.ids, w.batches[i].waiters, Batched(i));
    }
  }

  /**
   * A call that has not returned still has a live channel somewhere, so the branch for a
   * channel closed without a result is never taken; and whatever answer a call receives came
   * in a response naming its own id.
   */
  lemma NoWaiterIsLost(run: seq<Move>, n: nat)
    requires WithinCounters(After(run)) && n < |After(run).ids|
    ensures var w := After(run);
      HasReturned(w.results, n) || n in w.drawn || InPending(w, n) || InBatch(w, n) || n in w.taken || WasSent(w, n)
    ensures var w := After(run);
      forall named, answer, origin :: (n, Received(Responded(named, answer, origin))) in w.results ==> named == w.ids[n]
  {
    EveryRunKeeps(run);
    ExactlyOnce(run, n);
    var w := After(run);
    if n in w.removed || n in w.refused {
      assert (n, NotAttached) in w.results;
    }
    forall named, answer, origin | (n, Received(Responded(named, answer, origin))) in w.results
      ensures named == w.ids[n]
    {
      var i :| 0 <= i < |w.results| && w.results[i] == (n, Received(Responded(named, answer, origin)));
      assert (n, Responded(named, answer, origin)) in w.sends;
    }
  }

  /**
   * Once a newer connection is attached, an error or disconnect of any other changes nothing
   * at all; and in every run a failed call was handed to the very connection that reported
   * its end, or to one that another connection then replaced.
   */
  lemma StaleConnectionsAreInert(run: seq<Move>, c: nat, status: string, error: Option<string>)
    requires WithinCounters(After(run)) && Enabled(After(run), StatusLock(c, status, error))
    ensures After(run).bridge.transport != Some(c) ==> Step(After(run), StatusLock(c, status, error)) == After(run)
    ensures forall i :: 0 <= i < |After(run).sends| && After(run).sends[i].1.Failed? ==>
      Justified(After(run).owner, After(run).sends[i].0, After(run).sends[i].1.cause)
  {
    EveryRunKeeps(run);
    var w := After(run);
    if w.bridge.transport.Some? && w.bridge.transport.value != c {
      assert w.connections[c] != w.connections[w.bridge.transport.value];
    }
  }

  // ---------- what a call comes to ----------

  /**
   * A call that gets the lock: with a bridge attached it is pending under its id and handed to
   * the attached connection, or, if the send fails, it returns and leaves no entry; without one
   * it returns at once.
   */
  lemma EnqueueExactly(run: seq<Move>, n: nat, sendOk: bool)
    requires WithinCounters(After(run)) && n in After(run).drawn
    ensures n < |After(run).ids| == |After(run).place|
    ensures var w := After(run);
            var t, id := Step(w, EnterLock(n, sendOk)), w.ids[n];
      && id !in w.bridge.pending && n !in t.drawn
      && (w.bridge.transport.Some? && sendOk ==>
            && t.bridge.pending == w.bridge.pending[id := n] && t.results == w.results
            && t.outbox == w.outbox + [(w.bridge.transport.value, id)])
      && (!(w.bridge.transport.Some? && sendOk) ==>
            t.bridge == w.bridge && t.outbox == w.outbox && t.results == w.results + [(n, NotAttached)])
  {
    EveryRunKeeps(run);
    DrawnHasNoEntry(After(run), n);
    EnterIs(After(run), n, sendOk);
  }

  lemma DrawnHasNoEntry(w: World, n: nat)
    requires Inv(w) && n in w.drawn
    ensures n < |w.ids| == |w.place| && w.ids[n] !in w.bridge.pending
  {
    assert w.place[n].Drawn?;
  }

  lemma EnterIs(w: World, n: nat, sendOk: bool)
    requires n < |w.ids| == |w.place| && w.ids[n] !in w.bridge.pending && Attachment(w.bridge)
    ensures var t, id := OnEnter(w, n, sendOk), w.ids[n];
      && n !in t.drawn
      && (w.bridge.transport.Some? && sendOk ==>
            t.bridge.pending == w.bridge.pending[id := n] && t.results == w.results
            && t.outbox == w.outbox + [(w.bridge.transport.value, id)])
      && (!(w.bridge.transport.Some? && sendOk) ==>
            t.bridge == w.bridge && t.outbox == w.outbox && t.results == w.results + [(n, NotAttached)])
  {
    assert w.bridge.pending - {w.ids[n]} == w.bridge.pending;
  }

  lemma PendingIs(run: seq<Move>, n: nat)
    requires WithinCounters(After(run)) && InPending(After(run), n)
    ensures var w := After(run); n < |w.ids| == |w.place| && Waiting(w, n)
  {
    EveryRunKeeps(run);
  }

  /** Pending under its own id, and handed to the attached connection. */
  ghost predicate Waiting(w: World, n: nat)
    requires n < |w.ids| == |w.place|
  {
    && w.ids[n] in w.bridge.pending && w.bridge.pending[w.ids[n]] == n
    && n in w.owner && w.bridge.transport == Some(w.owner[n]) && w.owner[n] < |w.connections|
    && w.bridge.activeConnection == Some(w.connections[w.owner[n]])
  }

  /** A response to a pending request reaches its call: taken, delivered and received, it is what the call returns. */
  lemma ResponseReachesCaller(run: seq<Move>, n: nat, c: nat, answer: Answer)
    requires WithinCounters(After(run)) && InPending(After(run), n) && c < |After(run).connections|
    requires !HasReturned(After(run).results, n)
    ensures n < |After(run).ids|
    ensures var w := After(run);
            var t := After(run + [CompleteLock(c, w.ids[n], answer), Deliver(n), Receive(|w.sends|)]);
      && t.results == w.results + [(n, Received(Responded(w.ids[n], answer, c)))]
      && t.bridge.pending == w.bridge.pending - {w.ids[n]}
  {
    PendingIs(run, n);
    var w := After(run);
    AnswerSteps(w, n, c, answer);
    AfterThree(run, CompleteLock(c, w.ids[n], answer), Deliver(n), Receive(|w.sends|));
  }

  lemma AnswerSteps(w: World, n: nat, c: nat, answer: Answer)
    requires n < |w.ids| == |w.place| && Waiting(w, n) && c < |w.connections| && !HasReturned(w.results, n)
    ensures var m := CompleteLock(c, w.ids[n], answer);
      && Enabled(w, m) && Enabled(Step(w, m), Deliver(n))
      && Enabled(Step(Step(w, m), Deliver(n)), Receive(|w.sends|))
      && var t := Step(Step(Step(w, m), Deliver(n)), Receive(|w.sends|));
         && t.results == w.results + [(n, Received(Responded(w.ids[n], answer, c)))]
         && t.bridge.pending == w.bridge.pending - {w.ids[n]}
  {
    CompletedIs(w, n, c, answer);
    DeliveredIs(OnComplete(w, c, w.ids[n], answer), n);
  }

  lemma AfterThree(run: seq<Move>, a: Move, b: Move, c: Move)
    ensures Enabled(After(run), a) && Enabled(Step(After(run), a), b) && Enabled(Step(Step(After(run), a), b), c) ==>
      After(run + [a, b, c]) == Step(Step(Step(After(run), a), b), c)
  {
    var first := Extend(run, a);
    var second := Extend(first, b);
    var third := Extend(second, c);
    assert third == run + [a, b, c];
  }

  lemma CompletedIs(w: World, n: nat, c: nat, answer: Answer)
    requires n < |w.ids| == |w.place| && w.ids[n] in w.bridge.pending && w.bridge.pending[w.ids[n]] == n
    requires c < |w.connections|
    ensures var t := OnComplete(w, c, w.ids[n], answer);
      && t.bridge.pending == w.bridge.pending - {w.ids[n]} && t.results == w.results && t.sends == w.sends
      && n in t.taken && t.taken[n] == Response(w.ids[n], answer, c) && |t.place| == |w.place|
  {
  }

  lemma DeliveredIs(w: World, n: nat)
    requires n in w.taken && n < |w.place|
    ensures var t := OnDeliver(w, n);
      t.bridge == w.bridge && t.results == w.results && t.sends == w.sends + [(n, Responding(w.taken[n]))]
  {
  }

  /** A newer connection fails what was pending: the call returns with that cause. */
  lemma ReplacementReachesCaller(run: seq<Move>, n: nat, c: nat, browser: string, now: string)
    requires WithinCounters(After(run)) && InPending(After(run), n) && !HasReturned(After(run).results, n)
    requires c < |After(run).connections| && c !in After(run).attached
    ensures n < |After(run).ids|
    ensures var w := After(run);
            var t := After(run + [AttachLock(c, browser, now), FailOne(|w.batches|, w.ids[n]), Receive(|w.sends|)]);
      t.results == w.results + [(n, Received(Failed(ReplacedBy(c))))] && t.bridge.transport == Some(c)
  {
    PendingIs(run, n);
    var w := After(run);
    AfterThree(run, AttachLock(c, browser, now), FailOne(|w.batches|, w.ids[n]), Receive(|w.sends|));
  }

  /** So does an error or disconnect of the connection the request was handed to. */
  lemma EndReachesCaller(run: seq<Move>, n: nat, status: string, error: Option<string>)
    requires WithinCounters(After(run)) && InPending(After(run), n) && !HasReturned(After(run).results, n)
    requires Detaching(status)
    ensures n < |After(run).ids| && n in After(run).owner
    ensures var w := After(run);
            var c := w.owner[n];
            var t := After(run + [StatusLock(c, status, error), FailOne(|w.batches|, w.ids[n]), Receive(|w.sends|)]);
      t.results == w.results + [(n, Received(Failed(ReportedBy(c))))] && t.bridge.transport == None
  {
    PendingIs(run, n);
    var w := After(run);
    AfterThree(run, StatusLock(w.owner[n], status, error), FailOne(|w.batches|, w.ids[n]), Receive(|w.sends|));
  }

  // ---------- whose response it is ----------

  /** A response was taken from the connection its waiter was handed to. */
  ghost predicate OwnResponses(owner: map<nat, nat>, taken: map<nat, Response>, sends: seq<(nat, Sending)>) {
    && (forall n :: n in taken ==> n in owner && owner[n] == taken[n].origin)
    && (forall i :: 0 <= i < |sends| && sends[i].1.Responded? ==>
          sends[i].0 in owner && owner[sends[i].0] == sends[i].1.origin)
  }

  /** A response that names a pending id arrives on a connection that is not the attached one. */
  ghost predicate Intrudes(w: World, m: Move) {
    m.CompleteLock? && m.named in w.bridge.pending && w.bridge.transport != Some(m.connection)
  }

  lemma EnterOwns(w: World, n: nat, sendOk: bool)
    requires Inv(w) && n in w.drawn && OwnResponses(w.owner, w.taken, w.sends)
    ensures var t := OnEnter(w, n, sendOk); OwnResponses(t.owner, t.taken, t.sends)
  {
    assert n !in w.owner;
  }

  lemma CompleteOwnsExactly(w: World, c: nat, named: string, answer: Answer)
    requires Inv(w) && Enabled(w, CompleteLock(c, named, answer)) && OwnResponses(w.owner, w.taken, w.sends)
    ensures var t := OnComplete(w, c, named, answer);
      OwnResponses(t.owner, t.taken, t.sends) <==> !(named in w.bridge.pending && w.bridge.transport != Some(c))
  {
    if named in w.bridge.pending {
      var n := w.bridge.pending[named];
      assert w.owner[n] == w.bridge.transport.value;
      assert OnComplete(w, c, named, answer).taken[n] == Response(named, answer, c);
    }
  }

  lemma SendOwns(owner: map<nat, nat>, taken: map<nat, Response>, sends: seq<(nat, Sending)>, n: nat, sending: Sending)
    requires OwnResponses(owner, taken, sends)
    requires sending.Responded? ==> n in owner && owner[n] == sending.origin
    ensures OwnResponses(owner, taken, sends + [(n, sending)])
    ensures OwnResponses(owner, taken - {n}, sends + [(n, sending)])
  {
  }

  /** Nothing asks a response where it comes from: it is the owner's exactly when the owner is still attached. */
  lemma IntrusionExactly(w: World, m: Move)
    requires Inv(w) && Enabled(w, m) && OwnResponses(w.owner, w.taken, w.sends)
    ensures var t := Step(w, m); OwnResponses(t.owner, t.taken, t.sends) <==> !Intrudes(w, m)
  {
    match m
    case EnterLock(n, sendOk) => EnterOwns(w, n, sendOk);
    case CompleteLock(c, named, answer) => CompleteOwnsExactly(w, c, named, answer);
    case FailOne(i, id) => SendOwns(w.owner, w.taken, w.sends, w.batches[i].waiters[id], Failed(w.batches[i].cause));
    case Deliver(n) => SendOwns(w.owner, w.taken, w.sends, n, Responding(w.taken[n]));
    case _ =>
  }

  ghost predicate NoneIntrudes(run: seq<Move>) {
    run != [] ==>
      NoneIntrudes(run[..|run| - 1])
      && (var w, m := After(run[..|run| - 1]), run[|run| - 1]; Enabled(w, m) ==> !Intrudes(w, m))
  }

  /** In a run without intrusion every answer comes from the connection the request was handed to. */
  lemma {:induction false} AnswersComeFromOwners(run: seq<Move>)
    requires WithinCounters(After(run)) && NoneIntrudes(run)
    ensures OwnResponses(After(run).owner, After(run).taken, After(run).sends)
  {
    if run != [] {
      var before, m := run[..|run| - 1], run[|run| - 1];
      if Enabled(After(before), m) {
        StepNumbers(After(before), m);
      }
      AnswersComeFromOwners(before);
      EveryRunKeeps(before);
      if Enabled(After(before), m) {
        IntrusionExactly(After(before), m);
      }
    }
  }

  lemma Extend(run: seq<Move>, m: Move) returns (longer: seq<Move>)
    ensures longer == run + [m]
    ensures After(longer) == if Enabled(After(run), m) then Step(After(run), m) else After(run)
  {
    longer := run + [m];
    assert longer[..|longer| - 1] == run;
  }

  /** It does happen: a replaced connection answers the first request handed to its successor. */
  lemma ReplacedConnectionAnswers(answer: Answer) returns (run: seq<Move>)
    ensures After(run).bridge.transport == Some(1) && After(run).owner == map[0 := 1]
    ensures After(run).sends == [(0, Responded(RequestId(0), answer, 0))]
  {
    run := RunToHandedOver();
    run := Extend(run, CompleteLock(0, RequestId(0), answer));
    assert After(run).taken == map[0 := Response(RequestId(0), answer, 0)];
    run := Extend(run, Deliver(0));
  }

  /** Two connections have attached one after the other, and the second has been handed a request. */
  lemma RunToHandedOver() returns (run: seq<Move>)
    ensures var w := After(run);
      && w.bridge.transport == Some(1) && w.bridge.pending == map[RequestId(0) := 0]
      && w.owner == map[0 := 1] && w.place == [Pending] && |w.connections| == 2
      && w.taken == map[] && w.sends == []
  {
    run := Extend([], Accept);
    run := Extend(run, Accept);
    run := Extend(run, AttachLock(0, "chrome", "now"));
    run := Extend(run, AttachLock(1, "chrome", "now"));
    assert After(run).place == [] && After(run).bridge.transport == Some(1) && After(run).bridge.pending == map[];
    run := Extend(run, Call);
    assert After(run).ids == [RequestId(0)] && After(run).place == [Drawn];
    run := Extend(run, EnterLock(0, true));
  }

  /** In every run the second status check of `enqueue_request` finds nothing. */
  lemma SecondCheckNeverFires(run: seq<Move>, n: nat, sendOk: bool)
    requires WithinCounters(After(run)) && n < |After(run).ids|
    ensures Enter(After(run).bridge, After(run).ids[n], n, sendOk).1 != WrongStatus
    ensures Attachment(After(run).bridge)
  {
    EveryRunKeeps(run);
  }
}
