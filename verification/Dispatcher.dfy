/**
 The dispatcher's shared state, the connection handlers that report to it, and the uploader's
 handling of the event queue.

 The class DispatcherState is the mutex-protected record.  The datatype World and its actions
 put the interleaved handlers, the collector and the uploader around it.
 */
module Dispatcher {
  import opened Postcard
  import opened Core
  import opened Incremental
  import opened EdgeReceiver
  import opened Runs

  datatype DisconnectionReason = GracefulClose | Failed(error: string)

  datatype AlertType = CriticalBattery | SensorFailure

  datatype AlertSeverity = Critical | Warning

  /** An alert, without the identifier, text and clock value drawn for it. */
  datatype Alert = Alert(deviceId: Id, severity: AlertSeverity, alertType: AlertType, sensorId: Option<Id>)

  datatype PrimeEvent =
    | DeviceDisconnection(deviceId: Id, reason: DisconnectionReason)
    | AlertEvent(alert: Alert)

  // ----- alerts of a status report -----

  function SensorAlerts(deviceId: Id, sensors: seq<SensorStatus>): seq<PrimeEvent> {
    if sensors == [] then []
    else
      var before := SensorAlerts(deviceId, sensors[..|sensors| - 1]);
      var last := sensors[|sensors| - 1];
      if last.state == Faulty then before + [AlertEvent(Alert(deviceId, Warning, SensorFailure, Some(last.sensorId)))]
      else before
  }

  function AlertsFor(status: DeviceStatus): seq<PrimeEvent> {
    (if status.batteryPercent < 10 then [AlertEvent(Alert(status.deviceId, Critical, CriticalBattery, None))] else [])
    + SensorAlerts(status.deviceId, status.sensorStatuses)
  }

  function FaultyCount(sensors: seq<SensorStatus>): nat {
    if sensors == [] then 0 else (if sensors[0].state == Faulty then 1 else 0) + FaultyCount(sensors[1..])
  }

  lemma {:induction false} FaultyCountSplit(a: seq<SensorStatus>, b: seq<SensorStatus>)
    ensures FaultyCount(a + b) == FaultyCount(a) + FaultyCount(b)
    decreases |a|
  {
    if a == [] {
      assert a + b == b;
    } else {
      assert (a + b)[1..] == a[1..] + b;
      FaultyCountSplit(a[1..], b);
    }
  }

  /** One critical alert exactly for a battery below 10, then one warning per faulty sensor. */
  lemma {:induction false} AlertsCounted(status: DeviceStatus)
    ensures |AlertsFor(status)| ==
            (if status.batteryPercent < 10 then 1 else 0) + FaultyCount(status.sensorStatuses)
  {
    SensorAlertsCounted(status.deviceId, status.sensorStatuses);
  }

  /** The identifiers of the faulty sensors of a report, in its order. */
  function FaultyIds(sensors: seq<SensorStatus>): seq<Id> {
    if sensors == [] then []
    else (if sensors[0].state == Faulty then [sensors[0].sensorId] else []) + FaultyIds(sensors[1..])
  }

  lemma {:induction false} FaultyIdsSplit(a: seq<SensorStatus>, b: seq<SensorStatus>)
    ensures FaultyIds(a + b) == FaultyIds(a) + FaultyIds(b)
    decreases |a|
  {
    if a == [] {
      assert a + b == b;
    } else {
      assert (a + b)[1..] == a[1..] + b;
      FaultyIdsSplit(a[1..], b);
    }
  }

  lemma {:induction false} SensorAlertsAre(deviceId: Id, sensors: seq<SensorStatus>)
    ensures |SensorAlerts(deviceId, sensors)| == |FaultyIds(sensors)|
    ensures forall i :: 0 <= i < |FaultyIds(sensors)| ==>
              SensorAlerts(deviceId, sensors)[i] ==
                AlertEvent(Alert(deviceId, Warning, SensorFailure, Some(FaultyIds(sensors)[i])))
    decreases |sensors|
  {
    if sensors != [] {
      var n := |sensors| - 1;
      SensorAlertsAre(deviceId, sensors[..n]);
      assert sensors == sensors[..n] + [sensors[n]];
      FaultyIdsSplit(sensors[..n], [sensors[n]]);
      assert FaultyIds([sensors[n]]) == if sensors[n].state == Faulty then [sensors[n].sensorId] else [];
    }
  }

  /** What a status report queues: first, if the battery is below 10, one critical battery alert for the
      device that names no sensor; then, in the order of the report, one sensor failure warning for
      each faulty sensor, naming it; and nothing else. */
  lemma AlertsExactly(status: DeviceStatus)
    ensures var events, faulty := AlertsFor(status), FaultyIds(status.sensorStatuses);
            var first := if status.batteryPercent < 10 then 1 else 0;
            && |events| == first + |faulty|
            && (first == 1 ==> events[0] == AlertEvent(Alert(status.deviceId, Critical, CriticalBattery, None)))
            && forall i :: 0 <= i < |faulty| ==>
                 events[first + i] == AlertEvent(Alert(status.deviceId, Warning, SensorFailure, Some(faulty[i])))
  {
    SensorAlertsAre(status.deviceId, status.sensorStatuses);
  }

  lemma {:induction false} FaultyIdsExactly(sensors: seq<SensorStatus>, id: Id)
    ensures id in FaultyIds(sensors) <==> exists s <- sensors :: s.state == Faulty && s.sensorId == id
    decreases |sensors|
  {
    if sensors != [] {
      FaultyIdsExactly(sensors[1..], id);
      assert sensors == [sensors[0]] + sensors[1..];
    }
  }

  /** An event is among them if and only if it is the battery alert and the battery is below 10, or it
      is the warning that names a sensor the report calls faulty. */
  lemma AlertIsQueuedIff(status: DeviceStatus, e: PrimeEvent)
    ensures e in AlertsFor(status) <==>
              var device := status.deviceId;
              || (status.batteryPercent < 10 && e == AlertEvent(Alert(device, Critical, CriticalBattery, None)))
              || exists s <- status.sensorStatuses ::
                   s.state == Faulty && e == AlertEvent(Alert(device, Warning, SensorFailure, Some(s.sensorId)))
  {
    AlertsExactly(status);
    var events, faulty := AlertsFor(status), FaultyIds(status.sensorStatuses);
    var first := if status.batteryPercent < 10 then 1 else 0;
    if e in events {
      var j :| 0 <= j < |events| && events[j] == e;
      if j >= first {
        assert e == AlertEvent(Alert(status.deviceId, Warning, SensorFailure, Some(faulty[j - first])));
        FaultyIdsExactly(status.sensorStatuses, faulty[j - first]);
      }
    }
    forall s | s in status.sensorStatuses && s.state == Faulty
      ensures AlertEvent(Alert(status.deviceId, Warning, SensorFailure, Some(s.sensorId))) in events
    {
      FaultyIdsExactly(status.sensorStatuses, s.sensorId);
      var i :| 0 <= i < |faulty| && faulty[i] == s.sensorId;
      assert events[first + i] in events;
    }
  }

  lemma {:induction false} SensorAlertsCounted(deviceId: Id, sensors: seq<SensorStatus>)
    ensures |SensorAlerts(deviceId, sensors)| == FaultyCount(sensors)
    decreases |sensors|
  {
    if sensors != [] {
      var n := |sensors| - 1;
      SensorAlertsCounted(deviceId, sensors[..n]);
      assert sensors == sensors[..n] + [sensors[n]];
      FaultyCountSplit(sensors[..n], [sensors[n]]);
    }
  }

  // ----- the shared record -----

  class DispatcherState {
    var connectedDevices: set<Id>
    var pendingEvents: seq<PrimeEvent>

    constructor ()
      ensures connectedDevices == {} && pendingEvents == []
    {
      connectedDevices, pendingEvents := {}, [];
    }

    method DeviceConnected(deviceId: Id)
      modifies this
      ensures connectedDevices == old(connectedDevices) + {deviceId}
      ensures pendingEvents == old(pendingEvents)
    {
      connectedDevices := connectedDevices + {deviceId};
    }

    method DeviceDisconnected(deviceId: Id, reason: DisconnectionReason)
      modifies this
      ensures connectedDevices == old(connectedDevices) - {deviceId}
      ensures pendingEvents == old(pendingEvents) + [DeviceDisconnection(deviceId, reason)]
    {
      connectedDevices := connectedDevices - {deviceId};
      pendingEvents := pendingEvents + [DeviceDisconnection(deviceId, reason)];
    }

    method TakePendingEvents() returns (events: seq<PrimeEvent>)
      modifies this
      ensures events == old(pendingEvents) && pendingEvents == []
      ensures connectedDevices == old(connectedDevices)
    {
      events := pendingEvents;
      pendingEvents := [];
    }

    /** The collector's reaction to a status report, before it stores it. */
    method QueueAlerts(status: DeviceStatus)
      modifies this
      ensures pendingEvents == old(pendingEvents) + AlertsFor(status)
      ensures connectedDevices == old(connectedDevices)
    {
      if status.batteryPercent < 10 {
        pendingEvents := pendingEvents + [AlertEvent(Alert(status.deviceId, Critical, CriticalBattery, None))];
      }
      ghost var before := pendingEvents;
      var sensors := status.sensorStatuses;
      for i := 0 to |sensors|
        invariant pendingEvents == before + SensorAlerts(status.deviceId, sensors[..i])
        invariant connectedDevices == old(connectedDevices)
      {
        assert sensors[..i + 1][..i] == sensors[..i];
        if sensors[i].state == Faulty {
          pendingEvents := pendingEvents +
            [AlertEvent(Alert(status.deviceId, Warning, SensorFailure, Some(sensors[i].sensorId)))];
        }
      }
      assert sensors[..|sensors|] == sensors;
    }
  }

  // ----- the interleaved world -----

  datatype Exit =
    | Closed                     // end of stream, or shutdown
    | ReadFailed(error: string)
    | Decoding(why: ExitError)

  /** A connection handler: what it has read so far (a record of the run) and where that has led. */
  datatype Handler =
    | Reading(chunks: seq<Bytes>, pass: Pass)
    | Gone(chunks: seq<Bytes>, exit: Exit)

  datatype Fate = Attempted | Discarded

  datatype Uploader =
    | Idle
    | Calling(events: seq<PrimeEvent>)    // events taken, the dispatcher status call is under way
    | Reporting(events: seq<PrimeEvent>)  // the status call went through, these are still to be sent

  datatype World = World(
    connected: set<Id>,
    pending: seq<PrimeEvent>,
    handlers: map<Id, Handler>,
    uploader: Uploader,
    alerting: seq<PrimeEvent>,            // alerts of the report at hand that the collector has still to queue
    // the record of the run
    queued: seq<PrimeEvent>,              // every event ever queued, in order
    reports: seq<DeviceStatus>,           // every status report received
    settled: seq<(PrimeEvent, Fate)>)     // what became of those the uploader has dealt with

  datatype Action =
    | Connect(deviceId: Id)
    | Read(deviceId: Id, chunk: Bytes, room: nat)
    | Close(deviceId: Id)
    | ReadError(deviceId: Id, message: string)
    | StatusReport(status: DeviceStatus)
    | QueueAlert                          // the lock is taken once per alert
    | TakeEvents
    | StatusCallFails
    | StatusCallSucceeds
    | SendEvent                           // whether or not prime answers
    | NothingLeft

  const INIT := World({}, [], map[], Idle, [], [], [], [])

  /** The handler of a connection knows its device by the identifier it drew; the rest of the
      origin does not matter for tracking. */
  function OriginOf(deviceId: Id): Origin {
    Origin(deviceId, 0, 0)
  }

  ghost function AfterRead(deviceId: Id, pass: Pass, chunk: Bytes, room: nat): Pass
    requires pass.status.Open?
  {
    EdgeDecoderIsLawful(OriginOf(deviceId));
    var next := Limit(Drain(EdgeDecoder(OriginOf(deviceId)), pass.status.buf + chunk), room);
    Drained(pass.items + next.items, next.status)
  }

  predicate IsReading(w: World, id: Id) {
    id in w.handlers && w.handlers[id].Reading? && w.handlers[id].pass.status.Open?
  }

  predicate Enabled(w: World, a: Action) {
    match a
    case Connect(id) => id !in w.handlers
    case Read(id, chunk, _) => IsReading(w, id) && chunk != []
    case Close(id) => IsReading(w, id)
    case ReadError(id, _) => IsReading(w, id)
    case StatusReport(_) => w.alerting == []
    case QueueAlert => w.alerting != []
    case TakeEvents => w.uploader.Idle?
    case StatusCallFails => w.uploader.Calling?
    case StatusCallSucceeds => w.uploader.Calling?
    case SendEvent => w.uploader.Reporting? && w.uploader.events != []
    case NothingLeft => w.uploader == Reporting([])
  }

  function Queue(w: World, events: seq<PrimeEvent>): World {
    w.(pending := w.pending + events, queued := w.queued + events)
  }

  function Disconnect(w: World, id: Id, reason: DisconnectionReason): World {
    Queue(w.(connected := w.connected - {id}), [DeviceDisconnection(id, reason)])
  }

  /** The handler returns.  Every exit reports the disconnection except a malformed inner payload. */
  function Leave(w: World, id: Id, chunks: seq<Bytes>, exit: Exit): World {
    var gone := w.(handlers := w.handlers[id := Gone(chunks, exit)]);
    match exit
    case Closed => Disconnect(gone, id, GracefulClose)
    case ReadFailed(e) => Disconnect(gone, id, Failed(e))
    case Decoding(MalformedPayload(_)) => gone
    case Decoding(InvalidPreamble(_)) => Disconnect(gone, id, Failed("Invalid preamble"))
    case Decoding(ChannelClosed) => Disconnect(gone, id, Failed("Channel closed"))
    case Decoding(BadFrame(_)) => Disconnect(gone, id, Failed("bad frame"))
  }

  ghost function Apply(w: World, a: Action): World
    requires Enabled(w, a)
  {
    match a
    case Connect(id) =>
      w.(connected := w.connected + {id}, handlers := w.handlers[id := Reading([], Start())])
    case Read(id, chunk, room) =>
      var h := w.handlers[id];
      var pass := AfterRead(id, h.pass, chunk, room);
      var chunks := h.chunks + [chunk];
      if pass.status.Exited? then Leave(w, id, chunks, Decoding(pass.status.error))
      else w.(handlers := w.handlers[id := Reading(chunks, pass)])
    case Close(id) => Leave(w, id, w.handlers[id].chunks, Closed)
    case ReadError(id, e) => Leave(w, id, w.handlers[id].chunks, ReadFailed(e))
    case StatusReport(status) => w.(alerting := AlertsFor(status), reports := w.reports + [status])
    case QueueAlert => Queue(w.(alerting := w.alerting[1..]), [w.alerting[0]])
    case TakeEvents => w.(uploader := Calling(w.pending), pending := [])
    case StatusCallFails =>
      w.(uploader := Idle, settled := w.settled + Settle(w.uploader.events, Discarded))
    case StatusCallSucceeds => w.(uploader := Reporting(w.uploader.events))
    case SendEvent =>
      var events := w.uploader.events;
      w.(uploader := Reporting(events[1..]), settled := w.settled + [(events[0], Attempted)])
    case NothingLeft => w.(uploader := Idle)
  }

  ghost predicate Next(w: World, a: Action, v: World) {
    Enabled(w, a) && v == Apply(w, a)
  }

  function Settle(events: seq<PrimeEvent>, fate: Fate): (r: seq<(PrimeEvent, Fate)>)
    ensures |r| == |events|
    ensures forall i :: 0 <= i < |events| ==> r[i] == (events[i], fate)
  {
    seq(|events|, i requires 0 <= i < |events| => (events[i], fate))
  }

  function EventsOf(settled: seq<(PrimeEvent, Fate)>): (r: seq<PrimeEvent>)
    ensures |r| == |settled|
    ensures forall i :: 0 <= i < |r| ==> r[i] == settled[i].0
  {
    seq(|settled|, i requires 0 <= i < |settled| => settled[i].0)
  }

  function InHand(u: Uploader): seq<PrimeEvent> {
    if u.Idle? then [] else u.events
  }

  // ----- conservation of events -----

  /** Every event ever queued was dealt with once, in queue order, or is with the uploader, or still waits. */
  ghost predicate EventsConserved(w: World) {
    w.queued == EventsOf(w.settled) + InHand(w.uploader) + w.pending
  }

  lemma EventsConservedStep(w: World, a: Action)
    requires EventsConserved(w) && Enabled(w, a)
    ensures EventsConserved(Apply(w, a))
  {
    hide NextStep, Drain;
  }

  lemma EventConservation(states: seq<World>, acts: seq<Action>, i: nat)
    requires IsRun(INIT, Next, states, acts) && i < |states|
    ensures EventsConserved(states[i])
  {
    forall w, a, v | EventsConserved(w) && Next(w, a, v) ensures EventsConserved(v) {
      EventsConservedStep(w, a);
    }
    HoldsThroughout(INIT, Next, EventsConserved, states, acts, i);
  }

  // ----- alerts -----

  function AlertsAmong(events: seq<PrimeEvent>): seq<PrimeEvent> {
    if events == [] then []
    else
      var n := |events| - 1;
      AlertsAmong(events[..n]) + (if events[n].AlertEvent? then [events[n]] else [])
  }

  function AlertsDue(reports: seq<DeviceStatus>): seq<PrimeEvent> {
    if reports == [] then []
    else
      var n := |reports| - 1;
      AlertsDue(reports[..n]) + AlertsFor(reports[n])
  }

  /** The alerts queued so far, and those the collector is about to queue, are the alerts of the
      reports received, in order. */
  ghost predicate AlertsInOrder(w: World) {
    && AlertsAmong(w.queued) + w.alerting == AlertsDue(w.reports)
    && forall e <- w.alerting :: e.AlertEvent?
  }

  lemma AlertsAmongNext(events: seq<PrimeEvent>, e: PrimeEvent)
    ensures AlertsAmong(events + [e]) == AlertsAmong(events) + (if e.AlertEvent? then [e] else [])
  {
    assert (events + [e])[..|events|] == events;
  }

  lemma AlertsInOrderStep(w: World, a: Action)
    requires AlertsInOrder(w) && Enabled(w, a)
    ensures AlertsInOrder(Apply(w, a))
  {
    hide NextStep, Drain, Limit, AlertsAmong;
    var v := Apply(w, a);
    if v.queued != w.queued {
      var e := v.queued[|w.queued|];
      assert v.queued == w.queued + [e];
      AlertsAmongNext(w.queued, e);
    }
    if a.StatusReport? {
      assert v.reports[..|w.reports|] == w.reports;
      SensorAlertsAreAlerts(a.status.deviceId, a.status.sensorStatuses);
    }
  }

  /** Other events, and the uploader taking events, may come between two alerts of one report; yet
      every report's alerts are queued, all of them once and in order. */
  lemma AlertConservation(states: seq<World>, acts: seq<Action>, i: nat)
    requires IsRun(INIT, Next, states, acts) && i < |states|
    ensures AlertsInOrder(states[i])
  {
    hide AlertsAmong, AlertsDue;
    assert AlertsInOrder(INIT) by {
      EmptyIsInOrder();
    }
    forall w, a, v | AlertsInOrder(w) && Next(w, a, v) ensures AlertsInOrder(v) {
      AlertsInOrderStep(w, a);
    }
    HoldsThroughout(INIT, Next, AlertsInOrder, states, acts, i);
  }

  lemma EmptyIsInOrder()
    ensures AlertsInOrder(INIT)
  {
  }

  // ----- connection tracking -----

  function Disconnections(events: seq<PrimeEvent>, id: Id): nat {
    if events == [] then 0
    else
      var n := |events| - 1;
      Disconnections(events[..n], id) + (if events[n].DeviceDisconnection? && events[n].deviceId == id then 1 else 0)
  }

  predicate Malformed(h: Handler) {
    h.Gone? && h.exit.Decoding? && h.exit.why.MalformedPayload?
  }

  /** The connected set is the handlers still reading plus those that left over a malformed
      payload; a device has one disconnection event exactly when its handler left in any other way. */
  ghost predicate Tracked(w: World) {
    && (forall id :: id in w.connected <==>
          id in w.handlers && (w.handlers[id].Reading? || Malformed(w.handlers[id])))
    && (forall id :: Disconnections(w.queued, id) ==
          if id in w.handlers && w.handlers[id].Gone? && !Malformed(w.handlers[id]) then 1 else 0)
    && (forall id <- w.handlers :: w.handlers[id].Reading? ==> w.handlers[id].pass.status.Open?)
    && (forall e <- w.alerting :: e.AlertEvent?)
  }

  lemma {:induction false} SensorAlertsAreAlerts(deviceId: Id, sensors: seq<SensorStatus>)
    ensures forall e <- SensorAlerts(deviceId, sensors) :: e.AlertEvent?
    decreases |sensors|
  {
    if sensors != [] {
      SensorAlertsAreAlerts(deviceId, sensors[..|sensors| - 1]);
    }
  }

  lemma TrackedLeave(w: World, id: Id, chunks: seq<Bytes>, exit: Exit)
    requires Tracked(w) && IsReading(w, id)
    ensures Tracked(Leave(w, id, chunks, exit))
  {
    var v := Leave(w, id, chunks, exit);
    assert v.handlers == w.handlers[id := Gone(chunks, exit)];
    if !Malformed(v.handlers[id]) {
      assert v.queued[..|w.queued|] == w.queued;
    }
  }

  lemma TrackedStep(w: World, a: Action)
    requires Tracked(w) && Enabled(w, a)
    ensures Tracked(Apply(w, a))
  {
    hide NextStep, Drain, Limit;
    match a {
      case Read(id, chunk, room) =>
        var pass := AfterRead(id, w.handlers[id].pass, chunk, room);
        if pass.status.Exited? {
          TrackedLeave(w, id, w.handlers[id].chunks + [chunk], Decoding(pass.status.error));
        }
      case Close(id) => TrackedLeave(w, id, w.handlers[id].chunks, Closed);
      case ReadError(id, e) => TrackedLeave(w, id, w.handlers[id].chunks, ReadFailed(e));
      case StatusReport(status) =>
        SensorAlertsAreAlerts(status.deviceId, status.sensorStatuses);
      case QueueAlert =>
        var queued := w.queued + [w.alerting[0]];
        assert queued[..|w.queued|] == w.queued && w.alerting[0] in w.alerting;
        assert forall id :: Disconnections(queued, id) == Disconnections(w.queued, id);
        assert Apply(w, a).queued == queued;
      case _ =>
    }
  }

  lemma ConnectionTracking(states: seq<World>, acts: seq<Action>, i: nat)
    requires IsRun(INIT, Next, states, acts) && i < |states|
    ensures Tracked(states[i])
  {
    forall w, a, v | Tracked(w) && Next(w, a, v) ensures Tracked(v) {
      TrackedStep(w, a);
    }
    HoldsThroughout(INIT, Next, Tracked, states, acts, i);
  }

  // ----- what an event says, and what becomes of it -----

  /** A disconnection event is graceful exactly if the connection was closed, and otherwise says it failed. */
  ghost predicate ReasonFits(w: World, id: Id, reason: DisconnectionReason) {
    && id in w.handlers && w.handlers[id].Gone?
    && var exit := w.handlers[id].exit;
       && (reason.GracefulClose? <==> exit.Closed?)
       && (exit.ReadFailed? ==> reason == Failed(exit.error))
       && !(exit.Decoding? && exit.why.MalformedPayload?)
  }

  ghost predicate ReasonsFit(w: World) {
    && (forall e <- w.queued :: e.DeviceDisconnection? ==> ReasonFits(w, e.deviceId, e.reason))
    && (forall e <- w.alerting :: e.AlertEvent?)
  }

  lemma ReasonsLeave(w: World, id: Id, chunks: seq<Bytes>, exit: Exit)
    requires ReasonsFit(w) && IsReading(w, id)
    ensures ReasonsFit(Leave(w, id, chunks, exit))
  {
    var v := Leave(w, id, chunks, exit);
    assert forall e <- v.queued ::
             e in w.queued || (e.DeviceDisconnection? && e.deviceId == id && v.queued != w.queued);
    assert forall e <- w.queued :: e.DeviceDisconnection? ==> e.deviceId != id;
  }

  lemma ReasonsStep(w: World, a: Action)
    requires ReasonsFit(w) && Enabled(w, a)
    ensures ReasonsFit(Apply(w, a))
  {
    hide NextStep, Drain, Limit, Leave;
    match a {
      case Read(id, chunk, room) =>
        var pass := AfterRead(id, w.handlers[id].pass, chunk, room);
        if pass.status.Exited? {
          ReasonsLeave(w, id, w.handlers[id].chunks + [chunk], Decoding(pass.status.error));
        }
      case Close(id) => ReasonsLeave(w, id, w.handlers[id].chunks, Closed);
      case ReadError(id, e) => ReasonsLeave(w, id, w.handlers[id].chunks, ReadFailed(e));
      case StatusReport(status) => SensorAlertsAreAlerts(status.deviceId, status.sensorStatuses);
      case QueueAlert => assert w.alerting[0] in w.alerting;
      case _ =>
    }
  }

  /** In every run each disconnection event tells how its handler left. */
  lemma ReasonsThroughout(states: seq<World>, acts: seq<Action>, i: nat)
    requires IsRun(INIT, Next, states, acts) && i < |states|
    ensures ReasonsFit(states[i])
  {
    hide Enabled, Apply;
    forall w, a, v | ReasonsFit(w) && Next(w, a, v) ensures ReasonsFit(v) {
      ReasonsStep(w, a);
    }
    HoldsThroughout(INIT, Next, ReasonsFit, states, acts, i);
  }

  /** The k-th event the uploader dealt with was settled by step j: attempted, one event in a step that
      sends, or discarded, with all that were in hand, in a step in which the status call failed. */
  ghost predicate SettledAt(states: seq<World>, acts: seq<Action>, k: nat, j: nat)
    requires j < |acts| && j + 1 < |states|
  {
    && |states[j].settled| <= k < |states[j + 1].settled|
    && (acts[j].SendEvent? || acts[j].StatusCallFails?)
    && states[j + 1].settled[k].1 == (if acts[j].SendEvent? then Attempted else Discarded)
    && (acts[j].SendEvent? ==> |states[j + 1].settled| == |states[j].settled| + 1)
  }

  lemma SettlingStep(w: World, a: Action)
    requires Enabled(w, a)
    ensures var v := Apply(w, a);
            && w.settled <= v.settled
            && (v.settled != w.settled ==> a.SendEvent? || a.StatusCallFails?)
            && (a.SendEvent? ==> |v.settled| == |w.settled| + 1)
            && forall k :: |w.settled| <= k < |v.settled| ==>
                 v.settled[k].1 == if a.SendEvent? then Attempted else Discarded
  {
    hide NextStep, Drain, Limit;
  }

  /** In every run each settled event got its fate from such a step. */
  lemma {:induction false} FatesExactly(states: seq<World>, acts: seq<Action>, i: nat, k: nat) returns (j: nat)
    requires IsRun(INIT, Next, states, acts) && i < |states| && k < |states[i].settled|
    ensures j < i && SettledAt(states, acts, k, j) && states[j + 1].settled[k] == states[i].settled[k]
    decreases i
  {
    hide Enabled, Apply;
    j := i - 1;
    assert Next(states[j], acts[j], states[i]);
    SettlingStep(states[j], acts[j]);
    if k < |states[j].settled| {
      j := FatesExactly(states, acts, i - 1, k);
    }
  }

  // ----- honest devices never leave that way -----

  /** A handler's pass is what its reads amount to, and a decoding error other than a closed
      channel is the error those reads lead to. */
  ghost predicate Coherent(id: Id, h: Handler) {
    EdgeDecoderIsLawful(OriginOf(id));
    var whole := FeedAll(EdgeDecoder(OriginOf(id)), Start(), h.chunks);
    match h
    case Reading(_, pass) => pass == whole && pass.status.Open?
    case Gone(_, Decoding(e)) => e.ChannelClosed? || whole.status == Exited(e)
    case Gone(_, _) => true
  }

  ghost predicate AllCoherent(w: World) {
    forall id <- w.handlers :: Coherent(id, w.handlers[id])
  }

  lemma {:induction false} FeedAllAppend<T, E>(dec: Decoder<T, E>, d: Drained<T, E>, chunks: seq<Bytes>, chunk: Bytes)
    requires Lawful(dec)
    ensures FeedAll(dec, d, chunks + [chunk]) == Feed(dec, FeedAll(dec, d, chunks), chunk)
    decreases |chunks|
  {
    if chunks == [] {
      assert FeedAll(dec, d, [chunk]) == FeedAll(dec, Feed(dec, d, chunk), [chunk][1..]);
    } else {
      assert (chunks + [chunk])[1..] == chunks[1..] + [chunk];
      FeedAllAppend(dec, Feed(dec, d, chunks[0]), chunks[1..], chunk);
    }
  }

  /** Where one read leads a handler. */
  ghost function HandlerAfterRead(id: Id, h: Handler, chunk: Bytes, room: nat): Handler
    requires h.Reading? && h.pass.status.Open?
  {
    var pass, chunks := AfterRead(id, h.pass, chunk, room), h.chunks + [chunk];
    if pass.status.Exited? then Gone(chunks, Decoding(pass.status.error)) else Reading(chunks, pass)
  }

  lemma CoherentRead(id: Id, h: Handler, chunk: Bytes, room: nat)
    requires Coherent(id, h) && h.Reading?
    ensures Coherent(id, HandlerAfterRead(id, h, chunk, room))
  {
    hide NextStep, Drain;
    EdgeDecoderIsLawful(OriginOf(id));
    var dec := EdgeDecoder(OriginOf(id));
    FeedAllAppend(dec, Start(), h.chunks, chunk);
    var next := Drain(dec, h.pass.status.buf + chunk);
    assert |next.items| <= room ==> AfterRead(id, h.pass, chunk, room) == Feed(dec, h.pass, chunk);
  }

  lemma CoherentStep(w: World, a: Action)
    requires AllCoherent(w) && Enabled(w, a)
    ensures AllCoherent(Apply(w, a))
  {
    hide Coherent, AfterRead;
    match a {
      case Connect(id) => CoherentStart(id);
      case Read(id, chunk, room) =>
        CoherentRead(id, w.handlers[id], chunk, room);
        assert Apply(w, a).handlers == w.handlers[id := HandlerAfterRead(id, w.handlers[id], chunk, room)];
      case Close(id) => CoherentEnd(id, w.handlers[id], Closed);
      case ReadError(id, e) => CoherentEnd(id, w.handlers[id], ReadFailed(e));
      case _ =>
    }
  }

  lemma CoherentStart(id: Id)
    ensures Coherent(id, Reading([], Start()))
  {
    hide NextStep;
    EdgeDecoderIsLawful(OriginOf(id));
  }

  lemma CoherentEnd(id: Id, h: Handler, exit: Exit)
    requires !exit.Decoding?
    ensures Coherent(id, Gone(h.chunks, exit))
  {
  }

  /** The bytes this handler has read are the start of a stream of well-formed readings. */
  ghost predicate Honest(h: Handler) {
    exists ps :: Flatten(h.chunks) <= Stream(Frame, ps)
  }

  lemma HonestIsNotMalformed(id: Id, h: Handler)
    requires Coherent(id, h) && Honest(h)
    ensures h.Gone? && h.exit.Decoding? ==> h.exit.why.ChannelClosed?
  {
    hide NextStep, Frame;
    var ps :| Flatten(h.chunks) <= Stream(Frame, ps);
    var _, _ := EdgePrefix(OriginOf(id), ps, h.chunks);
  }

  /** When all devices are honest, over any run: the connected set is exactly the handlers between
      connect and exit, and each device that left has exactly one disconnection event. */
  lemma HonestTracking(states: seq<World>, acts: seq<Action>, i: nat)
    requires IsRun(INIT, Next, states, acts) && i < |states|
    requires forall id <- states[i].handlers :: Honest(states[i].handlers[id])
    ensures forall id :: id in states[i].connected <==> id in states[i].handlers && states[i].handlers[id].Reading?
    ensures forall id <- states[i].handlers ::
              Disconnections(states[i].queued, id) == if states[i].handlers[id].Gone? then 1 else 0
  {
    ConnectionTracking(states, acts, i);
    forall w, a, v | AllCoherent(w) && Next(w, a, v) ensures AllCoherent(v) {
      CoherentStep(w, a);
    }
    HoldsThroughout(INIT, Next, AllCoherent, states, acts, i);
    var w := states[i];
    forall id | id in w.handlers ensures !Malformed(w.handlers[id]) {
      HonestIsNotMalformed(id, w.handlers[id]);
    }
  }

  /** Six bytes that frame an empty payload. */
  const EMPTY_PAYLOAD: Bytes := [0xDA, 0xC8, 0x03, 0x01, 0x00, 0x00]

  lemma EmptyPayloadIsMalformed(o: Origin)
    ensures NextStep(o, EMPTY_PAYLOAD) == Stop(MalformedPayload(UnexpectedEnd))
  {
    var m := EdgeFrame.Msg(EdgeFrame.PACKET_PREAMBLE, 1, EdgeFrame.Reading, []);
    EdgeFrame.MsgRoundTrip(m, []);
    assert EncodeVarint(EdgeFrame.PACKET_PREAMBLE) == [0xDA, 0xC8, 0x03];
    assert EdgeFrame.EncodeMsg(m) + [] == EMPTY_PAYLOAD;
  }

  /** Without honesty the promise fails: one connection that sends six bytes and is gone, yet stays
      in the connected set with no disconnection event. */
  lemma MalformedPayloadLeaks(id: Id) returns (states: seq<World>, acts: seq<Action>)
    ensures IsRun(INIT, Next, states, acts) && |states| == 3
    ensures id in states[2].handlers && states[2].handlers[id].Gone?
    ensures id in states[2].connected && Disconnections(states[2].queued, id) == 0
  {
    hide NextStep;
    var connect, read := Connect(id), Read(id, EMPTY_PAYLOAD, 1);
    var w := Apply(INIT, connect);
    EdgeDecoderIsLawful(OriginOf(id));
    EmptyPayloadIsMalformed(OriginOf(id));
    assert [] + EMPTY_PAYLOAD == EMPTY_PAYLOAD;
    assert EdgeDecoder(OriginOf(id))(EMPTY_PAYLOAD) == NextStep(OriginOf(id), EMPTY_PAYLOAD);
    assert AfterRead(id, Start(), EMPTY_PAYLOAD, 1).status == Exited(MalformedPayload(UnexpectedEnd));
    states, acts := [INIT, w, Apply(w, read)], [connect, read];
  }
}
