/** From a device's queue to prime's map: the edge link and the upload system joined at the collector. */
module EndToEnd {
  import opened Core
  import opened Postcard
  import opened DispatchStorage
  import opened Runs
  import opened UploadSystem
  import EdgeDevice
  import EdgeReceiver
  import EdgeFrame
  import ReadingQuery

  /** The reading the dispatcher makes of what a device sent, with the identifier and time drawn for it. */
  function Stamped(e: EdgeReceiver.EdgeReading, id: Id, time: Timestamp): SensorReading {
    SensorReading(id, e.origin.deviceId, e.origin.dispatcherId, e.metric, e.origin.location, e.confidence, time,
                  e.sensorId)
  }

  /** Of the bytes the socket accepted, those the network carried. */
  ghost function Carried(accepts: Option<nat>, carries: Option<nat>, deviceId: U128,
                         dequeued: seq<EdgeDevice.TaggedReading>): Bytes
  {
    EdgeDevice.UpTo(carries, EdgeDevice.UpTo(accepts, EdgeDevice.Printed(deviceId, dequeued)))
  }

  /** What the collector does with one emitted reading, and when. */
  datatype Drawn = Drawn(id: Id, time: Timestamp, step: nat)

  /** Before state i the collector has stored the k-th of these readings at step drawn[k], and its device
      was registered by then. */
  ghost predicate Collected(states: seq<State>, acts: seq<Action>, i: nat, rs: seq<EdgeReceiver.EdgeReading>,
                            drawn: seq<Drawn>)
    requires i <= |acts| < |states|
  {
    && |drawn| == |rs|
    && forall k :: 0 <= k < |rs| ==>
         && drawn[k].step < i
         && acts[drawn[k].step] == Collect(Reading(Stamped(rs[k], drawn[k].id, drawn[k].time)))
         && rs[k].origin.deviceId in states[drawn[k].step].devices
  }

  lemma KeptStep(s: State, a: Action, k: Key)
    requires Enabled(s, a) && k in s.ever && k in s.trusted
    ensures var t := Apply(s, a); k in t.ever && t.ever[k] == s.ever[k] && k in t.trusted
  {
    hide KeysOf, ListsPending, CheckOne, Mark, Cleaned, Put;
    if a.Check? {
      CheckFrame(s, a.id);
    }
  }

  lemma CollectTrusts(s: State, r: Record)
    requires Enabled(s, Collect(r)) && r.DeviceId() in s.devices
    ensures var t := Apply(s, Collect(r)); r.Key() in t.ever && t.ever[r.Key()] == r && r.Key() in t.trusted
  {
  }

  /** What the collector stored stays on record. */
  lemma {:induction false} StaysOnRecord(states: seq<State>, acts: seq<Action>, step: nat, i: nat, r: Record)
    requires IsRun(INIT, Next, states, acts) && step < i < |states|
    requires acts[step] == Collect(r) && r.DeviceId() in states[step].devices
    ensures r.Key() in states[i].ever && states[i].ever[r.Key()] == r && r.Key() in states[i].trusted
    decreases i
  {
    hide Enabled, Apply;
    assert Next(states[i - 1], acts[i - 1], states[i]);
    if step == i - 1 {
      CollectTrusts(states[step], r);
    } else {
      StaysOnRecord(states, acts, step, i - 1, r);
      KeptStep(states[i - 1], acts[i - 1], r.Key());
    }
  }

  // ----- what is kept of a metric -----

  /** The number a device puts on the wire for a metric. */
  function NumberSent(m: EdgeFrame.SensorMetric): int {
    match m
    case SoilMoisture(percent) => percent
    case SoilTemp(centi) => centi
    case AirTemp(centi) => centi
    case Humidity(percent) => percent
    case Rainfall(centi100) => centi100
  }

  /** The kind stored centrally is the variant printed on the wire; a percentage is stored as it was
      sent, and anything else is a hundredth of the number sent. */
  ghost predicate MetricKept(sent: EdgeFrame.SensorMetric, stored: Core.SensorMetric) {
    var kind := ReadingQuery.TypeNumber(ReadingQuery.MetricTypeOf(stored));
    var value := ReadingQuery.MetricValue(stored);
    && EdgeFrame.EncodeMetric(sent)[..1] == [kind]
    && (kind == 0 || kind == 3 ==> value == NumberSent(sent) as real)
    && (kind == 1 || kind == 2 || kind == 4 ==> 100.0 * value == NumberSent(sent) as real)
    && 0 <= kind <= 4
  }

  lemma ConversionKeepsMetric(m: EdgeFrame.SensorMetric)
    ensures MetricKept(m, EdgeReceiver.ConvertMetric(m))
  {
  }

  /** This stored reading is that one of the device's queue, under the connection's identity. */
  ghost predicate TellsOf(o: EdgeReceiver.Origin, sent: EdgeDevice.TaggedReading, d: Drawn, r: SensorReading) {
    && r.id == d.id && r.timestamp == d.time
    && r.deviceId == o.deviceId && r.dispatcherId == o.dispatcherId && r.location == o.location
    && r.confidence == 100
    && r.sensorId == sent.sensorId && MetricKept(sent.metric, r.metric)
  }

  /** A reading of the device's queue is pending at the dispatcher, or stored at prime. */
  ghost predicate Safe(s: State, o: EdgeReceiver.Origin, sent: EdgeDevice.TaggedReading, d: Drawn) {
    var key := ReadingKey(d.id);
    || (key in s.store && s.store[key].state == Pending && s.store[key].record.Reading?
        && TellsOf(o, sent, d, s.store[key].record.reading))
    || (key in s.prime && s.prime[key].Reading? && TellsOf(o, sent, d, s.prime[key].reading))
  }

  lemma CollectedIsSafe(states: seq<State>, acts: seq<Action>, i: nat, o: EdgeReceiver.Origin,
                        sent: EdgeDevice.TaggedReading, e: EdgeReceiver.EdgeReading, d: Drawn)
    requires IsRun(INIT, Next, states, acts) && i < |states| && d.step < i
    requires acts[d.step] == Collect(Reading(Stamped(e, d.id, d.time)))
    requires e.origin.deviceId in states[d.step].devices
    requires e == EdgeDevice.Emitted(o)(sent)
    ensures Safe(states[i], o, sent, d)
  {
    hide IsRun, Apply, Enabled, MetricKept;
    ConversionKeepsMetric(sent.metric);
    var r := Reading(Stamped(e, d.id, d.time));
    StaysOnRecord(states, acts, d.step, i, r);
    TrustedRecordsArrive(states, acts, i, r.Key());
    InvThroughout(states, acts, i);
    if IsPending(states[i].store, r.Key()) {
      PendingAsStored(states[i], r.Key());
    }
  }

  lemma RunLength(states: seq<State>, acts: seq<Action>)
    requires IsRun(INIT, Next, states, acts)
    ensures |states| == |acts| + 1
  {
  }

  lemma PendingAsStored(s: State, k: Key)
    requires Inv(s) && IsPending(s.store, k)
    ensures k in s.ever && s.store[k] == Stored(s.ever[k], Pending)
  {
  }

  /** The readings the collector got are the emitted ones. */
  ghost predicate FromDevice(o: EdgeReceiver.Origin, dequeued: seq<EdgeDevice.TaggedReading>, arrived: nat,
                             rs: seq<EdgeReceiver.EdgeReading>)
  {
    && arrived <= |dequeued| && |rs| == arrived
    && forall k :: 0 <= k < arrived ==> rs[k] == EdgeDevice.Emitted(o)(dequeued[k])
  }

  /** From a sensor to the central store.  A device's engine has dequeued some readings; its socket
      accepted some bytes and the network carried some of those.  However the bytes were cut into reads,
      the collector gets exactly the readings whose frames end within what was carried.  If it has
      stored them, the device registered by then, then in every state of every run of the upload system,
      whatever was lost, delayed or sent again, each of them is pending at the dispatcher or at prime:
      with that sensor, the kind and the value of that metric, and the connection's own device,
      dispatcher and location. */
  lemma FromSensorToStore(o: EdgeReceiver.Origin, accepts: Option<nat>, carries: Option<nat>, deviceId: U128,
                          dequeued: seq<EdgeDevice.TaggedReading>, whole: nat, drawn: seq<Drawn>,
                          states: seq<State>, acts: seq<Action>, i: nat)
    returns (rs: seq<EdgeReceiver.EdgeReading>)
    requires EdgeDevice.GetThrough(accepts, deviceId, dequeued, whole) && EdgeDevice.AtMost(carries, accepts)
    requires IsRun(INIT, Next, states, acts) && i <= |acts|
    ensures forall k :: 0 <= k < |dequeued| ==> (k < |rs| <==> EdgeDevice.EndsWithin(carries, deviceId, dequeued, k))
    ensures |rs| <= |dequeued| && FromDevice(o, dequeued, |rs|, rs)
    ensures EdgeDevice.Emits(o, Carried(accepts, carries, deviceId, dequeued),
                             dequeued[..|rs|])
    ensures Collected(states, acts, i, rs, drawn) ==>
              forall k :: 0 <= k < |rs| ==> Safe(states[i], o, dequeued[k], drawn[k])
  {
    hide EdgeDevice.GetThrough, EdgeDevice.Emits, EdgeDevice.EndsWithin, IsRun, Safe;
    var arrived := EdgeDevice.DeliveredExactly(o, accepts, carries, deviceId, dequeued, whole);
    rs := seq(arrived, k requires 0 <= k < arrived => EdgeDevice.Emitted(o)(dequeued[k]));
    assert |acts| < |states| by {
      RunLength(states, acts);
    }
    if Collected(states, acts, i, rs, drawn) {
      forall k | 0 <= k < |rs| ensures Safe(states[i], o, dequeued[k], drawn[k]) {
        CollectedIsSafe(states, acts, i, o, dequeued[k], rs[k], drawn[k]);
      }
    }
  }
}
