/**
 The edge device: sensors push tagged readings into a bounded queue, the engine numbers them
 and prints them as frames on a socket that may take any part of a write, or break.
 */
module EdgeDevice {
  import opened Postcard
  import opened EdgeFrame
  import opened Incremental
  import opened Core
  import EdgeReceiver

  const READING_QUEUE_DEPTH := 16

  datatype TaggedReading = TaggedReading(sensorId: U128, metric: EdgeFrame.SensorMetric)

  datatype SendError = UnableToSend | SerializationFailed

  /** The beginning of b up to a limit, if there is one. */
  function UpTo(limit: Option<nat>, b: Bytes): (c: Bytes)
    ensures c <= b
    ensures c == b <==> Within(limit, |b|)
  {
    if Within(limit, |b|) then b else b[..limit.value]
  }

  predicate Within(limit: Option<nat>, n: nat) {
    limit.Some? ==> n <= limit.value
  }

  /** The connected TCP socket.  It accepts so many bytes, in writes that take any non-empty part of
      their buffer; then the next write finds the connection gone, for good.  How much of what it
      accepted is carried to the other end is another matter. */
  class Socket {
    const accepts: Option<nat>
    var sent: Bytes
    var broken: bool

    ghost predicate Sound()
      reads this
    {
      Within(accepts, |sent|) && (broken ==> accepts == Some(|sent|))
    }

    constructor (accepts: Option<nat>)
      ensures Sound() && this.accepts == accepts && sent == [] && !broken
    {
      this.accepts := accepts;
      sent, broken := [], false;
    }

    method Write(buf: Bytes) returns (n: nat)
      requires Sound() && buf != []
      modifies this
      ensures Sound()
      ensures broken <==> n == 0
      ensures n == 0 <==> accepts == Some(|old(sent)|)
      ensures n <= |buf| && sent == old(sent) + buf[..n]
    {
      if accepts == Some(|sent|) {
        broken := true;
        return 0;
      }
      n :| 0 < n <= |buf| && Within(accepts, |sent| + n);
      sent := sent + buf[..n];
    }

    /** What is sent does not depend on how the writes were cut. */
    method WriteAll(buf: Bytes) returns (ok: bool)
      requires Sound()
      modifies this
      ensures Sound()
      ensures sent == UpTo(accepts, old(sent) + buf)
      ensures ok <==> Within(accepts, |old(sent)| + |buf|)
      ensures broken <==> !ok || old(broken)
    {
      var rest := buf;
      ghost var done := [];
      while rest != []
        invariant buf == done + rest
        invariant Sound() && sent == old(sent) + done
        invariant broken == old(broken)
        decreases |rest|
      {
        var n := Write(rest);
        if n == 0 {
          assert sent == (old(sent) + buf)[..|sent|];
          return false;
        }
        assert done + rest == (done + rest[..n]) + rest[n..];
        done := done + rest[..n];
        rest := rest[n..];
      }
      return true;
    }

    method SendReading(packet: ReadingPacket) returns (r: Option<SendError>)
      requires Sound()
      modifies this
      ensures Sound()
      ensures sent == UpTo(accepts, old(sent) + EdgeReceiver.Frame(packet))
      ensures r == if Within(accepts, |old(sent)| + |EdgeReceiver.Frame(packet)|) then None else Some(UnableToSend)
      ensures broken <==> r.Some?
    {
      FrameFits(packet);
      var payload := EncodePacket(packet);
      if |payload| > MAX_PAYLOAD_SIZE {
        return Some(SerializationFailed);
      }
      var frame := EncodeMsg(Msg(PACKET_PREAMBLE, PROTOCOL_VERSION, Reading, payload));
      if |frame| > MAX_PACKET_SIZE {
        return Some(SerializationFailed);
      }
      assert frame != [];
      var ok := WriteAll(frame);
      r := if ok then None else Some(UnableToSend);
    }
  }

  // ----- numbering -----

  /** The k-th reading taken from the queue travels with reading_id k, modulo 2^16. */
  function PacketOf(deviceId: U128, k: nat, r: TaggedReading): ReadingPacket {
    ReadingPacket(deviceId, r.sensorId, k % 0x1_0000, r.metric)
  }

  /** What is read off the k-th frame: the device, the sensor, k modulo 2^16 and the metric. */
  lemma FrameTells(deviceId: U128, k: nat, r: TaggedReading, tail: Bytes)
    ensures var msg := DecodeMsg(EdgeReceiver.Frame(PacketOf(deviceId, k, r)) + tail);
            && msg.Ok? && msg.rest == tail && msg.value.preamble == 0xE45A && msg.value.version == 1
            && var packet := DecodePacket(msg.value.payload);
               && packet.Ok?
               && packet.value.deviceId == deviceId && packet.value.sensorId == r.sensorId
               && packet.value.readingId == k % 65536 && packet.value.metric == r.metric
  {
    hide DecodeMsg, DecodePacket, EncodeMsg, EncodePacket;
    var p := PacketOf(deviceId, k, r);
    FrameFits(p);
    MsgRoundTrip(FrameOf(p), tail);
    PacketRoundTrip(p, []);
    assert EncodePacket(p) + [] == EncodePacket(p);
  }

  function Packets(deviceId: U128, rs: seq<TaggedReading>): (ps: seq<ReadingPacket>)
    ensures |ps| == |rs|
    ensures forall k :: 0 <= k < |rs| ==> ps[k] == PacketOf(deviceId, k, rs[k])
  {
    seq(|rs|, k requires 0 <= k < |rs| => PacketOf(deviceId, k, rs[k]))
  }

  ghost function Printed(deviceId: U128, rs: seq<TaggedReading>): Bytes {
    Stream(EdgeReceiver.Frame, Packets(deviceId, rs))
  }

  lemma PrintedAppend(deviceId: U128, rs: seq<TaggedReading>, r: TaggedReading)
    ensures Printed(deviceId, rs + [r]) == Printed(deviceId, rs) + EdgeReceiver.Frame(PacketOf(deviceId, |rs|, r))
  {
    hide EdgeReceiver.Frame;
    var p := PacketOf(deviceId, |rs|, r);
    assert Packets(deviceId, rs + [r]) == Packets(deviceId, rs) + [p];
    StreamAppend(EdgeReceiver.Frame, Packets(deviceId, rs), [p]);
    assert Stream(EdgeReceiver.Frame, [p]) == EdgeReceiver.Frame(p);
  }

  lemma {:induction false} UpToTwice(limit: Option<nat>, a: Bytes, b: Bytes)
    ensures UpTo(limit, UpTo(limit, a) + b) == UpTo(limit, a + b)
  {
  }

  /** `whole` is how many of the frames of rs, printed one after another, end within the limit. */
  ghost predicate GetThrough(limit: Option<nat>, deviceId: U128, rs: seq<TaggedReading>, whole: nat) {
    && whole <= |rs|
    && Within(limit, |Printed(deviceId, rs[..whole])|)
    && (whole < |rs| ==> !Within(limit, |Printed(deviceId, rs[..whole + 1])|))
  }

  /** The engine with the sensors' shared queue.  The ghost fields record the run. */
  class Engine {
    const deviceId: U128
    const socket: Socket
    var queue: seq<TaggedReading>
    var readingSeq: U16

    ghost var produced: nat                // readings offered by the sensors
    ghost var dropped: nat                 // of those, refused by a full queue
    ghost var dequeued: seq<TaggedReading> // taken by the engine, in order
    ghost var whole: nat                   // turns at whose end the socket was up

    ghost predicate Valid()
      reads this, socket
    {
      && |queue| <= READING_QUEUE_DEPTH
      && produced == dropped + |queue| + |dequeued|
      && readingSeq == |dequeued| % 0x1_0000
      && socket.Sound()
      && socket.sent == UpTo(socket.accepts, Printed(deviceId, dequeued))
      && GetThrough(socket.accepts, deviceId, dequeued, whole)
      && (socket.broken <==> whole < |dequeued|)
    }

    constructor (deviceId: U128, accepts: Option<nat>)
      ensures Valid() && this.deviceId == deviceId && socket.accepts == accepts
      ensures queue == [] && dequeued == [] && produced == 0 && whole == 0 && fresh(socket)
    {
      this.deviceId := deviceId;
      socket := new Socket(accepts);
      queue, readingSeq, produced, dropped, dequeued, whole := [], 0, 0, 0, [], 0;
    }

    /** A sensor offers a reading and does not wait. */
    method TrySend(r: TaggedReading) returns (ok: bool)
      requires Valid()
      modifies this`queue, this`produced, this`dropped
      ensures Valid()
      ensures ok == (|old(queue)| < 16)
      ensures queue == if ok then old(queue) + [r] else old(queue)
      ensures produced == old(produced) + 1
      ensures dropped == old(dropped) + (if ok then 0 else 1)
    {
      ok := |queue| < READING_QUEUE_DEPTH;
      produced := produced + 1;
      if ok {
        queue := queue + [r];
      } else {
        dropped := dropped + 1;
      }
    }

    /** One turn of the engine's loop, once a reading is there to receive.  The reading leaves the
        queue whether or not its frame gets out; if it does not, no later turn sends anything. */
    method RunOnce()
      requires Valid() && queue != []
      modifies this`queue, this`readingSeq, this`dequeued, this`whole, socket
      ensures Valid()
      ensures dequeued == old(dequeued) + [old(queue)[0]] && queue == old(queue)[1..]
      ensures old(socket.broken) ==> socket.broken && socket.sent == old(socket.sent)
      ensures whole == if socket.broken then old(whole) else old(whole) + 1
      ensures var frame := EdgeReceiver.Frame(PacketOf(deviceId, |old(dequeued)|, old(queue)[0]));
              if socket.broken then old(socket.sent) <= socket.sent < old(socket.sent) + frame
              else socket.sent == old(socket.sent) + frame
    {
      hide EdgeReceiver.Frame, GetThrough, Printed, UpTo;
      var reading := queue[0];
      queue := queue[1..];
      var packet := ReadingPacket(deviceId, reading.sensorId, readingSeq, reading.metric);
      OneMoreTurn(socket.accepts, deviceId, dequeued, reading, whole);
      dequeued := dequeued + [reading];
      var error := socket.SendReading(packet);
      whole := if error.Some? then whole else whole + 1;
      readingSeq := (readingSeq + 1) % 0x1_0000;
    }
  }

  /** What one more reading adds to what the socket accepted. */
  lemma OneMoreTurn(limit: Option<nat>, deviceId: U128, before: seq<TaggedReading>, r: TaggedReading, whole: nat)
    requires GetThrough(limit, deviceId, before, whole)
    ensures var frame := EdgeReceiver.Frame(PacketOf(deviceId, |before|, r));
            var carried := UpTo(limit, Printed(deviceId, before));
            var fits := Within(limit, |carried| + |frame|);
            && UpTo(limit, carried + frame) == UpTo(limit, Printed(deviceId, before + [r]))
            && (if fits then UpTo(limit, carried + frame) == carried + frame
                else carried <= UpTo(limit, carried + frame) < carried + frame)
            && GetThrough(limit, deviceId, before + [r], if fits then whole + 1 else whole)
            && whole <= |before| && (fits ==> whole == |before|)
            && (whole < |before| ==> UpTo(limit, carried + frame) == carried)
  {
    hide EdgeReceiver.Frame, Printed;
    var frame := EdgeReceiver.Frame(PacketOf(deviceId, |before|, r));
    var printed, now := Printed(deviceId, before), before + [r];
    FrameIsSome(PacketOf(deviceId, |before|, r));
    PrintedAppend(deviceId, before, r);
    UpToTwice(limit, printed, frame);
    assert before[..|before|] == before && now[..|now|] == now;
    assert now[..whole] == before[..whole];
    if whole < |before| {
      assert now[..whole + 1] == before[..whole + 1];
      PrintedGrows(deviceId, before, whole + 1, |before|);
    }
  }

  lemma FrameIsSome(p: ReadingPacket)
    ensures |EdgeReceiver.Frame(p)| > 6
  {
    FrameFits(p);
  }

  /** What the dispatcher makes of a tagged reading. */
  function Emitted(o: EdgeReceiver.Origin): TaggedReading -> EdgeReceiver.EdgeReading {
    (r: TaggedReading) => EdgeReceiver.EdgeReading(o, r.sensorId, EdgeReceiver.ConvertMetric(r.metric), 100)
  }

  /** From the sensor queue to the dispatcher: in every state of the engine, whatever part of its
      bytes has arrived and however it was cut, the dispatcher has emitted the sensor identifiers
      and metrics of a prefix of the dequeued readings, in order, and nothing else. */
  lemma DeliveredIsPrefix(o: EdgeReceiver.Origin, deviceId: U128, dequeued: seq<TaggedReading>, sent: Bytes,
                          chunks: seq<Bytes>)
    returns (done: nat)
    requires sent <= Printed(deviceId, dequeued)
    requires Flatten(chunks) <= sent
    ensures Lawful(EdgeReceiver.EdgeDecoder(o))
    ensures done <= |dequeued|
    ensures var d := FeedAll(EdgeReceiver.EdgeDecoder(o), Start(), chunks);
            && d.status.Open? && |d.status.buf| <= 50
            && |d.items| == done
            && forall k :: 0 <= k < done ==>
                 d.items[k] == Emitted(o)(dequeued[k])
    ensures Flatten(chunks) == Printed(deviceId, dequeued) ==> done == |dequeued|
  {
    hide EdgeReceiver.NextStep, EdgeReceiver.Frame;
    var ps := Packets(deviceId, dequeued);
    var partial;
    done, partial := EdgeReceiver.EdgePrefix(o, ps, chunks);
    if Flatten(chunks) == Printed(deviceId, dequeued) {
      EdgeReceiver.EdgeRoundTrip(o, ps, chunks);
    }
  }

  lemma {:induction false} PrintedGrows(deviceId: U128, rs: seq<TaggedReading>, j: nat, k: nat)
    requires j <= k <= |rs|
    ensures Printed(deviceId, rs[..j]) <= Printed(deviceId, rs[..k])
    decreases k
  {
    hide EdgeReceiver.Frame;
    if j < k {
      PrintedGrows(deviceId, rs, j, k - 1);
      PrintedAppend(deviceId, rs[..k - 1], rs[k - 1]);
      assert rs[..k] == rs[..k - 1] + [rs[k - 1]];
    }
  }

  /** Up to a limit there are the whole frames and, if it cuts any, a strict part of the next. */
  lemma PartsUpTo(limit: Option<nat>, deviceId: U128, rs: seq<TaggedReading>, whole: nat) returns (partial: Bytes)
    requires GetThrough(limit, deviceId, rs, whole)
    ensures UpTo(limit, Printed(deviceId, rs)) == Printed(deviceId, rs[..whole]) + partial
    ensures whole == |rs| ==> partial == []
    ensures whole < |rs| ==> partial < EdgeReceiver.Frame(PacketOf(deviceId, whole, rs[whole]))
  {
    hide EdgeReceiver.Frame, Printed;
    assert rs[..|rs|] == rs;
    if whole == |rs| {
      return [];
    }
    PrintedGrows(deviceId, rs, whole + 1, |rs|);
    PrintedAppend(deviceId, rs[..whole], rs[whole]);
    assert rs[..whole + 1] == rs[..whole] + [rs[whole]];
    var frame := EdgeReceiver.Frame(PacketOf(deviceId, whole, rs[whole]));
    var start := Printed(deviceId, rs[..whole]);
    partial := frame[..limit.value - |start|];
    assert Printed(deviceId, rs)[..|start + frame|] == start + frame;
  }

  /** What the dispatcher emits for these bytes, however they are cut. */
  ghost predicate Emits(o: EdgeReceiver.Origin, bytes: Bytes, rs: seq<TaggedReading>) {
    && Lawful(EdgeReceiver.EdgeDecoder(o))
    && forall chunks :: Flatten(chunks) == bytes ==>
         FeedAll(EdgeReceiver.EdgeDecoder(o), Start(), chunks).items ==
         Items(Emitted(o), rs)
  }

  /** The connection limit to the end of the k-th frame. */
  ghost predicate EndsWithin(limit: Option<nat>, deviceId: U128, rs: seq<TaggedReading>, k: nat)
    requires k < |rs|
  {
    Within(limit, |Printed(deviceId, rs[..k + 1])|)
  }

  /** Which frames end within a limit. */
  lemma EndsWithinExactly(limit: Option<nat>, deviceId: U128, rs: seq<TaggedReading>, whole: nat)
    requires GetThrough(limit, deviceId, rs, whole)
    ensures forall k :: 0 <= k < |rs| ==> (k < whole <==> EndsWithin(limit, deviceId, rs, k))
  {
    hide EdgeReceiver.Frame;
    forall k | 0 <= k < |rs| ensures k < whole <==> EndsWithin(limit, deviceId, rs, k) {
      if k < whole {
        PrintedGrows(deviceId, rs, k + 1, whole);
      } else {
        PrintedGrows(deviceId, rs, whole + 1, k + 1);
      }
    }
  }

  lemma {:induction false} SomeGetThrough(limit: Option<nat>, deviceId: U128, rs: seq<TaggedReading>, from: nat)
    returns (whole: nat)
    requires from <= |rs| && Within(limit, |Printed(deviceId, rs[..from])|)
    ensures GetThrough(limit, deviceId, rs, whole) && from <= whole
    decreases |rs| - from
  {
    hide Printed;
    if from < |rs| && Within(limit, |Printed(deviceId, rs[..from + 1])|) {
      whole := SomeGetThrough(limit, deviceId, rs, from + 1);
    } else {
      whole := from;
    }
  }

  lemma EmittedUpTo(o: EdgeReceiver.Origin, limit: Option<nat>, deviceId: U128, rs: seq<TaggedReading>, whole: nat)
    requires GetThrough(limit, deviceId, rs, whole)
    ensures Emits(o, UpTo(limit, Printed(deviceId, rs)), rs[..whole])
  {
    hide EdgeReceiver.NextStep, EdgeReceiver.Frame;
    var bytes := UpTo(limit, Printed(deviceId, rs));
    var partial := PartsUpTo(limit, deviceId, rs, whole);
    WholeAndPartial(o, deviceId, rs, whole, partial);
    EdgeReceiver.EdgeDecoderIsLawful(o);
    forall chunks | Flatten(chunks) == bytes
      ensures FeedAll(EdgeReceiver.EdgeDecoder(o), Start(), chunks) == Drain(EdgeReceiver.EdgeDecoder(o), bytes)
    {
      ChunkIndependence(EdgeReceiver.EdgeDecoder(o), chunks, chunks);
    }
  }

  /** Nothing is carried that was not accepted. */
  predicate AtMost(carries: Option<nat>, accepts: Option<nat>) {
    accepts.Some? ==> carries.Some? && carries.value <= accepts.value
  }

  /** Which readings get lost.  The socket accepted `whole` frames of the dequeued readings; of the
      bytes it accepted, those up to `carries` reach the dispatcher.  Then exactly the first `arrived`
      readings are emitted: the k-th is among them if and only if its frame ends within what is
      carried, and none is whose send failed. */
  lemma DeliveredExactly(o: EdgeReceiver.Origin, accepts: Option<nat>, carries: Option<nat>, deviceId: U128,
                         dequeued: seq<TaggedReading>, whole: nat)
    returns (arrived: nat)
    requires GetThrough(accepts, deviceId, dequeued, whole) && AtMost(carries, accepts)
    ensures arrived <= whole <= |dequeued|
    ensures Emits(o, UpTo(carries, UpTo(accepts, Printed(deviceId, dequeued))), dequeued[..arrived])
    ensures forall k :: 0 <= k < |dequeued| ==> (k < arrived <==> EndsWithin(carries, deviceId, dequeued, k))
    ensures GetThrough(carries, deviceId, dequeued, arrived)
  {
    hide EdgeReceiver.Frame, Printed, Emits;
    assert dequeued[..0] == [];
    NothingPrinted(deviceId);
    arrived := SomeGetThrough(carries, deviceId, dequeued, 0);
    EmittedUpTo(o, carries, deviceId, dequeued, arrived);
    EndsWithinExactly(carries, deviceId, dequeued, arrived);
    EndsWithinExactly(accepts, deviceId, dequeued, whole);
    if whole < |dequeued| {
      assert !EndsWithin(accepts, deviceId, dequeued, whole);
      assert !EndsWithin(carries, deviceId, dequeued, whole);
    }
    var printed := Printed(deviceId, dequeued);
    assert UpTo(carries, UpTo(accepts, printed)) == UpTo(carries, printed);
  }

  lemma NothingPrinted(deviceId: U128)
    ensures Printed(deviceId, []) == []
  {
  }

  lemma WholeAndPartial(o: EdgeReceiver.Origin, deviceId: U128, rs: seq<TaggedReading>, whole: nat, partial: Bytes)
    requires whole <= |rs|
    requires if whole == |rs| then partial == [] else partial < EdgeReceiver.Frame(PacketOf(deviceId, whole, rs[whole]))
    ensures Lawful(EdgeReceiver.EdgeDecoder(o))
    ensures Drain(EdgeReceiver.EdgeDecoder(o), Printed(deviceId, rs[..whole]) + partial).items ==
            Items(Emitted(o), rs[..whole])
  {
    hide EdgeReceiver.NextStep, EdgeReceiver.Frame;
    EdgeReceiver.EdgeDecoderIsLawful(o);
    var dec, ps := EdgeReceiver.EdgeDecoder(o), Packets(deviceId, rs[..whole]);
    EdgeReceiver.EdgeRoundTrip(o, ps, [Printed(deviceId, rs[..whole])]);
    FeedAllIsOnePass(dec, [], [Printed(deviceId, rs[..whole])]);
    var printed := Printed(deviceId, rs[..whole]);
    assert Flatten([printed]) == printed + Flatten([]) == printed;
    assert [] + printed == printed && [] + partial == partial;
    assert Drain(dec, printed) == Drained(Items(p => EdgeReceiver.ReadingOf(o, p), ps), Open([]));
    DrainExtends(dec, printed, partial);
    if whole < |rs| {
      var p := PacketOf(deviceId, whole, rs[whole]);
      EdgeReceiver.FrameReadsBack(o, p);
      UnfinishedWaits(dec, EdgeReceiver.Frame, q => EdgeReceiver.ReadingOf(o, q), p, |partial|);
      assert EdgeReceiver.Frame(p)[..|partial|] == partial;
      assert dec(partial) == Wait;
    }
    assert Drain(dec, partial).items == [];
  }

  /** A run that loses readings: the connection breaks inside the first frame, and neither that
      reading nor the next, though both were taken from the queue, is ever emitted. */
  method BrokenConnectionLosesReadings(deviceId: U128, first: TaggedReading, later: TaggedReading) returns (e: Engine)
    ensures fresh(e) && e.Valid() && e.queue == [] && e.dequeued == [first, later] && e.dropped == 0
    ensures forall o, carries :: AtMost(carries, e.socket.accepts) ==> Emits(o, UpTo(carries, e.socket.sent), [])
  {
    hide EdgeReceiver.Frame, Emits, GetThrough;
    e := new Engine(deviceId, Some(5));
    var _ := e.TrySend(first);
    e.RunOnce();
    FrameIsSome(PacketOf(deviceId, 0, first));
    assert e.whole == 0;
    var _ := e.TrySend(later);
    e.RunOnce();
    forall o, carries | AtMost(carries, e.socket.accepts) ensures Emits(o, UpTo(carries, e.socket.sent), []) {
      var arrived := DeliveredExactly(o, e.socket.accepts, carries, deviceId, e.dequeued, e.whole);
      assert e.dequeued[..arrived] == [];
    }
  }
}
