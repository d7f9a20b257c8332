/**
 The dispatcher's side of one edge connection: the handshake, and an incremental decoder
 that keeps the bytes of an unfinished frame between reads.
 */
module EdgeReceiver {
  import opened Postcard
  import opened EdgeFrame
  import opened Incremental
  import Core

  /** What the handshake fixes for a connection. */
  datatype Origin = Origin(deviceId: Core.Id, dispatcherId: Core.Id, location: U64)

  /** A reading handed to the collector, without the identifier and the clock value drawn for it. */
  datatype EdgeReading = EdgeReading(
    origin: Origin,
    sensorId: Core.Id,
    metric: Core.SensorMetric,
    confidence: Byte)

  datatype ExitError =
    | BadFrame(error: DecodeError)
    | InvalidPreamble(preamble: U16)
    | MalformedPayload(error: DecodeError)
    | ChannelClosed

  type Pass = Drained<EdgeReading, ExitError>

  function ConvertMetric(m: SensorMetric): Core.SensorMetric {
    match m
    case SoilMoisture(v) => Core.SoilMoisture(v)
    case SoilTemp(v) => Core.SoilTemp(v as real / 100.0)
    case AirTemp(v) => Core.AirTemp(v as real / 100.0)
    case Humidity(v) => Core.Humidity(v)
    case Rainfall(v) => Core.Rainfall(v as real / 100.0)
  }

  function ReadingOf(o: Origin, p: ReadingPacket): EdgeReading {
    EdgeReading(o, p.sensorId, ConvertMetric(p.metric), 100)
  }

  /** Scaling by 100 loses nothing: two metrics look alike to the collector only if they were sent alike. */
  lemma ConversionIsInjective(a: SensorMetric, b: SensorMetric)
    ensures ConvertMetric(a) == ConvertMetric(b) <==> a == b
  {
  }

  /** What the decode loop does next with a buffer. */
  function NextStep(o: Origin, buf: Bytes): Step<EdgeReading, ExitError> {
    match DecodeMsg(buf)
    case Err(e) => if e == UnexpectedEnd then Wait else Stop(BadFrame(e))
    case Ok(msg, rest) =>
      if msg.preamble != PACKET_PREAMBLE then Stop(InvalidPreamble(msg.preamble))
      else
        match DecodePacket(msg.payload)
        case Err(e) => Stop(MalformedPayload(e))
        case Ok(packet, _) => Emit(ReadingOf(o, packet), rest)
  }

  function EdgeDecoder(o: Origin): Decoder<EdgeReading, ExitError> {
    (buf: Bytes) => NextStep(o, buf)
  }

  /** Each frame shrinks the buffer by at least four bytes, and no verdict on a buffer is
      revised when more bytes arrive. */
  lemma EdgeDecoderIsLawful(o: Origin)
    ensures Lawful(EdgeDecoder(o))
    ensures forall buf :: NextStep(o, buf).Emit? ==> |NextStep(o, buf).rest| + 4 <= |buf|
  {
    hide DecodeMsg, DecodePacket;
    var dec := EdgeDecoder(o);
    forall buf
      ensures Consumes(dec, buf)
      ensures NextStep(o, buf).Emit? ==> |NextStep(o, buf).rest| + 4 <= |buf|
    {
      if DecodeMsg(buf).Ok? {
        MsgConsumes(buf);
      }
    }
    forall a, b ensures StableAt(dec, a, b) {
      MsgStable(a, b);
    }
    MsgNeedsBytes();
  }

  lemma MsgNeedsBytes()
    ensures DecodeMsg([]) == Err(UnexpectedEnd)
  {
  }

  /** A pass over a buffer when the collector takes only `room` more readings before its channel closes. */
  function Limit(d: Pass, room: nat): Pass {
    if |d.items| <= room then d else Drained(d.items[..room], Exited(ChannelClosed))
  }

  /** The connection handler's loop state, updated in place. */
  class EdgeHandler {
    const origin: Origin
    var buf: Bytes
    var emitted: seq<EdgeReading>
    var failure: Core.Option<ExitError>

    ghost function State(): Pass
      reads this
    {
      Drained(emitted, if failure.Some? then Exited(failure.value) else Open(buf))
    }

    constructor (origin: Origin)
      ensures this.origin == origin
      ensures State() == Start()
    {
      this.origin := origin;
      buf, emitted, failure := [], [], Core.None;
    }

    /** One successful read.  `room` is how many more readings the collector's channel takes. */
    method OnRead(chunk: Bytes, room: nat)
      requires failure.None?
      modifies this
      ensures Lawful(EdgeDecoder(origin))
      ensures var pass := Limit(Drain(EdgeDecoder(origin), old(buf) + chunk), room);
              State() == Drained(old(emitted) + pass.items, pass.status)
      ensures |Drain(EdgeDecoder(origin), old(buf) + chunk).items| <= room ==>
                State() == Feed(EdgeDecoder(origin), old(State()), chunk)
      ensures var items := Drain(EdgeDecoder(origin), old(buf) + chunk).items;
              |items| > room ==> emitted == old(emitted) + items[..room] && failure == Core.Some(ChannelClosed)
    {
      hide NextStep;
      EdgeDecoderIsLawful(origin);
      ghost var dec := EdgeDecoder(origin);
      buf := buf + chunk;
      ghost var whole := Drain(dec, buf);
      var sent: nat := 0;
      while buf != []
        invariant failure.None?
        invariant sent <= room && sent <= |whole.items|
        invariant emitted == old(emitted) + whole.items[..sent]
        invariant Drain(dec, buf) == Drained(whole.items[sent..], whole.status)
        decreases |buf|
      {
        assert Consumes(dec, buf);
        match NextStep(origin, buf) {
          case Wait =>
            assert whole.items[..sent] == whole.items;
            return;
          case Stop(e) =>
            assert whole.items[..sent] == whole.items;
            failure := Core.Some(e);
            return;
          case Emit(reading, rest) =>
            assert whole.items[sent] == reading;
            assert Drain(dec, rest).items == whole.items[sent..][1..];
            if sent == room {
              failure := Core.Some(ChannelClosed);
              return;
            }
            emitted := emitted + [reading];
            sent := sent + 1;
            buf := rest;
        }
      }
      assert whole.items[..sent] == whole.items;
    }
  }

  // ----- what a frame is taken for -----

  /** What the dispatcher does with a whole frame, whatever follows it: it stops with the preamble if
      that is not 0xE45A, whatever the frame carries, and whatever version it names is not looked at; it
      stops if the payload is not a packet; and otherwise it hands on the packet's sensor and metric
      under the connection's own identity, with full confidence. */
  lemma FrameVerdict(o: Origin, m: Msg, tail: Bytes)
    requires |m.payload| < 0x1_0000_0000_0000_0000
    ensures var step := NextStep(o, EncodeMsg(m) + tail);
            && (m.preamble != 0xE45A ==> step == Stop(InvalidPreamble(m.preamble)))
            && (m.preamble == 0xE45A ==>
                  match DecodePacket(m.payload)
                  case Err(e) => step == Stop(MalformedPayload(e))
                  case Ok(p, _) => step == Emit(EdgeReading(o, p.sensorId, ConvertMetric(p.metric), 100), tail))
  {
    hide DecodeMsg, EncodeMsg, DecodePacket;
    MsgRoundTrip(m, tail);
  }

  /** The error a frame ends its connection with, if it does. */
  function FrameError(m: Msg): Core.Option<ExitError> {
    if m.preamble != 0xE45A then Core.Some(InvalidPreamble(m.preamble))
    else
      match DecodePacket(m.payload)
      case Err(e) => Core.Some(MalformedPayload(e))
      case Ok(_, _) => Core.None
  }

  /** A bad frame after good ones, cut in any way and whatever follows it: the good readings are emitted,
      in order, the bad frame ends the connection with its error, and nothing after it is looked at. */
  lemma BadFrameEnds(o: Origin, ps: seq<ReadingPacket>, bad: Msg, more: Bytes, chunks: seq<Bytes>)
    requires |bad.payload| < 0x1_0000_0000_0000_0000 && FrameError(bad).Some?
    requires Flatten(chunks) == Stream(Frame, ps) + (EncodeMsg(bad) + more)
    ensures Lawful(EdgeDecoder(o))
    ensures FeedAll(EdgeDecoder(o), Start(), chunks)
         == Drained(Items(p => ReadingOf(o, p), ps), Exited(FrameError(bad).value))
  {
    hide NextStep, Frame, EncodeMsg, DecodePacket;
    EdgeDecoderIsLawful(o);
    var dec := EdgeDecoder(o);
    var good, rest := Stream(Frame, ps), EncodeMsg(bad) + more;
    EdgeRoundTrip(o, ps, [good]);
    ChunkIndependence(dec, [good], [good]);
    assert Flatten([good]) == good + Flatten([]) == good;
    DrainExtends(dec, good, rest);
    ChunkIndependence(dec, chunks, chunks);
    FrameVerdict(o, bad, more);
    assert [] + rest == rest && dec(rest) == Stop(FrameError(bad).value);
    var items := Items(p => ReadingOf(o, p), ps);
    assert items + [] == items;
  }

  // ----- what an honest device sends -----

  function Frame(p: ReadingPacket): Bytes {
    EncodeMsg(FrameOf(p))
  }

  lemma FrameReadsBack(o: Origin, p: ReadingPacket)
    ensures ReadsBack(EdgeDecoder(o), Frame, q => ReadingOf(o, q), p)
  {
    hide DecodeMsg, DecodePacket, EncodeMsg, EncodePacket;
    FrameFits(p);
    PacketRoundTrip(p, []);
    assert EncodePacket(p) + [] == EncodePacket(p);
    forall tail ensures EdgeDecoder(o)(Frame(p) + tail) == Emit(ReadingOf(o, p), tail) {
      MsgRoundTrip(FrameOf(p), tail);
    }
  }

  /** End to end: the bytes of any list of packets, cut into reads in any way, give exactly the
      list of sensor identifiers and converted metrics in order, and leave nothing buffered. */
  lemma EdgeRoundTrip(o: Origin, ps: seq<ReadingPacket>, chunks: seq<Bytes>)
    requires Flatten(chunks) == Stream(Frame, ps)
    ensures Lawful(EdgeDecoder(o))
    ensures FeedAll(EdgeDecoder(o), Start(), chunks) == Drained(Items(p => ReadingOf(o, p), ps), Open([]))
  {
    hide NextStep, Frame;
    EdgeDecoderIsLawful(o);
    forall p | p in ps ensures ReadsBack(EdgeDecoder(o), Frame, q => ReadingOf(o, q), p) {
      FrameReadsBack(o, p);
    }
    StreamRoundTrip(EdgeDecoder(o), Frame, p => ReadingOf(o, p), ps, chunks);
  }

  /** However far an honest device's bytes have come, and however they were cut, the dispatcher
      has emitted exactly the readings whose frames are complete, has not failed, and buffers at
      most 50 bytes. */
  lemma EdgePrefix(o: Origin, ps: seq<ReadingPacket>, chunks: seq<Bytes>) returns (done: nat, partial: Bytes)
    requires Flatten(chunks) <= Stream(Frame, ps)
    ensures Lawful(EdgeDecoder(o))
    ensures done <= |ps| && |partial| <= 50
    ensures Flatten(chunks) == Stream(Frame, ps[..done]) + partial
    ensures FeedAll(EdgeDecoder(o), Start(), chunks) == Drained(Items(p => ReadingOf(o, p), ps[..done]), Open(partial))
  {
    hide NextStep, Frame;
    EdgeDecoderIsLawful(o);
    forall p | p in ps ensures ReadsBack(EdgeDecoder(o), Frame, q => ReadingOf(o, q), p) {
      FrameReadsBack(o, p);
    }
    var k := |Flatten(chunks)|;
    done, partial := HonestPrefix(EdgeDecoder(o), Frame, p => ReadingOf(o, p), ps, k);
    ChunkIndependence(EdgeDecoder(o), chunks, chunks);
    assert Stream(Frame, ps)[..k] == Flatten(chunks);
    if done < |ps| {
      FrameLength(ps[done]);
    }
  }

  lemma FrameLength(p: ReadingPacket)
    ensures |Frame(p)| <= 51
  {
    FrameFits(p);
  }
}
