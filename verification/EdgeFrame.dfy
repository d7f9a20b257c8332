/**
 What an edge device puts on the wire: a ReadingPacket printed into the payload of a Msg
 frame, and the two decoders the dispatcher applies to it.
 */
module EdgeFrame {
  import opened Postcard

  const PACKET_PREAMBLE: U16 := 0xE45A
  const PROTOCOL_VERSION: Byte := 0x01
  const MAX_PACKET_SIZE := 128
  const PREAMBLE_SIZE := 2
  const PACKET_HEADER_SIZE := 6
  const MAX_PAYLOAD_SIZE := MAX_PACKET_SIZE - PREAMBLE_SIZE - PACKET_HEADER_SIZE

  /** A sensor value as the device encodes it; temperatures and rainfall are scaled by 100. */
  datatype SensorMetric =
    | SoilMoisture(percent: Byte)
    | SoilTemp(centi: I16)
    | AirTemp(centi: I16)
    | Humidity(percent: Byte)
    | Rainfall(centi100: U16)

  datatype ReadingPacket = ReadingPacket(deviceId: U128, sensorId: U128, readingId: U16, metric: SensorMetric)

  datatype MsgType = Reading

  datatype Msg = Msg(preamble: U16, version: Byte, msgType: MsgType, payload: Bytes)

  // ----- encoders -----

  function EncodeMetric(m: SensorMetric): Bytes {
    match m
    case SoilMoisture(v) => EncodeVarint(0) + [v]
    case SoilTemp(v) => EncodeVarint(1) + EncodeVarint(ZigZag(v))
    case AirTemp(v) => EncodeVarint(2) + EncodeVarint(ZigZag(v))
    case Humidity(v) => EncodeVarint(3) + [v]
    case Rainfall(v) => EncodeVarint(4) + EncodeVarint(v)
  }

  function EncodePacket(p: ReadingPacket): Bytes {
    EncodeVarint(p.deviceId) + (EncodeVarint(p.sensorId) + (EncodeVarint(p.readingId) + EncodeMetric(p.metric)))
  }

  function EncodeMsg(m: Msg): Bytes {
    EncodeVarint(m.preamble) + ([m.version] + (EncodeVarint(0) + EncodeBytes(m.payload)))
  }

  /** The frame `send_reading` builds around a packet. */
  function FrameOf(p: ReadingPacket): Msg {
    Msg(PACKET_PREAMBLE, PROTOCOL_VERSION, Reading, EncodePacket(p))
  }

  // ----- decoders -----

  function DecodeU16(b: Bytes): Decoded<U16> {
    WidthsAreExact();
    VarintFits(W16, b);
    var (n, rest) :- DecodeVarint(W16, b);
    Ok(n, rest)
  }

  function DecodeU128(b: Bytes): Decoded<U128> {
    WidthsAreExact();
    VarintFits(W128, b);
    var (n, rest) :- DecodeVarint(W128, b);
    Ok(n, rest)
  }

  function DecodeI16(b: Bytes): Decoded<I16> {
    var (n, rest) :- DecodeU16(b);
    Ok(UnZigZag(n), rest)
  }

  function DecodeMetric(b: Bytes): Decoded<SensorMetric> {
    var (variant, r) :- DecodeVariant(5, b);
    if variant == 0 then
      var (v, rest) :- DecodeByte(r);
      Ok(SoilMoisture(v), rest)
    else if variant == 1 then
      var (v, rest) :- DecodeI16(r);
      Ok(SoilTemp(v), rest)
    else if variant == 2 then
      var (v, rest) :- DecodeI16(r);
      Ok(AirTemp(v), rest)
    else if variant == 3 then
      var (v, rest) :- DecodeByte(r);
      Ok(Humidity(v), rest)
    else
      var (v, rest) :- DecodeU16(r);
      Ok(Rainfall(v), rest)
  }

  /** `from_bytes::<ReadingPacket>`; the caller ignores the bytes that are left over. */
  function DecodePacket(b: Bytes): Decoded<ReadingPacket> {
    var (deviceId, r1) :- DecodeU128(b);
    var (sensorId, r2) :- DecodeU128(r1);
    var (readingId, r3) :- DecodeU16(r2);
    var (metric, rest) :- DecodeMetric(r3);
    Ok(ReadingPacket(deviceId, sensorId, readingId, metric), rest)
  }

  /** `take_from_bytes::<Msg>`: neither the preamble nor the version is checked here. */
  function DecodeMsg(b: Bytes): Decoded<Msg> {
    var (preamble, r1) :- DecodeU16(b);
    var (version, r2) :- DecodeByte(r1);
    var (_, r3) :- DecodeVariant(1, r2);
    var (payload, rest) :- DecodeBytes(r3);
    Ok(Msg(preamble, version, Reading, payload), rest)
  }

  // ----- sizes -----

  /** A payload takes at most 45 bytes and a frame at most 51, so both fixed buffers of the
      sender are large enough and serialization cannot fail. */
  lemma FrameFits(p: ReadingPacket)
    ensures |EncodePacket(p)| <= 45 <= MAX_PAYLOAD_SIZE
    ensures |EncodeMsg(FrameOf(p))| == 6 + |EncodePacket(p)| <= 51 <= MAX_PACKET_SIZE
    ensures EncodeMsg(FrameOf(p))[..5] == [0xDA, 0xC8, 0x03, 0x01, 0x00]
  {
    WidthsAreExact();
    VarintRoundTrip(W128, p.deviceId, []);
    VarintRoundTrip(W128, p.sensorId, []);
    VarintRoundTrip(W16, p.readingId, []);
    match p.metric {
      case SoilMoisture(_) =>
      case SoilTemp(v) => VarintRoundTrip(W16, ZigZag(v), []);
      case AirTemp(v) => VarintRoundTrip(W16, ZigZag(v), []);
      case Humidity(_) =>
      case Rainfall(v) => VarintRoundTrip(W16, v, []);
    }
    assert EncodeVarint(PACKET_PREAMBLE) == [0xDA, 0xC8, 0x03];
  }

  lemma SmallVarint(n: nat)
    requires n < 128
    ensures EncodeVarint(n) == [n]
  {
  }

  lemma SampleVarints()
    ensures EncodeVarint(PACKET_PREAMBLE) == [0xDA, 0xC8, 0x03]
    ensures EncodeVarint(300) == [0xAC, 0x02]
    ensures EncodeVarint(ZigZag(2150)) == [0xCC, 0x21]
    ensures EncodeVarint(ZigZag(-1)) == [1]
  {
  }

  /** A frame around a payload below 128 bytes. */
  lemma SampleFrame(payload: Bytes)
    requires |payload| < 128
    ensures EncodeMsg(Msg(PACKET_PREAMBLE, PROTOCOL_VERSION, Reading, payload)) ==
            [0xDA, 0xC8, 0x03, 0x01, 0x00, |payload|] + payload
  {
    hide EncodeVarint;
    SampleVarints();
    SmallVarint(0);
    SmallVarint(|payload|);
  }

  /** Payloads byte by byte, one for each kind of metric. */
  lemma SamplePayloads()
    ensures EncodePacket(ReadingPacket(1, 2, 3, SoilMoisture(45))) == [1, 2, 3, 0, 45]
    ensures EncodePacket(ReadingPacket(1, 300, 3, SoilTemp(-1))) == [1, 0xAC, 0x02, 3, 1, 1]
    ensures EncodePacket(ReadingPacket(1, 2, 3, AirTemp(2150))) == [1, 2, 3, 2, 0xCC, 0x21]
    ensures EncodePacket(ReadingPacket(1, 2, 3, Humidity(200))) == [1, 2, 3, 3, 200]
    ensures EncodePacket(ReadingPacket(1, 2, 3, Rainfall(300))) == [1, 2, 3, 4, 0xAC, 0x02]
  {
    hide EncodeVarint, ZigZag;
    SampleVarints();
    SmallVarint(0);
    SmallVarint(1);
    SmallVarint(2);
    SmallVarint(3);
    SmallVarint(4);
  }

  // ----- round trips -----

  lemma U16RoundTrip(n: U16, tail: Bytes)
    ensures DecodeU16(EncodeVarint(n) + tail) == Ok(n, tail)
  {
    WidthsAreExact();
    VarintRoundTrip(W16, n, tail);
  }

  lemma VariantRoundTrip(count: nat, index: nat, tail: Bytes)
    requires index < count <= 128
    ensures DecodeVariant(count, EncodeVarint(index) + tail) == Ok(index, tail)
  {
    WidthsAreExact();
    VarintRoundTrip(W32, index, tail);
  }

  lemma TaggedByte(tag: nat, v: Byte, tail: Bytes)
    requires tag < 5
    ensures DecodeVariant(5, EncodeVarint(tag) + [v] + tail) == Ok(tag, [v] + tail)
    ensures DecodeByte([v] + tail) == Ok(v, tail)
  {
    VariantRoundTrip(5, tag, [v] + tail);
    assert EncodeVarint(tag) + [v] + tail == EncodeVarint(tag) + ([v] + tail);
    assert ([v] + tail)[1..] == tail;
  }

  lemma TaggedU16(tag: nat, v: U16, tail: Bytes)
    requires tag < 5
    ensures DecodeVariant(5, EncodeVarint(tag) + EncodeVarint(v) + tail) == Ok(tag, EncodeVarint(v) + tail)
    ensures DecodeU16(EncodeVarint(v) + tail) == Ok(v, tail)
  {
    VariantRoundTrip(5, tag, EncodeVarint(v) + tail);
    assert EncodeVarint(tag) + EncodeVarint(v) + tail == EncodeVarint(tag) + (EncodeVarint(v) + tail);
    U16RoundTrip(v, tail);
  }

  lemma MetricRoundTrip(m: SensorMetric, tail: Bytes)
    ensures DecodeMetric(EncodeMetric(m) + tail) == Ok(m, tail)
  {
    match m {
      case SoilMoisture(v) => TaggedByte(0, v, tail);
      case SoilTemp(v) => TaggedU16(1, ZigZag(v), tail); ZigZagBijective(v, 0);
      case AirTemp(v) => TaggedU16(2, ZigZag(v), tail); ZigZagBijective(v, 0);
      case Humidity(v) => TaggedByte(3, v, tail);
      case Rainfall(v) => TaggedU16(4, v, tail);
    }
  }

  lemma PacketRoundTrip(p: ReadingPacket, tail: Bytes)
    ensures DecodePacket(EncodePacket(p) + tail) == Ok(p, tail)
  {
    WidthsAreExact();
    var r3 := EncodeMetric(p.metric) + tail;
    var r2 := EncodeVarint(p.readingId) + r3;
    var r1 := EncodeVarint(p.sensorId) + r2;
    assert EncodePacket(p) + tail == EncodeVarint(p.deviceId) + r1;
    VarintRoundTrip(W128, p.deviceId, r1);
    VarintRoundTrip(W128, p.sensorId, r2);
    U16RoundTrip(p.readingId, r3);
    MetricRoundTrip(p.metric, tail);
  }

  lemma MsgRoundTrip(m: Msg, tail: Bytes)
    requires |m.payload| < 0x1_0000_0000_0000_0000
    ensures DecodeMsg(EncodeMsg(m) + tail) == Ok(m, tail)
  {
    var r3 := EncodeBytes(m.payload) + tail;
    var r2 := EncodeVarint(0) + r3;
    var r1 := [m.version] + r2;
    assert EncodeMsg(m) + tail == EncodeVarint(m.preamble) + r1;
    U16RoundTrip(m.preamble, r1);
    assert r1[1..] == r2;
    VariantRoundTrip(1, 0, r3);
    BytesRoundTrip(m.payload, tail);
    assert m.msgType.Reading?;
  }

  // ----- a frame seen through a stream that may be cut anywhere -----

  /** Whatever DecodeMsg says of a buffer, except that it needs more, stays true when bytes are appended. */
  lemma MsgStable(b: Bytes, more: Bytes)
    ensures DecodeMsg(b).ExtendsTo(DecodeMsg(b + more), more)
  {
    VarintStable(W16, b, more);
    var d1 := DecodeU16(b);
    if d1.Ok? {
      var r1 := d1.rest;
      if r1 != [] {
        assert (r1 + more)[1..] == r1[1..] + more;
        VarintStable(W32, r1[1..], more);
        var d3 := DecodeVariant(1, r1[1..]);
        if d3.Ok? {
          BytesStable(d3.rest, more);
        }
      }
    }
  }

  lemma MsgConsumes(b: Bytes)
    requires DecodeMsg(b).Ok?
    ensures |DecodeMsg(b).rest| + 4 <= |b|
  {
    VarintConsumes(W16, b);
    var r2 := DecodeU16(b).rest[1..];
    VarintConsumes(W32, r2);
    VarintConsumes(W64, DecodeVariant(1, r2).rest);
  }

  /** No strict prefix of a frame is a frame, or an error: the decoder waits. */
  lemma MsgTight(b: Bytes, k: nat)
    requires DecodeMsg(b).Ok?
    requires k < |b| - |DecodeMsg(b).rest|
    ensures DecodeMsg(b[..k]) == Err(UnexpectedEnd)
  {
    assert b == b[..k] + b[k..];
    MsgStable(b[..k], b[k..]);
  }

  /** No frame is a prefix of another, so a stream of frames has one reading. */
  lemma FramesArePrefixFree(a: Msg, b: Msg)
    requires |a.payload| < 0x1_0000_0000_0000_0000 && |b.payload| < 0x1_0000_0000_0000_0000
    ensures EncodeMsg(a) <= EncodeMsg(b) ==> a == b
  {
    if EncodeMsg(a) <= EncodeMsg(b) {
      var more := EncodeMsg(b)[|EncodeMsg(a)|..];
      assert EncodeMsg(b) == EncodeMsg(a) + more;
      MsgRoundTrip(a, more);
      MsgRoundTrip(b, []);
      assert EncodeMsg(b) + [] == EncodeMsg(b);
    }
  }
}
