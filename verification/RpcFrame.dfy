/**
 Length-prefixed frames on an RPC connection.  The encoding of an envelope is taken as given:
 `enc` prints it and `dec` reads exactly what `enc` printed.
 */
module RpcFrame {
  import opened Core
  import opened Postcard
  import opened BigEndian
  import opened Incremental

  const MAX_FRAME_BYTES := 2_000_000
  const U32_RANGE := 0x1_0000_0000

  datatype FrameError = BadEnvelope | FrameTooLarge

  type U32 = n: int | 0 <= n < 0x1_0000_0000

  function EncodeU32(n: U32): (b: Bytes)
    ensures |b| == 4
  {
    ToBigEndian(n, 4)
  }

  function DecodeU32(b: Bytes): (n: U32)
    requires |b| >= 4
  {
    NumbersFit();
    BigEndianFits(b[..4]);
    FromBigEndian(b[..4])
  }

  lemma U32RoundTrip(n: U32, tail: Bytes)
    ensures DecodeU32(EncodeU32(n) + tail) == n
  {
    hide ToBigEndian, FromBigEndian;
    assert (EncodeU32(n) + tail)[..4] == EncodeU32(n);
    NumbersFit();
    BigEndianRoundTrip(n, 4);
  }

  /** `bytes.len() as u32`: the length is cut to 32 bits before it is checked. */
  function LengthField(body: Bytes): U32 {
    |body| % U32_RANGE
  }

  predicate Writable(body: Bytes) {
    LengthField(body) <= MAX_FRAME_BYTES
  }

  function FrameBytes(body: Bytes): Bytes {
    EncodeU32(LengthField(body)) + body
  }

  class Writer {
    var sent: Bytes

    constructor ()
      ensures sent == []
    {
      sent := [];
    }

    /** A message that is too large is refused before any byte of it is written. */
    method WriteFrame<E>(enc: E -> Bytes, msg: E) returns (ok: bool)
      modifies this
      ensures ok == Writable(enc(msg))
      ensures ok <==> |enc(msg)| % 0x1_0000_0000 <= 2_000_000
      ensures sent == old(sent) + if ok then FrameBytes(enc(msg)) else []
    {
      var bytes := enc(msg);
      var len := |bytes| % U32_RANGE;
      if len > MAX_FRAME_BYTES {
        return false;
      }
      sent := sent + EncodeU32(len);
      sent := sent + bytes;
      return true;
    }

    /** The writer task over the messages queued for it: it ends at the first one that is refused. */
    method WriteQueued<E>(enc: E -> Bytes, msgs: seq<E>)
      modifies this
      ensures sent == old(sent) + Stream(m => FrameBytes(enc(m)), Taken(enc, msgs))
    {
      hide FrameBytes, Writable, Taken, Stream;
      var i := 0;
      ghost var frame := (m: E) => FrameBytes(enc(m));
      NothingStreamed(frame);
      assert msgs[0..] == msgs;
      while i < |msgs|
        invariant i <= |msgs|
        invariant sent == old(sent) + Stream(frame, msgs[..i])
        invariant Taken(enc, msgs) == msgs[..i] + Taken(enc, msgs[i..])
      {
        TakenNext(enc, msgs, i);
        var ok := WriteFrame(enc, msgs[i]);
        if !ok {
          assert sent == old(sent) + Stream(frame, msgs[..i]);
          return;
        }
        StreamNext(old(sent), frame, msgs, i);
        i := i + 1;
      }
      assert Taken(enc, msgs[i..]) == [];
      assert Taken(enc, msgs) == msgs[..i];
    }
  }

  /** The messages that come before the first one that is refused. */
  function Taken<E>(enc: E -> Bytes, msgs: seq<E>): (r: seq<E>)
    ensures r <= msgs
    ensures forall m <- r :: Writable(enc(m))
    ensures |r| < |msgs| ==> !Writable(enc(msgs[|r|]))
  {
    if msgs == [] || !Writable(enc(msgs[0])) then [] else [msgs[0]] + Taken(enc, msgs[1..])
  }

  lemma TakenNext<E>(enc: E -> Bytes, msgs: seq<E>, i: nat)
    requires i < |msgs| && Taken(enc, msgs) == msgs[..i] + Taken(enc, msgs[i..])
    ensures Taken(enc, msgs) == if Writable(enc(msgs[i])) then msgs[..i + 1] + Taken(enc, msgs[i + 1..]) else msgs[..i]
  {
    hide Writable;
    assert msgs[i..][1..] == msgs[i + 1..];
  }

  lemma NothingStreamed<P>(enc: P -> Bytes)
    ensures Stream(enc, []) == []
  {
  }

  lemma StreamNext<P>(before: Bytes, enc: P -> Bytes, ps: seq<P>, i: nat)
    requires i < |ps|
    ensures (before + Stream(enc, ps[..i])) + enc(ps[i]) == before + Stream(enc, ps[..i + 1])
  {
    StreamAppend(enc, ps[..i], [ps[i]]);
    assert ps[..i + 1] == ps[..i] + [ps[i]];
    assert Stream(enc, [ps[i]]) == enc(ps[i]) + Stream(enc, [ps[i]][1..]) == enc(ps[i]);
  }

  // ----- the reader -----

  lemma SampleLength()
    ensures EncodeU32(0x01020304) == [1, 2, 3, 4]
  {
    SampleNumber();
  }

  /** A frame whose length field says more than 2 MB is refused before its body has come. */
  lemma TooLargeIsNotRead<E>(dec: Bytes -> Option<E>, n: U32, more: Bytes)
    ensures ReadFrame(dec, EncodeU32(n) + more) == Stop(FrameTooLarge) <==> n > 2_000_000
  {
    U32RoundTrip(n, more);
  }

  function ReadFrame<E>(dec: Bytes -> Option<E>, buf: Bytes): Step<E, FrameError> {
    if |buf| < 4 then Wait
    else
      var len := DecodeU32(buf);
      if len > MAX_FRAME_BYTES then Stop(FrameTooLarge)
      else if |buf| < 4 + len then Wait
      else
        match dec(buf[4..4 + len])
        case None => Stop(BadEnvelope)
        case Some(msg) => Emit(msg, buf[4 + len..])
  }

  function FrameDecoder<E>(dec: Bytes -> Option<E>): Decoder<E, FrameError> {
    (buf: Bytes) => ReadFrame(dec, buf)
  }

  lemma FrameDecoderIsLawful<E>(dec: Bytes -> Option<E>)
    ensures Lawful(FrameDecoder(dec))
  {
    var d := FrameDecoder(dec);
    forall b ensures Consumes(d, b) {
    }
    forall a, b ensures StableAt(d, a, b) {
      if |a| >= 4 {
        var len := DecodeU32(a);
        assert (a + b)[..4] == a[..4];
        assert DecodeU32(a + b) == len;
        if len <= MAX_FRAME_BYTES && 4 + len <= |a| {
          assert (a + b)[4..4 + len] == a[4..4 + len];
          assert (a + b)[4 + len..] == a[4 + len..] + b;
        }
      }
    }
  }

  /** A frame that was written is read back, whatever follows it, exactly when its encoded length
      is below 2^32: beyond that the length field no longer says how long the frame is. */
  lemma ReadsBackIffLengthFits<E>(enc: E -> Bytes, dec: Bytes -> Option<E>, m: E)
    requires dec(enc(m)) == Some(m)
    requires Writable(enc(m))
    ensures ReadsBack(FrameDecoder(dec), x => FrameBytes(enc(x)), x => x, m) <==> |enc(m)| < U32_RANGE
  {
    var body := enc(m);
    var len := LengthField(body);
    forall tail
      ensures |body| < U32_RANGE ==> FrameDecoder(dec)(FrameBytes(body) + tail) == Emit(m, tail)
      ensures |body| >= U32_RANGE ==> FrameDecoder(dec)(FrameBytes(body) + tail) != Emit(m, tail)
    {
      var b := FrameBytes(body) + tail;
      assert b == EncodeU32(len) + (body + tail);
      U32RoundTrip(len, body + tail);
      if |body| < U32_RANGE {
        assert b[4..4 + len] == body;
        assert b[4 + len..] == tail;
      } else {
        assert |b[4 + len..]| > |tail|;
      }
    }
    if |body| >= U32_RANGE {
      var d, f, item := FrameDecoder(dec), (x: E) => FrameBytes(enc(x)), (x: E) => x;
      assert d(f(m) + []) != Emit(item(m), []);
    }
  }

  /** Just over the range of the length field: four gigabytes of zeros. */
  function LongBody(): (b: Bytes)
    ensures |b| == U32_RANGE
  {
    seq(U32_RANGE, _ => 0)
  }

  /** Such a message exists: its length field says 0, it is written whole, and it does not read back. */
  lemma LongMessageIsMisread()
    ensures Writable(LongBody())
    ensures !ReadsBack(FrameDecoder((b: Bytes) => Some(b)), (b: Bytes) => FrameBytes(b), (b: Bytes) => b, LongBody())
  {
    hide LongBody, FrameDecoder;
    var enc, dec := (b: Bytes) => b, (b: Bytes) => Some(b);
    ReadsBackIffLengthFits(enc, dec, LongBody());
    var frame, frame2 := (b: Bytes) => FrameBytes(b), (b: Bytes) => FrameBytes(enc(b));
    assert forall b :: frame(b) == frame2(b);
  }

  /** A connection carries exactly the messages queued before the first one that is too large, in
      order, however the bytes are cut on the way; the reader accepts every length that was written. */
  lemma ConnectionRoundTrip<E>(enc: E -> Bytes, dec: Bytes -> Option<E>, msgs: seq<E>, chunks: seq<Bytes>)
    requires forall m <- msgs :: dec(enc(m)) == Some(m) && |enc(m)| < U32_RANGE
    requires Flatten(chunks) == Stream(m => FrameBytes(enc(m)), Taken(enc, msgs))
    ensures Lawful(FrameDecoder(dec))
    ensures FeedAll(FrameDecoder(dec), Start(), chunks) == Drained(Taken(enc, msgs), Open([]))
  {
    FrameDecoderIsLawful(dec);
    var taken := Taken(enc, msgs);
    forall m | m in taken ensures ReadsBack(FrameDecoder(dec), x => FrameBytes(enc(x)), x => x, m) {
      assert m in msgs;
      ReadsBackIffLengthFits(enc, dec, m);
    }
    StreamRoundTrip(FrameDecoder(dec), m => FrameBytes(enc(m)), x => x, taken, chunks);
    assert Items(x => x, taken) == taken;
  }
}
