/**
 The handshake of an edge connection: the device greets and tells its location, the dispatcher
 answers with the identifier it drew.  The device's two greetings are single writes, which a
 socket may cut short; the readers on both sides loop until their buffer is full.
 */
module Handshake {
  import opened Postcard
  import opened BigEndian
  import opened Core
  import opened EdgeDevice

  const HELLO: Bytes := [0x48, 0x45, 0x4C, 0x4C, 0x4F]

  // ----- reading -----

  /** The incoming half of a connection: what the peer sends until it closes. */
  class Incoming {
    var stream: Bytes

    constructor (stream: Bytes)
      ensures this.stream == stream
    {
      this.stream := stream;
    }

    /** Takes some of what has come, at most as much as fits; nothing only at the end. */
    method Read(buf: array<Byte>, from: nat) returns (n: nat)
      requires from < buf.Length
      modifies this, buf
      ensures n == 0 <==> old(stream) == []
      ensures from + n <= buf.Length && n <= |old(stream)|
      ensures stream == old(stream)[n..]
      ensures buf[..] == old(buf[..])[..from] + old(stream)[..n] + old(buf[..])[from + n..]
    {
      n := 0;
      if stream != [] {
        n :| 0 < n <= |stream| && from + n <= buf.Length;
        forall i | 0 <= i < n {
          buf[from + i] := stream[i];
        }
        stream := stream[n..];
      }
    }

    /** Fills the buffer, or finds that the stream ends before it is full. */
    method ReadExact(buf: array<Byte>) returns (ok: bool)
      modifies this, buf
      ensures ok <==> |old(stream)| >= buf.Length
      ensures ok ==> buf[..] == old(stream)[..buf.Length] && stream == old(stream)[buf.Length..]
      ensures !ok ==> stream == []
    {
      var done := 0;
      while done < buf.Length
        invariant done <= buf.Length && done <= |old(stream)|
        invariant buf[..done] == old(stream)[..done]
        invariant stream == old(stream)[done..]
      {
        var n := Read(buf, done);
        if n == 0 {
          return false;
        }
        assert old(stream)[..done + n] == old(stream)[..done] + old(stream)[done..][..n];
        done := done + n;
      }
      assert buf[..done] == buf[..];
      return true;
    }
  }

  // ----- the dispatcher -----

  datatype Greeting =
    | Welcome(location: U64, rest: Bytes)
    | Mismatch(hello: Bytes)
    | Ended

  /** What the dispatcher makes of a stream that begins a connection. */
  function GreetingOf(stream: Bytes): Greeting {
    if |stream| < 5 then Ended
    else if stream[..5] != HELLO then Mismatch(stream[..5])
    else if |stream| < 13 then Ended
    else
      NumbersFit();
      BigEndianFits(stream[5..13]);
      Welcome(FromBigEndian(stream[5..13]), stream[13..])
  }

  method Greet(peer: Incoming) returns (g: Greeting)
    modifies peer
    ensures g == GreetingOf(old(peer.stream))
    ensures peer.stream == match g
                           case Welcome(_, rest) => rest
                           case Mismatch(_) => old(peer.stream)[5..]
                           case Ended => []
  {
    hide FromBigEndian;
    ghost var all := peer.stream;
    var hello := new Byte[5](_ => 0);
    var ok := peer.ReadExact(hello);
    if !ok {
      return Ended;
    }
    if hello[..] != HELLO {
      return Mismatch(hello[..]);
    }
    var location := new Byte[8](_ => 0);
    ok := peer.ReadExact(location);
    if !ok {
      return Ended;
    }
    assert location[..] == all[5..13] && peer.stream == all[13..];
    NumbersFit();
    BigEndianFits(location[..]);
    return Welcome(FromBigEndian(location[..]), peer.stream);
  }

  // ----- the device -----

  /** `provision`, on a connected socket: how many bytes each write took is not looked at. */
  method Provision(out: Socket, peer: Incoming, location: U64)
    returns (r: Option<U128>, ghost n1: nat, ghost n2: nat)
    requires out.Sound()
    modifies out, peer
    ensures out.Sound()
    ensures n1 <= 5 && n2 <= 8
    ensures out.sent == old(out.sent) + (HELLO[..n1] + ToBigEndian(location, 8)[..n2])
    ensures r.Some? <==> n1 > 0 && n2 > 0 && |old(peer.stream)| >= 16
    ensures r.Some? ==> r.value == FromBigEndian(old(peer.stream)[..16]) && peer.stream == old(peer.stream)[16..]
  {
    hide FromBigEndian, ToBigEndian;
    n1, n2 := 0, 0;
    var wrote := out.Write(HELLO);
    n1 := wrote;
    if wrote == 0 {
      assert HELLO[..0] + ToBigEndian(location, 8)[..0] == [];
      return None, 0, 0;
    }
    wrote := out.Write(ToBigEndian(location, 8));
    n2 := wrote;
    if wrote == 0 {
      return None, n1, 0;
    }
    var buf := new Byte[16](_ => 0);
    var ok := peer.ReadExact(buf);
    if !ok {
      return None, n1, n2;
    }
    NumbersFit();
    BigEndianFits(buf[..]);
    return Some(FromBigEndian(buf[..])), n1, n2;
  }

  /** The dispatcher welcomes what the two writes brought exactly when both took everything; then
      it learns the device's own location and leaves nothing unread, and otherwise it turns the
      device away or waits for bytes the device does not mean to send. */
  lemma WelcomeIffBothWritesWhole(location: U64, n1: nat, n2: nat)
    requires n1 <= 5 && n2 <= 8
    ensures GreetingOf(HELLO[..n1] + ToBigEndian(location, 8)[..n2]).Welcome? <==> n1 == 5 && n2 == 8
    ensures n1 == 5 && n2 == 8 ==>
              GreetingOf(HELLO[..n1] + ToBigEndian(location, 8)[..n2]) == Welcome(location, [])
  {
    hide ToBigEndian, FromBigEndian;
    var b := ToBigEndian(location, 8);
    var stream := HELLO[..n1] + b[..n2];
    if n1 == 5 && n2 == 8 {
      assert HELLO[..5] == HELLO && b[..8] == b;
      assert stream[..5] == HELLO && stream[5..13] == b && stream[13..] == [];
      NumbersFit();
      BigEndianRoundTrip(location, 8);
    }
  }

  /** A whole greeting is recognised whatever follows it, and what follows it is left for the
      decoder of readings. */
  lemma WholeGreetingIsRead(location: U64, readings: Bytes)
    ensures GreetingOf(HELLO + ToBigEndian(location, 8) + readings) == Welcome(location, readings)
  {
    hide ToBigEndian, FromBigEndian;
    var b := ToBigEndian(location, 8);
    var stream := HELLO + b + readings;
    assert stream[..5] == HELLO && stream[5..13] == b && stream[13..] == readings;
    NumbersFit();
    BigEndianRoundTrip(location, 8);
  }

  /** The identifier the device reads is the one the dispatcher drew. */
  lemma DeviceLearnsItsId(id: Id, rest: Bytes)
    ensures var stream := ToBigEndian(id, 16) + rest;
            FromBigEndian(stream[..16]) == id && stream[16..] == rest
  {
    hide ToBigEndian, FromBigEndian;
    var stream := ToBigEndian(id, 16) + rest;
    assert stream[..16] == ToBigEndian(id, 16) && stream[16..] == rest;
    NumbersFit();
    BigEndianRoundTrip(id, 16);
  }
}
