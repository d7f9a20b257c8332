/**
 Reading items off a byte stream that arrives in pieces of any size.

 A decoder looks at the bytes buffered so far and waits, stops for good, or emits an item
 and says what is left.  Drain is one pass of the decode loop over a buffer, Feed is one
 read, FeedAll a whole connection.  The theorems hold for every decoder whose verdicts are
 not changed by bytes that have yet to arrive.
 */
module Incremental {
  import opened Postcard

  datatype Step<+T, +E> =
    | Wait
    | Stop(error: E)
    | Emit(item: T, rest: Bytes)

  type Decoder<!T, !E> = Bytes -> Step<T, E>

  datatype Status<+E> = Open(buf: Bytes) | Exited(error: E)

  datatype Drained<+T, +E> = Drained(items: seq<T>, status: Status<E>)

  ghost predicate Consumes<T, E>(dec: Decoder<T, E>, b: Bytes) {
    dec(b).Emit? ==> |dec(b).rest| < |b|
  }

  ghost predicate StableAt<T, E>(dec: Decoder<T, E>, a: Bytes, b: Bytes) {
    match dec(a)
    case Wait => true
    case Stop(_) => dec(a + b) == dec(a)
    case Emit(x, rest) => dec(a + b) == Emit(x, rest + b)
  }

  /** A decoder that makes progress, and whose verdicts do not depend on what comes later. */
  ghost predicate Lawful<T, E>(dec: Decoder<T, E>) {
    && (forall b :: Consumes(dec, b))
    && (forall a, b :: StableAt(dec, a, b))
    && dec([]).Wait?
  }

  ghost function Drain<T, E>(dec: Decoder<T, E>, buf: Bytes): Drained<T, E>
    requires Lawful(dec)
    decreases |buf|
  {
    assert Consumes(dec, buf);
    match dec(buf)
    case Wait => Drained([], Open(buf))
    case Stop(e) => Drained([], Exited(e))
    case Emit(x, rest) =>
      var tail := Drain(dec, rest);
      Drained([x] + tail.items, tail.status)
  }

  /** One read of a connection that has reached d. */
  ghost function Feed<T, E>(dec: Decoder<T, E>, d: Drained<T, E>, chunk: Bytes): Drained<T, E>
    requires Lawful(dec)
  {
    match d.status
    case Exited(_) => d
    case Open(buf) =>
      var next := Drain(dec, buf + chunk);
      Drained(d.items + next.items, next.status)
  }

  ghost function FeedAll<T, E>(dec: Decoder<T, E>, d: Drained<T, E>, chunks: seq<Bytes>): Drained<T, E>
    requires Lawful(dec)
    decreases |chunks|
  {
    if chunks == [] then d else FeedAll(dec, Feed(dec, d, chunks[0]), chunks[1..])
  }

  ghost function Start<T, E>(): Drained<T, E> {
    Drained([], Open([]))
  }

  function Flatten(chunks: seq<Bytes>): Bytes {
    if chunks == [] then [] else chunks[0] + Flatten(chunks[1..])
  }

  // ----- independence of chunking -----

  /** What a pass made of a buffer is the start of what it makes of any longer one. */
  lemma {:induction false} DrainExtends<T, E>(dec: Decoder<T, E>, a: Bytes, b: Bytes)
    requires Lawful(dec)
    ensures Drain(dec, a + b) == Feed(dec, Drain(dec, a), b)
    decreases |a|
  {
    assert StableAt(dec, a, b) && Consumes(dec, a);
    match dec(a) {
      case Wait =>
      case Stop(_) =>
      case Emit(x, rest) =>
        DrainExtends(dec, rest, b);
        var d := Drain(dec, rest);
        if d.status.Open? {
          var next := Drain(dec, d.status.buf + b).items;
          assert [x] + (d.items + next) == ([x] + d.items) + next;
        }
    }
  }

  /** A connection's outcome is a function of its bytes alone. */
  lemma {:induction false} FeedAllIsOnePass<T, E>(dec: Decoder<T, E>, a: Bytes, chunks: seq<Bytes>)
    requires Lawful(dec)
    ensures FeedAll(dec, Drain(dec, a), chunks) == Drain(dec, a + Flatten(chunks))
    decreases |chunks|
  {
    if chunks == [] {
      assert a + [] == a;
    } else {
      DrainExtends(dec, a, chunks[0]);
      FeedAllIsOnePass(dec, a + chunks[0], chunks[1..]);
      assert a + chunks[0] + Flatten(chunks[1..]) == a + Flatten(chunks);
    }
  }

  /** A byte stream, honest or not, gives the same items in the same order, and ends with the
      same error or the same leftover bytes, however it is cut into reads. */
  lemma ChunkIndependence<T, E>(dec: Decoder<T, E>, one: seq<Bytes>, other: seq<Bytes>)
    requires Lawful(dec)
    requires Flatten(one) == Flatten(other)
    ensures FeedAll(dec, Start(), one) == FeedAll(dec, Start(), other) == Drain(dec, Flatten(one))
  {
    FeedAllIsOnePass(dec, [], one);
    FeedAllIsOnePass(dec, [], other);
    assert [] + Flatten(one) == Flatten(one);
  }

  /** What stays in the buffer between reads is a suffix of the input that holds nothing to emit yet. */
  lemma {:induction false} LeftoverWaits<T, E>(dec: Decoder<T, E>, buf: Bytes)
    requires Lawful(dec)
    ensures var d := Drain(dec, buf);
            d.status.Open? ==> Drain(dec, d.status.buf) == Drained([], d.status)
    decreases |buf|
  {
    assert Consumes(dec, buf);
    if dec(buf).Emit? {
      LeftoverWaits(dec, dec(buf).rest);
    }
  }

  // ----- senders that print items one after another -----

  /** What `enc` prints for p is read back as `item(p)`, whatever follows it. */
  ghost predicate ReadsBack<P, T, E>(dec: Decoder<T, E>, enc: P -> Bytes, item: P -> T, p: P) {
    forall tail :: dec(enc(p) + tail) == Emit(item(p), tail)
  }

  function Stream<P>(enc: P -> Bytes, ps: seq<P>): Bytes {
    if ps == [] then [] else enc(ps[0]) + Stream(enc, ps[1..])
  }

  lemma {:induction false} StreamAppend<P>(enc: P -> Bytes, ps: seq<P>, qs: seq<P>)
    ensures Stream(enc, ps + qs) == Stream(enc, ps) + Stream(enc, qs)
    decreases |ps|
  {
    if ps == [] {
      assert ps + qs == qs;
    } else {
      assert (ps + qs)[1..] == ps[1..] + qs;
      StreamAppend(enc, ps[1..], qs);
    }
  }

  function Items<P, T>(item: P -> T, ps: seq<P>): (xs: seq<T>)
    ensures |xs| == |ps|
    ensures forall i :: 0 <= i < |ps| ==> xs[i] == item(ps[i])
  {
    seq(|ps|, i requires 0 <= i < |ps| => item(ps[i]))
  }

  /** A strict prefix of a printed item is never taken for an item, nor for an error. */
  lemma UnfinishedWaits<P, T, E>(dec: Decoder<T, E>, enc: P -> Bytes, item: P -> T, p: P, k: nat)
    requires Lawful(dec) && ReadsBack(dec, enc, item, p)
    requires k < |enc(p)|
    ensures dec(enc(p)[..k]) == Wait
  {
    var short, more := enc(p)[..k], enc(p)[k..];
    assert short + more == enc(p) == enc(p) + [];
    assert dec(enc(p) + []) == Emit(item(p), []);
    assert StableAt(dec, short, more);
  }

  /** However far the bytes of an honest sender have come, exactly the completed items have been
      emitted, in order, and the buffer holds less than one item. */
  lemma {:induction false} HonestPrefix<P, T, E>(dec: Decoder<T, E>, enc: P -> Bytes, item: P -> T, ps: seq<P>, k: nat)
    returns (done: nat, partial: Bytes)
    requires Lawful(dec) && forall p <- ps :: ReadsBack(dec, enc, item, p)
    requires k <= |Stream(enc, ps)|
    ensures done <= |ps|
    ensures Stream(enc, ps)[..k] == Stream(enc, ps[..done]) + partial
    ensures Drain(dec, Stream(enc, ps)[..k]) == Drained(Items(item, ps[..done]), Open(partial))
    ensures done == |ps| ==> partial == []
    ensures done < |ps| ==> |partial| < |enc(ps[done])|
    decreases |ps|
  {
    var stream := Stream(enc, ps);
    if ps == [] {
      return 0, [];
    }
    var first, later := enc(ps[0]), Stream(enc, ps[1..]);
    if k < |first| {
      UnfinishedWaits(dec, enc, item, ps[0], k);
      assert stream[..k] == first[..k];
      return 0, first[..k];
    }
    done, partial := HonestPrefix(dec, enc, item, ps[1..], k - |first|);
    var tail := later[..k - |first|];
    assert stream[..k] == first + tail;
    assert ReadsBack(dec, enc, item, ps[0]);
    assert dec(first + tail) == Emit(item(ps[0]), tail);
    assert ps[..done + 1][1..] == ps[1..][..done];
    assert Items(item, ps[..done + 1]) == [item(ps[0])] + Items(item, ps[1..][..done]);
    assert first + (Stream(enc, ps[1..][..done]) + partial) == (first + Stream(enc, ps[1..][..done])) + partial;
    done := done + 1;
  }

  /** The bytes of any list of items, cut into reads in any way, give exactly that list and leave nothing. */
  lemma {:induction false} StreamRoundTrip<P, T, E>(dec: Decoder<T, E>, enc: P -> Bytes, item: P -> T, ps: seq<P>,
                                                    chunks: seq<Bytes>)
    requires Lawful(dec) && forall p <- ps :: ReadsBack(dec, enc, item, p)
    requires Flatten(chunks) == Stream(enc, ps)
    ensures FeedAll(dec, Start(), chunks) == Drained(Items(item, ps), Open([]))
  {
    ChunkIndependence(dec, chunks, chunks);
    WholeStream(dec, enc, item, ps);
  }

  lemma {:induction false} WholeStream<P, T, E>(dec: Decoder<T, E>, enc: P -> Bytes, item: P -> T, ps: seq<P>)
    requires Lawful(dec) && forall p <- ps :: ReadsBack(dec, enc, item, p)
    ensures Drain(dec, Stream(enc, ps)) == Drained(Items(item, ps), Open([]))
    decreases |ps|
  {
    if ps != [] {
      WholeStream(dec, enc, item, ps[1..]);
      var tail := Stream(enc, ps[1..]);
      assert ReadsBack(dec, enc, item, ps[0]);
      assert dec(enc(ps[0]) + tail) == Emit(item(ps[0]), tail);
      assert Items(item, ps) == [item(ps[0])] + Items(item, ps[1..]);
    }
  }
}
