/**
 The part of the Postcard 1.0 wire format that the edge link uses: varint encoded
 integers with a maximum encoded length per width, zigzag for signed integers, tagged
 unions and length-prefixed bytes.

 A decoder takes the bytes at hand and gives the value with the bytes that follow it, or
 an error.  One fact about every decoder here carries the whole receiver proof: a result
 other than UnexpectedEnd does not change when more bytes arrive.
 */
module Postcard {

  type Byte = x: int | 0 <= x < 256

  type Bytes = seq<Byte>

  type U16 = x: int | 0 <= x < 0x1_0000

  type I16 = x: int | -0x8000 <= x < 0x8000

  type U64 = x: int | 0 <= x < 0x1_0000_0000_0000_0000

  type U128 = x: int | 0 <= x < 0x1_0000_0000_0000_0000_0000_0000_0000_0000

  datatype DecodeError =
    | UnexpectedEnd          // the input stops inside the value
    | BadVarint              // too many bytes, or a last byte with bits beyond the width
    | BadVariant(index: nat) // no such enum variant

  datatype Decoded<+T> = Ok(value: T, rest: Bytes) | Err(error: DecodeError) {
    predicate IsFailure() {
      Err?
    }

    function PropagateFailure<U>(): Decoded<U>
      requires Err?
    {
      Err(error)
    }

    function Extract(): (T, Bytes)
      requires Ok?
    {
      (value, rest)
    }

    /** The same result on an input that goes on with `more`; UnexpectedEnd promises nothing. */
    ghost predicate ExtendsTo(longer: Decoded<T>, more: Bytes) {
      match this
      case Ok(v, r) => longer == Ok(v, r + more)
      case Err(e) => e == UnexpectedEnd || longer == this
    }
  }

  /** How many bytes a varint of some width may take, and the largest last byte of a full-length one. */
  datatype Width = Width(maxBytes: nat, lastMax: nat) {
    ghost predicate Valid() {
      0 < maxBytes && lastMax < 128
    }
  }

  const W16 := Width(3, 3)
  const W32 := Width(5, 15)
  const W64 := Width(10, 1)
  const W128 := Width(19, 3)

  // ----- varint -----

  function EncodeVarint(n: nat): (b: Bytes)
    ensures |b| >= 1
  {
    if n < 128 then [n] else [n % 128 + 128] + EncodeVarint(n / 128)
  }

  function DecodeVarint(w: Width, b: Bytes): Decoded<nat>
    decreases |b|
  {
    if w.maxBytes == 0 then Err(BadVarint)
    else if b == [] then Err(UnexpectedEnd)
    else if b[0] < 128 then
      if w.maxBytes == 1 && b[0] > w.lastMax then Err(BadVarint) else Ok(b[0], b[1..])
    else
      var (high, rest) :- DecodeVarint(Width(w.maxBytes - 1, w.lastMax), b[1..]);
      Ok(b[0] - 128 + 128 * high, rest)
  }

  function Pow128(k: nat): (p: nat)
    ensures p >= 1
  {
    if k == 0 then 1 else 128 * Pow128(k - 1)
  }

  /** The number of values a varint of this width can carry. */
  ghost function Capacity(w: Width): nat
    requires w.Valid()
  {
    (w.lastMax + 1) * Pow128(w.maxBytes - 1)
  }

  lemma CapacityStep(w: Width)
    requires w.Valid() && w.maxBytes > 1
    ensures Capacity(w) == 128 * Capacity(Width(w.maxBytes - 1, w.lastMax))
  {
    var p := Pow128(w.maxBytes - 2);
    assert Pow128(w.maxBytes - 1) == 128 * p;
    assert (w.lastMax + 1) * (128 * p) == 128 * ((w.lastMax + 1) * p);
  }

  /** The widths are exactly those of u16, u32, usize on a 64-bit host, and u128. */
  lemma WidthsAreExact()
    ensures Capacity(W16) == 0x1_0000
    ensures Capacity(W32) == 0x1_0000_0000
    ensures Capacity(W64) == 0x1_0000_0000_0000_0000
    ensures Capacity(W128) == 0x1_0000_0000_0000_0000_0000_0000_0000_0000
  {
    assert Pow128(2) == 0x4000;
    assert Pow128(4) == 0x1000_0000;
    assert Pow128(6) == 0x400_0000_0000;
    assert Pow128(9) == 0x8000_0000_0000_0000;
    assert Pow128(12) == 0x10_0000_0000_0000_0000_0000;
    assert Pow128(15) == 0x200_0000_0000_0000_0000_0000_0000;
    assert Pow128(18) == 0x4000_0000_0000_0000_0000_0000_0000_0000;
  }

  /** Every byte but the last says that another follows, and the last is not a wasted zero. */
  lemma {:induction false} VarintIsCanonical(n: nat)
    ensures var b := EncodeVarint(n);
            && (forall i :: 0 <= i < |b| - 1 ==> b[i] >= 128)
            && b[|b| - 1] < 128
            && (|b| > 1 ==> b[|b| - 1] > 0)
            && b[0] % 128 == n % 128
    decreases n
  {
    if n >= 128 {
      VarintIsCanonical(n / 128);
    }
  }

  lemma {:induction false} VarintRoundTrip(w: Width, n: nat, tail: Bytes)
    requires w.Valid() && n < Capacity(w)
    ensures |EncodeVarint(n)| <= w.maxBytes
    ensures DecodeVarint(w, EncodeVarint(n) + tail) == Ok(n, tail)
    decreases w.maxBytes
  {
    var b := EncodeVarint(n) + tail;
    assert w.maxBytes == 1 ==> Capacity(w) == w.lastMax + 1;
    if n < 128 {
      assert b[1..] == tail;
    } else {
      CapacityStep(w);
      var shorter := Width(w.maxBytes - 1, w.lastMax);
      VarintRoundTrip(shorter, n / 128, tail);
      assert b[1..] == EncodeVarint(n / 128) + tail;
    }
  }

  /** What a varint decodes to fits the width, so the source's shifts never lose a bit. */
  lemma {:induction false} VarintFits(w: Width, b: Bytes)
    requires w.Valid()
    ensures DecodeVarint(w, b).Ok? ==> DecodeVarint(w, b).value < Capacity(w)
    decreases w.maxBytes
  {
    if b != [] && w.maxBytes > 1 {
      CapacityStep(w);
      var shorter := Width(w.maxBytes - 1, w.lastMax);
      VarintFits(shorter, b[1..]);
      assert Capacity(shorter) >= 1 by {
        assert (w.lastMax + 1) * Pow128(w.maxBytes - 2) >= 1;
      }
    }
  }

  lemma {:induction false} VarintStable(w: Width, b: Bytes, more: Bytes)
    ensures DecodeVarint(w, b).ExtendsTo(DecodeVarint(w, b + more), more)
    decreases w.maxBytes
  {
    if w.maxBytes > 0 && b != [] {
      assert (b + more)[1..] == b[1..] + more;
      VarintStable(Width(w.maxBytes - 1, w.lastMax), b[1..], more);
    }
  }

  lemma {:induction false} VarintConsumes(w: Width, b: Bytes)
    requires DecodeVarint(w, b).Ok?
    ensures |DecodeVarint(w, b).rest| < |b|
    decreases |b|
  {
    if b[0] >= 128 {
      VarintConsumes(Width(w.maxBytes - 1, w.lastMax), b[1..]);
    }
  }

  // ----- zigzag -----

  function ZigZag(n: I16): (u: U16) {
    if n >= 0 then 2 * n else -2 * n - 1
  }

  function UnZigZag(u: U16): (n: I16) {
    if u % 2 == 0 then u / 2 else -(u / 2) - 1
  }

  /** Zigzag is a bijection between i16 and u16 that keeps small numbers small: numbers from zero up
      become the even ones, and numbers below zero the odd ones in between. */
  lemma ZigZagBijective(n: I16, u: U16)
    ensures UnZigZag(ZigZag(n)) == n
    ensures ZigZag(UnZigZag(u)) == u
    ensures ZigZag(n) % 2 == 0 <==> n >= 0
    ensures n >= 0 ==> ZigZag(n) <= 2 * n
    ensures n < 0 ==> ZigZag(n) + 2 * n < 0
  {
  }

  // ----- a plain byte, and length-prefixed bytes -----

  function DecodeByte(b: Bytes): Decoded<Byte> {
    if b == [] then Err(UnexpectedEnd) else Ok(b[0], b[1..])
  }

  function EncodeBytes(payload: Bytes): (b: Bytes)
    ensures |b| >= 1 + |payload|
  {
    EncodeVarint(|payload|) + payload
  }

  function DecodeBytes(b: Bytes): Decoded<Bytes> {
    var (n, rest) :- DecodeVarint(W64, b);
    if |rest| < n then Err(UnexpectedEnd) else Ok(rest[..n], rest[n..])
  }

  lemma BytesRoundTrip(payload: Bytes, tail: Bytes)
    requires |payload| < 0x1_0000_0000_0000_0000
    ensures DecodeBytes(EncodeBytes(payload) + tail) == Ok(payload, tail)
  {
    WidthsAreExact();
    VarintRoundTrip(W64, |payload|, payload + tail);
    assert EncodeBytes(payload) + tail == EncodeVarint(|payload|) + (payload + tail);
  }

  lemma BytesStable(b: Bytes, more: Bytes)
    ensures DecodeBytes(b).ExtendsTo(DecodeBytes(b + more), more)
  {
    VarintStable(W64, b, more);
    var d := DecodeVarint(W64, b);
    if d.Ok? && d.value <= |d.rest| {
      assert (d.rest + more)[..d.value] == d.rest[..d.value];
      assert (d.rest + more)[d.value..] == d.rest[d.value..] + more;
    }
  }

  // ----- tagged unions: the variant index is a varint of width u32 -----

  function DecodeVariant(count: nat, b: Bytes): Decoded<nat> {
    var (index, rest) :- DecodeVarint(W32, b);
    if index < count then Ok(index, rest) else Err(BadVariant(index))
  }
}
