/** Numbers as bytes, most significant first. */
module BigEndian {
  import opened Postcard

  function Pow256(k: nat): (p: nat)
    ensures p >= 1
  {
    if k == 0 then 1 else 256 * Pow256(k - 1)
  }

  function ToBigEndian(n: nat, k: nat): (b: Bytes)
    ensures |b| == k
  {
    if k == 0 then [] else ToBigEndian(n / 256, k - 1) + [n % 256]
  }

  function FromBigEndian(b: Bytes): (n: nat) {
    if b == [] then 0 else 256 * FromBigEndian(b[..|b| - 1]) + b[|b| - 1]
  }

  lemma {:induction false} BigEndianFits(b: Bytes)
    ensures FromBigEndian(b) < Pow256(|b|)
    decreases |b|
  {
    if b != [] {
      BigEndianFits(b[..|b| - 1]);
    }
  }

  lemma {:induction false} BigEndianRoundTrip(n: nat, k: nat)
    requires n < Pow256(k)
    ensures FromBigEndian(ToBigEndian(n, k)) == n
    decreases k
  {
    if k > 0 {
      BigEndianRoundTrip(n / 256, k - 1);
      assert ToBigEndian(n, k)[..k - 1] == ToBigEndian(n / 256, k - 1);
    }
  }

  /** The first byte is the most significant one. */
  lemma SampleNumber()
    ensures ToBigEndian(0x01020304, 4) == [1, 2, 3, 4]
    ensures ToBigEndian(0x0102030405060708, 8) == [1, 2, 3, 4, 5, 6, 7, 8]
  {
    assert ToBigEndian(0x0102, 2) == [1, 2];
    assert ToBigEndian(0x01020304, 4) == [1, 2, 3, 4];
    assert ToBigEndian(0x010203040506, 6) == [1, 2, 3, 4, 5, 6];
  }

  lemma NumbersFit()
    ensures Pow256(4) == 0x1_0000_0000
    ensures Pow256(8) == 0x1_0000_0000_0000_0000
    ensures Pow256(16) == 0x1_0000_0000_0000_0000_0000_0000_0000_0000
  {
    assert Pow256(12) == 0x1_0000_0000_0000_0000_0000_0000;
  }
}
