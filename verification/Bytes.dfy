/** Octets, fixed-width unsigned integers and their big-endian byte order. */
module Bytes {
  type Byte = x: int | 0 <= x < 256
  type ByteString = seq<Byte>

  const TWO31: int := 0x8000_0000
  const TWO32: int := 0x1_0000_0000
  const TWO63: int := 0x8000_0000_0000_0000
  const TWO64: int := 0x1_0000_0000_0000_0000

  type uint32 = x: nat | x < TWO32
  type uint64 = x: nat | x < TWO64
  type int32 = x: int | -TWO31 <= x < TWO31
  type int64 = x: int | -TWO63 <= x < TWO63

  /** The cast of a signed 64-bit number to an unsigned one. */
  function Unsigned(v: int64): uint64 {
    v % TWO64
  }

  datatype Option<+T> = None | Some(value: T)

  function Pow256(k: nat): (r: nat)
    ensures r > 0
  {
    if k == 0 then 1 else 256 * Pow256(k - 1)
  }

  lemma WordSizes()
    ensures Pow256(4) == TWO32 && Pow256(8) == TWO64
  {}

  /** The `k` low-order bytes of `v`, most significant first. */
  function BigEndian(v: nat, k: nat): (b: ByteString)
    ensures |b| == k
  {
    if k == 0 then [] else BigEndian(v / 256, k - 1) + [v % 256]
  }

  function FromBigEndian(b: ByteString): (v: nat)
    ensures v < Pow256(|b|)
  {
    if b == [] then 0 else FromBigEndian(b[..|b| - 1]) * 256 + b[|b| - 1]
  }

  lemma {:induction false} BigEndianRead(v: nat, k: nat)
    requires v < Pow256(k)
    ensures FromBigEndian(BigEndian(v, k)) == v
  {
    if k > 0 {
      var b := BigEndian(v, k);
      assert b[..|b| - 1] == BigEndian(v / 256, k - 1);
      BigEndianRead(v / 256, k - 1);
    }
  }

  lemma {:induction false} BigEndianWrite(b: ByteString)
    ensures BigEndian(FromBigEndian(b), |b|) == b
  {
    if b != [] {
      BigEndianWrite(b[..|b| - 1]);
      assert FromBigEndian(b) / 256 == FromBigEndian(b[..|b| - 1]);
      assert b == b[..|b| - 1] + [b[|b| - 1]];
    }
  }

  lemma AtLeastOnce(d: nat, n: nat)
    requires n > 0
    ensures d * n >= d
  {}

  lemma DivisionIsUnique(v: nat, d: nat, q: nat, r: nat)
    requires v == d * q + r && r < d
    ensures v / d == q
  {
    var t := v / d;
    assert d * (t - q) == r - v % d;
    if t > q {
      AtLeastOnce(d, t - q);
    } else if t < q {
      AtLeastOnce(d, q - t);
    }
  }

  lemma Remainders(v: nat, c: nat, high: nat, d: nat, q: nat, r: nat)
    requires c > 0 && d > 0 && high == d * q + r && r < d && high == v / c
    ensures v == (c * d) * q + (c * r + v % c) && c * r + v % c < c * d
  {
    assert v == c * high + v % c;
    assert c * high == c * (d * q) + c * r == (c * d) * q + c * r;
    AtLeastOnce(c, d - r);
    assert c * (d - r) == c * d - c * r;
  }

  lemma DivideTwice(v: nat, c: nat, d: nat)
    requires c > 0 && d > 0
    ensures c * d > 0 && v / c / d == v / (c * d)
  {
    var high := v / c;
    var q, r := high / d, high % d;
    Remainders(v, c, high, d, q, r);
    DivisionIsUnique(v, c * d, q, c * r + v % c);
  }

  /** The place of each byte: the first one counts most. */
  lemma {:induction false} BigEndianPlace(v: nat, k: nat, i: nat)
    requires i < k
    ensures BigEndian(v, k)[i] == v / Pow256(k - 1 - i) % 256
  {
    if i < k - 1 {
      BigEndianPlace(v / 256, k - 1, i);
      DivideTwice(v, 256, Pow256(k - 2 - i));
    }
  }

  lemma Distribute(x: nat, p: nat, y: nat)
    ensures (x * p + y) * 256 == x * (256 * p) + y * 256
  {}

  /** Reading from the left: what was read so far counts 256 times more with every further byte. */
  lemma {:induction false} FromBigEndianAppend(a: ByteString, b: ByteString)
    ensures FromBigEndian(a + b) == FromBigEndian(a) * Pow256(|b|) + FromBigEndian(b)
    decreases |b|
  {
    if b == [] {
      assert a + b == a;
    } else {
      var k, init, last := |b| - 1, b[..|b| - 1], b[|b| - 1];
      assert (a + b)[..|a + b| - 1] == a + init;
      FromBigEndianAppend(a, init);
      assert FromBigEndian(a + b) == FromBigEndian(a + init) * 256 + last;
      Distribute(FromBigEndian(a), Pow256(k), FromBigEndian(init));
    }
  }

  lemma Regroup(a: ByteString, b: ByteString, c: ByteString)
    ensures a + b + c == a + (b + c)
  {}

  lemma TakeDrop(a: ByteString, b: ByteString)
    ensures (a + b)[..|a|] == a && (a + b)[|a|..] == b
  {}
}
