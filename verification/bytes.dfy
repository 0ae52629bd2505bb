/** Octets, and the little-endian integers both wire codecs are built from. */
module Bytes {
  import opened Arithmetic

  type Byte = x: int | 0 <= x < 256
  type Bytes = seq<Byte>

  function Pow256(k: nat): (r: nat)
    ensures r > 0
  {
    if k == 0 then 1 else 256 * Pow256(k - 1)
  }

  /** The `k` low octets of `n`, least significant first. */
  function LittleEndian(n: nat, k: nat): (r: Bytes)
    ensures |r| == k
    decreases k
  {
    if k == 0 then [] else [n % 256] + LittleEndian(n / 256, k - 1)
  }

  function FromLittleEndian(s: Bytes): (n: nat)
    ensures n < Pow256(|s|)
  {
    if s == [] then 0 else s[0] + 256 * FromLittleEndian(s[1..])
  }

  /** Writing `k` octets and reading them back keeps the value modulo 256^k. */
  lemma {:induction false} LittleEndianRoundTrip(n: nat, k: nat)
    ensures FromLittleEndian(LittleEndian(n, k)) == n % Pow256(k)
    decreases k
  {
    if k > 0 {
      var s := LittleEndian(n, k);
      assert s[1..] == LittleEndian(n / 256, k - 1);
      LittleEndianRoundTrip(n / 256, k - 1);
      ModSplit(n, Pow256(k - 1));
    }
  }

  lemma ModSplit(n: nat, p: nat)
    requires p > 0
    ensures n % (256 * p) == n % 256 + 256 * ((n / 256) % p)
  {
    var q, r := n / 256, n % 256;
    var a, b := q / p, q % p;
    assert q == a * p + b;
    var low := r + 256 * b;
    assert n == a * (256 * p) + low by {
      assert 256 * q == 256 * (a * p) + 256 * b;
      assert 256 * (a * p) == a * (256 * p);
    }
    assert 0 <= low < 256 * p;
    ModUnique(n, 256 * p, a, low);
  }

  const TWO_31: int := 0x8000_0000
  const TWO_32: int := 0x1_0000_0000
  const TWO_63: int := 0x8000_0000_0000_0000
  const TWO_64: int := 0x1_0000_0000_0000_0000

  /** `v` read back as a signed 32-bit number. */
  function Wrap32(v: int): (r: int)
    ensures -TWO_31 <= r < TWO_31
    ensures -TWO_31 <= v < TWO_31 ==> r == v
  {
    var u := v % TWO_32;
    if u >= TWO_31 then u - TWO_32 else u
  }

  /** `v` read back as a signed 64-bit number. */
  function Wrap64(v: int): (r: int)
    ensures -TWO_63 <= r < TWO_63
    ensures -TWO_63 <= v < TWO_63 ==> r == v
  {
    var u := v % TWO_64;
    if u >= TWO_63 then u - TWO_64 else u
  }

  // `pushI32`: JavaScript's `>>>` and `&` work on the value modulo 2^32.
  function PushI32(v: int): (r: Bytes)
    ensures |r| == 4
  {
    LittleEndian(v % TWO_32, 4)
  }

  // `pushI64`: `setBigInt64` stores the value modulo 2^64.
  function PushI64(v: int): (r: Bytes)
    ensures |r| == 8
  {
    LittleEndian(v % TWO_64, 8)
  }

  // `DataView.getInt32(at, true)`; the caller checks the range.
  function GetI32(b: Bytes, at: nat): (r: int)
    requires at + 4 <= |b|
    ensures -TWO_31 <= r < TWO_31
  {
    Wrap32(FromLittleEndian(b[at..at + 4]))
  }

  function GetI64(b: Bytes, at: nat): (r: int)
    requires at + 8 <= |b|
    ensures -TWO_63 <= r < TWO_63
  {
    Wrap64(FromLittleEndian(b[at..at + 8]))
  }

  /** A pushed 32-bit field reads back as its two's-complement wrap. */
  lemma GetPushedI32(b: Bytes, at: nat, v: int)
    requires at + 4 <= |b| && b[at..at + 4] == PushI32(v)
    ensures GetI32(b, at) == Wrap32(v)
  {
    LittleEndianRoundTrip(v % TWO_32, 4);
    assert Pow256(4) == TWO_32;
    assert (v % TWO_32) % TWO_32 == v % TWO_32;
  }

  lemma GetPushedI64(b: Bytes, at: nat, v: int)
    requires at + 8 <= |b| && b[at..at + 8] == PushI64(v)
    ensures GetI64(b, at) == Wrap64(v)
  {
    LittleEndianRoundTrip(v % TWO_64, 8);
    assert Pow256(8) == TWO_64 by {
      assert Pow256(4) == TWO_32;
      assert Pow256(6) == TWO_32 * 65536;
    }
    assert (v % TWO_64) % TWO_64 == v % TWO_64;
  }

  /** The byte stream a socket delivers as these chunks. */
  function Flat(net: seq<Bytes>): (r: Bytes)
  {
    if net == [] then [] else net[0] + Flat(net[1..])
  }
}
