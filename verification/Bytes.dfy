/** Bytes and little-endian words. */
module Bytes {
  type Byte = b: int | 0 <= b < 256

  type U16 = n: int | 0 <= n < 0x1_0000

  type U32 = n: int | 0 <= n < 0x1_0000_0000

  const USIZE_MAX: nat := 0xFFFF_FFFF_FFFF_FFFF

  function ToLe16(n: U16): (r: seq<Byte>)
    ensures |r| == 2
  {
    [n % 0x100, n / 0x100]
  }

  function FromLe16(b: seq<Byte>): (r: U16)
    requires |b| == 2
  {
    var lo: int, hi: int := b[0], b[1];
    lo + 0x100 * hi
  }

  function ToLe32(n: U32): (r: seq<Byte>)
    ensures |r| == 4
  {
    [n % 0x100, n / 0x100 % 0x100, n / 0x1_0000 % 0x100, n / 0x100_0000]
  }

  function FromLe32(b: seq<Byte>): (r: U32)
    requires |b| == 4
  {
    var b0: int, b1: int, b2: int, b3: int := b[0], b[1], b[2], b[3];
    b0 + 0x100 * b1 + 0x1_0000 * b2 + 0x100_0000 * b3
  }

  lemma Le16RoundTrip(n: U16)
    ensures FromLe16(ToLe16(n)) == n
  {
  }

  lemma Le32RoundTrip(n: U32)
    ensures FromLe32(ToLe32(n)) == n
  {
    assert n / 0x1_0000 == n / 0x100 / 0x100;
    assert n / 0x100_0000 == n / 0x1_0000 / 0x100;
  }
  lemma Le16OfBytes(b: seq<Byte>)
    requires |b| == 2
    ensures ToLe16(FromLe16(b)) == b
  {
  }

  lemma Le32OfBytes(b: seq<Byte>)
    requires |b| == 4
    ensures ToLe32(FromLe32(b)) == b
  {
    var low: int, mid: int, high: int, top: int := b[0], b[1], b[2], b[3];
    var n: int := FromLe32(b);
    assert n / 0x100 == mid + 0x100 * high + 0x1_0000 * top;
    assert n / 0x1_0000 == high + 0x100 * top;
    assert n / 0x100_0000 == top;
  }
}
