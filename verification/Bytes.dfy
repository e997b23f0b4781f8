/** Big-endian integers on the wire. */
module Bytes {
  import opened Wrappers

  function U16Bytes(n: U16): (b: seq<Byte>)
    ensures |b| == 2
  {
    [n / 256, n % 256]
  }

  function U32Bytes(n: U32): (b: seq<Byte>)
    ensures |b| == 4
  {
    [n / 0x100_0000, n / 0x1_0000 % 256, n / 0x100 % 256, n % 256]
  }

  function U16Of(b: seq<Byte>): U16
    requires |b| == 2
  {
    var hi: int, lo: int := b[0], b[1];
    hi * 256 + lo
  }

  function U32Of(b: seq<Byte>): U32
    requires |b| == 4
  {
    var w: int, x: int, y: int, z: int := b[0], b[1], b[2], b[3];
    w * 0x100_0000 + x * 0x1_0000 + y * 0x100 + z
  }

  lemma U16RoundTrip(n: U16)
    ensures U16Of(U16Bytes(n)) == n
  {
  }

  lemma U32RoundTrip(n: U32)
    ensures U32Of(U32Bytes(n)) == n
  {
    assert n / 0x100 / 0x100 == n / 0x1_0000 && n / 0x1_0000 / 0x100 == n / 0x100_0000;
  }

  lemma U16BytesOf(b: seq<Byte>)
    requires |b| == 2
    ensures U16Bytes(U16Of(b)) == b
  {
  }

  /** The number two bytes spell, most significant first. */
  function Value2(b: seq<Byte>, i: nat): int
    requires i + 2 <= |b|
  {
    var hi: int, lo: int := b[i], b[i + 1];
    hi * 256 + lo
  }

  function Value4(b: seq<Byte>, i: nat): int
    requires i + 4 <= |b|
  {
    Value2(b, i) * 65536 + Value2(b, i + 2)
  }

  lemma U16IsBigEndian(b: seq<Byte>, i: nat)
    requires i + 2 <= |b|
    ensures U16Of(b[i..i + 2]) == Value2(b, i)
  {
  }

  lemma U32IsBigEndian(b: seq<Byte>, i: nat)
    requires i + 4 <= |b|
    ensures U32Of(b[i..i + 4]) == Value4(b, i)
  {
  }
}
