/** Bytes, big-endian lengths, and cutting a concatenation back into its parts. */
module Bytes {
  type Byte = b: int | 0 <= b < 256

  type Bytes = seq<Byte>

  function U16(n: nat): (b: Bytes)
    requires n < 0x1_0000
    ensures |b| == 2 && FromU16(b) == n
    ensures 0x100 * (b[0] as int) + b[1] as int == n
  {
    [n / 256, n % 256]
  }

  function FromU16(b: Bytes): (n: nat)
    requires |b| == 2
    ensures n < 0x1_0000
  {
    256 * (b[0] as int) + b[1] as int
  }

  function U32(n: nat): (b: Bytes)
    requires n < 0x1_0000_0000
    ensures |b| == 4 && FromU32(b) == n
    ensures 0x100_0000 * (b[0] as int) + 0x1_0000 * (b[1] as int) + 0x100 * (b[2] as int) + b[3] as int == n
  {
    U16(n / 0x1_0000) + U16(n % 0x1_0000)
  }

  function FromU32(b: Bytes): (n: nat)
    requires |b| == 4
    ensures n < 0x1_0000_0000
  {
    0x1_0000 * FromU16(b[..2]) + FromU16(b[2..])
  }

  lemma U16OfFrom(b: Bytes)
    requires |b| == 2
    ensures U16(FromU16(b)) == b
  {
    var n := FromU16(b);
    assert n == 256 * (b[0] as int) + b[1] as int && 0 <= b[1] < 256;
    assert n / 256 == b[0] && n % 256 == b[1];
  }

  lemma U32OfFrom(b: Bytes)
    requires |b| == 4
    ensures U32(FromU32(b)) == b
  {
    var n, high, low := FromU32(b), FromU16(b[..2]), FromU16(b[2..]);
    assert n / 0x1_0000 == high && n % 0x1_0000 == low;
    U16OfFrom(b[..2]);
    U16OfFrom(b[2..]);
    assert b == b[..2] + b[2..];
  }

  /** Concatenations that agree, and agree on the length of their first part, agree on both parts. */
  lemma SamePrefix(a: Bytes, b: Bytes, restA: Bytes, restB: Bytes)
    requires a + restA == b + restB && |a| == |b|
    ensures a == b && restA == restB
  {
    assert a == (a + restA)[..|a|] && b == (b + restB)[..|b|];
    assert restA == (a + restA)[|a|..] && restB == (b + restB)[|b|..];
  }
}
