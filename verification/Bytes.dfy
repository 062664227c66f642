/** Bytes and the 32-bit length prefixes of the log and the wire. */
module Bytes {

  type Byte = n: nat | n < 256

  const U32_LIMIT := 0x1_0000_0000

  /** `u32::to_le_bytes`. */
  function LittleEndian(n: nat): (b: seq<Byte>)
    requires n < U32_LIMIT
    ensures |b| == 4
  {
    [n % 256, n / 0x100 % 256, n / 0x1_0000 % 256, n / 0x100_0000]
  }

  /** `u32::from_le_bytes`. */
  function FromLittleEndian(b: seq<Byte>): (n: nat)
    requires |b| == 4
    ensures n < U32_LIMIT
  {
    b[0] as int + 0x100 * b[1] as int + 0x1_0000 * b[2] as int + 0x100_0000 * b[3] as int
  }

  lemma DivSteps(n: nat)
    ensures n / 0x1_0000 == n / 0x100 / 0x100
    ensures n / 0x100_0000 == n / 0x1_0000 / 0x100
  {
  }

  lemma LittleEndianRoundTrip(n: nat)
    requires n < U32_LIMIT
    ensures FromLittleEndian(LittleEndian(n)) == n
  {
    DivSteps(n);
  }

  /** `u32::to_be_bytes`. */
  function BigEndian(n: nat): (b: seq<Byte>)
    requires n < U32_LIMIT
    ensures |b| == 4
  {
    [n / 0x100_0000, n / 0x1_0000 % 256, n / 0x100 % 256, n % 256]
  }

  /** `u32::from_be_bytes`. */
  function FromBigEndian(b: seq<Byte>): (n: nat)
    requires |b| == 4
    ensures n < U32_LIMIT
  {
    0x100_0000 * b[0] as int + 0x1_0000 * b[1] as int + 0x100 * b[2] as int + b[3] as int
  }

  lemma BigEndianWrites(b: seq<Byte>)
    requires |b| == 4
    ensures BigEndian(FromBigEndian(b)) == b
  {
    var n := FromBigEndian(b);
    DivSteps(n);
    assert n / 0x100 == 0x1_0000 * b[0] as int + 0x100 * b[1] as int + b[2] as int;
    assert n / 0x1_0000 == 0x100 * b[0] as int + b[1] as int;
  }

  lemma BigEndianRoundTrip(n: nat)
    requires n < U32_LIMIT
    ensures FromBigEndian(BigEndian(n)) == n
  {
    DivSteps(n);
  }
}
