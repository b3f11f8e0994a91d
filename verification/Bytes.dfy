/** Octets and the big-endian (network order) integers built from them. */
module Bytes {

  /** Stored data, which only the hash function looks into. */
  type Byte = bv8

  /** An octet of the peer protocol, which carries integers. */
  type Octet = x: int | 0 <= x < 256

  /** An unsigned 32-bit quantity: `u_int32_t`. */
  type U32 = x: int | 0 <= x < 0x1_0000_0000

  /** The four octets of `x` in network order (what `htonl` followed by `memcpy` leaves in a buffer). */
  function Be32(x: U32): (s: seq<Octet>)
    ensures |s| == 4
  {
    [x / 0x100_0000, x / 0x1_0000 % 256, x / 0x100 % 256, x % 256]
  }

  /** The integer whose network-order octets are `s` (`memcpy` followed by `ntohl`). */
  function FromBe32(s: seq<Octet>): (x: U32)
    requires |s| == 4
  {
    var b0: int, b1: int, b2: int, b3: int := s[0], s[1], s[2], s[3];
    b0 * 0x100_0000 + b1 * 0x1_0000 + b2 * 0x100 + b3
  }

  /** `ntohl` undoes `htonl`. */
  lemma Be32RoundTrip(x: U32)
    ensures FromBe32(Be32(x)) == x
  {
    var q1, q2 := x / 0x100, x / 0x1_0000;
    assert x == q1 * 0x100 + x % 0x100;
    assert q1 / 0x100 == q2 && q1 == q2 * 0x100 + q1 % 0x100;
    assert q2 / 0x100 == x / 0x100_0000 && q2 == (x / 0x100_0000) * 0x100 + q2 % 0x100;
  }
}
