/** Machine integers, byte strings, and the result types shared by every component. */
module Basics {
  const TWO_TO_THE_32: int := 0x1_0000_0000

  type uint8 = n: int | 0 <= n < 0x100
  type uint16 = n: int | 0 <= n < 0x1_0000
  type uint32 = n: int | 0 <= n < 0x1_0000_0000
  type uint64 = n: int | 0 <= n < 0x1_0000_0000_0000_0000
  type bytes = seq<uint8>

  // A chain hash: exactly 32 bytes.
  type Hash = h: bytes | |h| == 32 witness seq(32, _ => 0)

  // Unsigned 32-bit arithmetic wraps around.
  function Wrap32(n: int): uint32 { n % TWO_TO_THE_32 }

  lemma WrapIsCongruent(n: int)
    ensures exists k: int :: n == Wrap32(n) + k * 0x1_0000_0000
  {
    var k := n / TWO_TO_THE_32;
    assert n == Wrap32(n) + k * 0x1_0000_0000;
  }

  datatype Option<+T> = None | Some(value: T)

  datatype Result<+T, +E> = Ok(value: T) | Err(error: E)
}
