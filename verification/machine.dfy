/**
 The machine integers the engine computes with. Node distances are C++
 `unsigned int` (32 bits), edge weights are `int` (32 bits, signed), and the
 relaxation candidate `distance + weight` is an unsigned addition that wraps
 modulo 2^32.
 */
module Machine {

  const TWO_TO_THE_32: int := 0x1_0000_0000

  /** A 32-bit `unsigned int`. */
  type u32 = x: int | 0 <= x < TWO_TO_THE_32

  /** A 32-bit `int`. */
  type i32 = x: int | -0x8000_0000 <= x < 0x8000_0000

  /** The "infinity" sentinel every node starts with: the largest `unsigned int`. */
  const CHAR_LIM: u32 := 0xFFFF_FFFF

  /** The unsigned sum `distance + weight`: the signed weight is converted to
      `unsigned int` and the addition wraps modulo 2^32. */
  function WrapAdd(distance: u32, weight: i32): (r: u32)
    ensures 0 <= distance + weight < TWO_TO_THE_32 ==> r == distance + weight
    ensures distance + weight >= TWO_TO_THE_32 ==> r == distance + weight - TWO_TO_THE_32
    ensures distance + weight < 0 ==> r == distance + weight + TWO_TO_THE_32
    ensures distance == CHAR_LIM && weight >= 1 ==> r == weight - 1
  {
    (distance + weight) % TWO_TO_THE_32
  }

  /** The smaller of two distances. */
  function Min(a: u32, b: u32): (r: u32)
    ensures r <= a && r <= b
    ensures r == a || r == b
  {
    if b < a then b else a
  }
}
