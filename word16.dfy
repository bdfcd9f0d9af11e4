/**
 * Rust's `u16`, with the arithmetic of a release build: an addition, subtraction
 * or multiplication that leaves the range keeps its low 16 bits, and so does the
 * truncating cast `as u16`.
 */
module Word16 {
  const MODULUS: int := 0x1_0000

  type U16 = x: int | 0 <= x < 0x1_0000

  /** The value of `x` kept to its low 16 bits. */
  function Wrap(x: int): (w: U16)
    ensures 0 <= x < MODULUS ==> w == x
    ensures (x - w) % MODULUS == 0
  {
    x % MODULUS
  }
}
