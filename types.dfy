/** Machine types shared by the library model. */
module Types {
  /** An unsigned 8-bit memory cell (cell_t / uint8_t). */
  newtype byte = x: int | 0 <= x < 256

  /** Reduction of an unsigned result to a word of `modulus` values. */
  function Wrap(x: int, modulus: nat): (r: nat)
    requires modulus > 0
    ensures r < modulus
    ensures 0 <= x < modulus ==> r == x
    ensures x == modulus ==> r == 0
    ensures x < 0 && 0 <= x + modulus ==> r == x + modulus
  {
    x % modulus
  }
}
