/** The unsigned 32-bit integers of the source. */
module Words {
  const TWO_32: int := 0x1_0000_0000

  type dword = x: int | 0 <= x < 0x1_0000_0000
}
