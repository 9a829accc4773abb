/** The range and the wrap-around of a 32-bit int. */
module MachineInt {
  const INT_MAX: int := 0x7FFF_FFFF
  const INT_MIN: int := -0x8000_0000
  const TWO_32: int := 0x1_0000_0000

  /** Arithmetic on a 32-bit int wraps around. */
  function Wrap32(x: int): (r: int)
    ensures INT_MIN <= r <= INT_MAX
  {
    (x - INT_MIN) % TWO_32 + INT_MIN
  }
}
