/** Java's 32-bit `int`, as used for distances and race positions. */
module JavaInts {

  const INT_MIN: int := -0x8000_0000
  const INT_MAX: int := 0x7fff_ffff

  newtype int32 = x: int | -0x8000_0000 <= x < 0x8000_0000

  /**
   * Java's `x += 1` on an `int`: arithmetic modulo 2^32 in two's complement,
   * so the largest value wraps around to the smallest.
   */
  function Increment(x: int32): (r: int32)
    ensures r as int == (x as int - INT_MIN + 1) % 0x1_0000_0000 + INT_MIN
    ensures x as int < INT_MAX ==> r as int == x as int + 1
  {
    if x as int == INT_MAX then INT_MIN as int32 else x + 1
  }
}
