// The C integers the heaps compute with: a 32-bit int, and 64-bit unsigned numbers.
module Integers {
  const WORD32: nat := 0x1_0000_0000
  const WORD64: nat := 0x1_0000_0000_0000_0000

  // What an int holds after the assignment of n, and what it is as an operand next to an unsigned long.
  function ToInt(n: int): (len: int)
    ensures -0x8000_0000 <= len < 0x8000_0000
  {
    var m := n % WORD32;
    if m < 0x8000_0000 then m else m - WORD32
  }

  function ToUnsigned(len: int): nat
    requires -0x8000_0000 <= len < 0x8000_0000
  {
    if len >= 0 then len else len + WORD64
  }
}
