/** Unsigned 64-bit words with the wrap-around of machine arithmetic, and minima. */
module Words {
  const UINT64: nat := 0x1_0000_0000_0000_0000

  type uint64 = n: nat | n < UINT64

  function Min(a: nat, b: nat): nat {
    if a < b then a else b
  }

  function Add64(a: uint64, b: uint64): uint64 {
    if a + b < UINT64 then a + b else a + b - UINT64
  }

  function Sub64(a: uint64, b: uint64): uint64 {
    if a >= b then a - b else a - b + UINT64
  }
}
