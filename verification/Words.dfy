/** Machine words: numbers below 2^64, and the arithmetic the kernel does on them. */
module Words {
  const TWO_64: nat := 0x1_0000_0000_0000_0000
  const TWO_63: nat := 0x8000_0000_0000_0000

  type U64 = x: nat | x < TWO_64

  /** User addresses lie from `USER_BASE` up to `USER_END`. */
  const USER_BASE: nat := 0x4000_0000
  const USER_END: nat := 0x8000_0000_0000

  function SaturatingAdd(a: U64, b: U64): U64 {
    if a + b < TWO_64 then a + b else TWO_64 - 1
  }

  function WrappingAdd(a: U64, b: U64): U64 {
    (a + b) % TWO_64
  }

  function WrappingSub(a: U64, b: U64): U64 {
    (a - b) % TWO_64
  }

  function Min(a: nat, b: nat): nat {
    if a < b then a else b
  }

  function Max(a: nat, b: nat): nat {
    if a > b then a else b
  }
}
