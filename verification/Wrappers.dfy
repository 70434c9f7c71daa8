/** Optional values and outcomes shared by every module. */
module Wrappers {

  datatype Option<+T> = None | Some(value: T)

  datatype Result<+T, +E> = Ok(value: T) | Err(error: E)

  /** One past the largest value of the source's `u64` counters. */
  const U64: nat := 0x1_0000_0000_0000_0000

  /** `wrapping_add(1)` on a `u64`. */
  function Succ(n: nat): (m: nat)
    ensures m < U64
  {
    (n + 1) % U64
  }

  /** Saturating subtraction. */
  function Minus(a: nat, b: nat): nat {
    if a >= b then a - b else 0
  }
}
