/** Small shared types: optional values, results, and the machine integers the source uses. */
module Wrappers {
  datatype Option<+T> = None | Some(value: T)

  datatype Result<+T> = Ok(value: T) | Err

  const U16_LIMIT: int := 0x1_0000
  const U32_LIMIT: int := 0x1_0000_0000
  const U128_LIMIT: int := 0x1_0000_0000_0000_0000_0000_0000_0000_0000

  type Byte = n: int | 0 <= n < 256
  type U16 = n: int | 0 <= n < U16_LIMIT
  type U32 = n: int | 0 <= n < U32_LIMIT
  type U128 = n: int | 0 <= n < U128_LIMIT

  function Min(a: int, b: int): int { if a <= b then a else b }

  function Max(a: int, b: int): int { if a <= b then b else a }
}
