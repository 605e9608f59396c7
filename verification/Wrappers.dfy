/**
 Results and optional values, standing for Go's error returns and nil pointers, and its
 fixed-width integers.
 */
module Wrappers {

  datatype Option<+T> = None | Some(value: T)

  datatype Result<+T, +E> = Ok(value: T) | Err(error: E)

  const TWO_63: int := 0x8000_0000_0000_0000
  const TWO_64: int := 0x1_0000_0000_0000_0000

  type byte = b: int | 0 <= b < 256
  type int64 = n: int | -TWO_63 <= n < TWO_63
  type uint64 = n: int | 0 <= n < TWO_64
}
