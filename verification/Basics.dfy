/** Types and machine arithmetic shared by the whole model. */
module Basics {

  datatype Option<+T> = None | Some(value: T)

  datatype Result<+T, +E> = Ok(value: T) | Err(error: E)

  type Byte = n: nat | n < 256

  const TWO_TO_32: nat := 0x1_0000_0000

  type Uint32 = n: nat | n < TWO_TO_32

  const TWO_TO_63: int := 0x8000_0000_0000_0000

  const TWO_TO_64: nat := 0x1_0000_0000_0000_0000

  type Uint64 = n: nat | n < TWO_TO_64

  type Int64 = n: int | -TWO_TO_63 <= n < TWO_TO_63

  /** The value kept by a uint32 after an operation whose exact result is x. */
  function U32(x: int): (r: Uint32)
    ensures 0 <= x < TWO_TO_32 ==> r == x
  {
    x % TWO_TO_32
  }

  function Min(x: nat, y: nat): nat {
    if x < y then x else y
  }

  function Max(x: nat, y: nat): nat {
    if x > y then x else y
  }
}
