/** Types shared by every component. */
module Prelude {
  type byte = x: int | 0 <= x < 0x100

  type bytes = seq<byte>

  /** Two's-complement 32-bit integer; an assignment to it proves that nothing overflows. */
  type int32 = x: int | -0x8000_0000 <= x < 0x8000_0000

  datatype Option<+T> = None | Some(value: T)

  datatype Result<+T, +E> = Ok(value: T) | Err(error: E)

  /** The value a 32-bit register holds after an operation whose exact result is `x`. */
  function Wrap32(x: int): (r: int32)
    ensures -0x8000_0000 <= x < 0x8000_0000 ==> r == x
    ensures (r - x) % 0x1_0000_0000 == 0
  {
    (x + 0x8000_0000) % 0x1_0000_0000 - 0x8000_0000
  }
}
