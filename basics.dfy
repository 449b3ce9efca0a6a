/** Small value types shared by every module of the model. */
module Basics {

  /** The conventional optional value (a nil pointer, a missing result). */
  datatype Option<+T> = None | Some(value: T)

  /** An unsigned 8-bit value, as Go's `byte`. */
  type Byte = x: int | 0 <= x < 256

  /** A Go `[]byte` payload. */
  type Bytes = seq<Byte>

  /** A Go `int64`. */
  type Int64 = x: int | -0x8000_0000_0000_0000 <= x < 0x8000_0000_0000_0000
}
