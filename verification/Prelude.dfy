/** Types shared by every module of the project. */
module Prelude {

  datatype Option<+T> = None | Some(value: T)

  /** A Go byte.  Masks and shifts of the source are written as arithmetic on it. */
  type byte = x: int | 0 <= x < 256

  type Bytes = seq<byte>
}
