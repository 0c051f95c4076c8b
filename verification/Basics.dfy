/** Types that every part of the model uses. */
module Basics {
  datatype Option<+T> = None | Some(value: T)

  newtype byte = x: int | 0 <= x < 256

  /** What is before the first NUL of a C string. */
  type Name = seq<byte>
}
