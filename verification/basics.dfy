/** Types that every part shares. */
module Basics {
  type Byte = b: int | 0 <= b < 256

  datatype Option<T> = None | Some(value: T)

  /** Bytes as a number, the first byte highest. */
  function BeValue(bytes: seq<Byte>): nat {
    if bytes == [] then 0 else 256 * BeValue(bytes[..|bytes| - 1]) + bytes[|bytes| - 1]
  }
}
