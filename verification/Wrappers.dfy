/** Optional values, as Python's `None | value`, and bytes. */
module Wrappers {
  datatype Option<+T> = None | Some(value: T)

  newtype byte = b: int | 0 <= b < 256
}
