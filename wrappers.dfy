/** Optional values, used where the source reads past the end of a buffer. */
module Wrappers {
  datatype Option<+T> = None | Some(value: T)
}
