/** A value that may be absent: a nil pointer, a missing entry, a call that failed. */
module Wrappers {
  datatype Option<T> = None | Some(value: T)
}
