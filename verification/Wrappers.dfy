/** A value that may be missing: NULL, or a failed call. */
module Wrappers {
  datatype Option<T> = None | Some(value: T)
}
