/** A value that may be missing: null and undefined of the original. */
module Wrappers {
  datatype Option<+T> = None | Some(value: T)
}
