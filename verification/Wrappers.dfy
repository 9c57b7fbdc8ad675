/** A value that may be absent: a NULL pointer, or a call that gives nothing. */
module Wrappers {
  datatype Option<+T> = None | Some(value: T)
}
