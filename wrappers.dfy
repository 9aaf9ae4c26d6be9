/** The optional value used wherever the Go code has a nil-able result. */
module Wrappers {
  datatype Option<+T> = None | Some(value: T)
}
