/** The conventional optional value, for a computation that may produce nothing. */
module Wrappers {
  datatype Option<+T> = None | Some(value: T)
}
