/** A small option type, for a tick that may or may not invoke its callback. */
module Wrappers {
  datatype Option<+T> = None | Some(value: T)
}
