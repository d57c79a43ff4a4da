/** A value that may be absent, as a jQuery lookup or an attribute may be. */
module Wrappers {
  datatype Option<+T> = None | Some(value: T)
}
