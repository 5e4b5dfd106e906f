/** A value that may be absent: a null pointer, an invalid shared pointer or a missing child node. */
module Wrappers {
  datatype Option<+T> = None | Some(value: T)
}
