/** A value that may be absent: a nullable column or a lookup that can miss. */
module Wrappers {
  datatype Option<+T> = None | Some(value: T)
}
