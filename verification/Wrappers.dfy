/** The optional value used where the source has a nil pointer, a missing row or a NULL column. */
module Wrappers {
  datatype Option<+T> = None | Some(value: T)
}
