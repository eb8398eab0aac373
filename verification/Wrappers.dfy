/** A value that may be missing: a null pointer, an error not raised. */
module Wrappers {
  datatype Option<+T> = None | Some(value: T)
}
