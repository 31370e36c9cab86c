/** The optional value used for `null`/missing JavaScript values. */
module Wrappers {
  datatype Option<+T> = None | Some(value: T)
}
