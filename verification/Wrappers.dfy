/** The optional value used for Go's nilable pointers and two-result functions. */
module Wrappers {
  datatype Option<+T> = None | Some(value: T)
}
