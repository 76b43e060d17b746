/** The optional value used for the line number of an error and for tuple unpacking. */
module Wrappers {
  datatype Option<+T> = None | Some(value: T)
}
