/** The optional value used for the handlers' panicking paths. */
module Wrappers {
  datatype Option<+T> = None | Some(value: T)
}
