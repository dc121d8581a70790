// The optional value shared by the models of the other modules.

module Wrappers {

  /** A value that may be absent. */
  datatype Option<T> = None | Some(value: T)
}
