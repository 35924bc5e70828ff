// The optional value shared by the recorder and the listener models.

module Wrappers {

  /** A value that may be absent, like Python's `None`. */
  datatype Option<T> = None | Some(value: T)
}
