/** The result type shared by the modules of the model. */
module Wrappers {

  /** A value that may be absent: Go's `value, ok` pairs and nil pointers. */
  datatype Option<+T> = None | Some(value: T)
}
