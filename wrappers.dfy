/** The optional value used for Python's `None` results throughout the model. */
module Wrappers {
  datatype Option<+T> = None | Some(value: T)
}
