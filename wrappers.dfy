/** The optional-argument type used for Python's `None` default. */
module Wrappers {

  datatype Option<+T> = None | Some(value: T)
}
