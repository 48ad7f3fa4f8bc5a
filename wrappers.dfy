/** The optional value used for Python's `None` results and for calls that may raise. */
module Wrappers {

  datatype Option<+T> = None | Some(value: T)
}
