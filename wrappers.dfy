/** Option and Result: a missing dictionary key or SQL NULL, and a Python exception that aborts an event. */
module Wrappers {

  datatype Option<+T> = None | Some(value: T)

  datatype Result<+T, +E> = Success(value: T) | Failure(error: E)
}
