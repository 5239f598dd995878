/** Option and Result, for the JavaScript `undefined` and for the error paths of the dashboard. */
module Wrappers {

  /** A value that may be missing, as a JavaScript property lookup that yields `undefined`. */
  datatype Option<+T> = None | Some(value: T)

  /** The outcome of an operation that can fail. */
  datatype Result<+R, +E> = Success(value: R) | Failure(error: E)
}
