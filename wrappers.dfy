/** Option and Result, the failure-carrying values used throughout the model. */
module Wrappers {

  datatype Option<+T> = None | Some(value: T)

  /** A Failure stands for a JavaScript exception thrown and not caught. */
  datatype Result<+R, +E> = Success(value: R) | Failure(error: E)
}
