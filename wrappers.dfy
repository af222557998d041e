/** Option and Result, the failure-carrying datatypes the rest of the model returns. */
module Wrappers {

  datatype Option<+T> = None | Some(value: T)

  /** Either a value or the reason it could not be produced (the source raises ValueError). */
  datatype Result<+T, +E> = Success(value: T) | Failure(error: E)
}
