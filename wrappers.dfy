/** Option and Result values for the absent entries and error outcomes of the model. */
module Wrappers {

  /** A value that may be missing (Python's `None`). */
  datatype Option<+T> = None | Some(value: T)

  /** Either a value or the error that the source raises instead. */
  datatype Result<+R, +E> = Success(value: R) | Failure(error: E)
}
