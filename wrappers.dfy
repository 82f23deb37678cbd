/** The two failure-carrying wrappers the model uses in place of `undefined`, `NaN` and thrown errors. */
module Wrappers {
  datatype Option<+T> = None | Some(value: T)

  datatype Result<+T, +E> = Success(value: T) | Failure(error: E)
}
