/** Option and Result datatypes used across the model. */
module Wrappers {

  /** An optional value: a header value that is present, or no value at all. */
  datatype Option<+T> = None | Some(value: T)

  /** The outcome of a step that can fail with an error of type E. */
  datatype Result<+T, +E> = Success(value: T) | Failure(error: E)
}
