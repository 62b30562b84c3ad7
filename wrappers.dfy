/** Failure-carrying results shared by the model's modules. */
module Wrappers {

  datatype Option<+T> = None | Some(value: T)

  /** The outcome of an operation that the original code can abort with an exception. */
  datatype Result<+T, +E> = Success(value: T) | Failure(error: E)
}
