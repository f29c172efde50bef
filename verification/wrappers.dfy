/** Failure-carrying values: the model's stand-in for the exceptions the
    builder methods throw. */
module Wrappers {

  datatype Option<+T> = None | Some(value: T)

  datatype Result<+R, +E> = Success(value: R) | Failure(error: E)
}
