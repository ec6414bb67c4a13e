/** Option and Result, standing for the source's null references and for
    the exceptions that end an operation early. */
module Wrappers {

  datatype Option<+T> = None | Some(value: T)

  datatype Result<+T, +E> = Success(value: T) | Failure(error: E)
}
