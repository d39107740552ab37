/** Option and Result, the error-carrying values every module returns where the
    source raises an exception or reports a failure. */
module Wrappers {

  datatype Option<+T> = None | Some(value: T)

  datatype Result<+R, +E> = Success(value: R) | Failure(error: E)
}
