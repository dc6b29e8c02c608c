/** Failure-carrying result types shared by the whole model. An `abort()` or an
    error status of the source becomes a `Failure`/`None` value here. */
module Wrappers {

  datatype Option<+T> = None | Some(value: T)

  datatype Result<+R, +E> = Success(value: R) | Failure(error: E)
}
