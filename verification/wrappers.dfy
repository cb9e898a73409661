/** Failure-carrying values used throughout the model: `Option` for a value
    that may be absent (a null cell, NaT, a missing column), `Result` for a
    run that can abort. */
module Wrappers {

  datatype Option<+T> = None | Some(value: T)

  datatype Result<+R, +E> = Success(value: R) | Failure(error: E)
}
