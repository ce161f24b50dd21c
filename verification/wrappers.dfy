/** Failure-carrying result types shared by the models: `Option` for Python's
    `None`-or-value returns and `Result` for operations that may raise. */
module Wrappers {

  datatype Option<+T> = None | Some(value: T)

  datatype Result<+T, +E> = Success(value: T) | Failure(error: E)
}
