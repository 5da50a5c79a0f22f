/** Failure-compatible wrappers: Python's `None` and raised exceptions become
    `Option.None` and `Result.Failure`. */
module Wrappers {

  datatype Option<+T> = None | Some(value: T)

  datatype Result<+R, +E> = Success(value: R) | Failure(error: E)
}
