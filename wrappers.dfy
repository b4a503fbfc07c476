/** Failure-carrying result types shared by the modules of this model. */
module Wrappers {

  datatype Option<+T> = None | Some(value: T)

  /** A computation that either produced a value or raised an exception, whose message is `error`. */
  datatype Result<+R, +E> = Success(value: R) | Failure(error: E)
}
