/** Option, Result and Outcome: the shapes of Swift optionals and of `throws`. */
module Wrappers {

  /** A Swift optional (`T?`). */
  datatype Option<+T> = None | Some(value: T)

  /** A throwing call that returns a value: either the value or the thrown error. */
  datatype Result<+R, +E> = Success(value: R) | Failure(error: E)

  /** A throwing call that returns nothing: either it completes or it throws. */
  datatype Outcome<+E> = Pass | Fail(error: E)
}
