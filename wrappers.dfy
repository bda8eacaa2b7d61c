/** Failure-compatible result types shared by the model. */
module Wrappers {

  /** An optional value: `undefined` (None) or a present value. */
  datatype Option<+T> = None | Some(value: T)

  /** A computation that either produced a value or threw an error. */
  datatype Result<+T, +E> = Success(value: T) | Failure(error: E)
}
