/** Failure-compatible wrappers shared by the other modules. */
module Wrappers {

  /** A value that may be absent: `null` in the component's state, or a failed parse. */
  datatype Option<+T> = None | Some(value: T)

  /** The outcome of an operation that may be rejected with a reason. */
  datatype Result<+R, +E> = Success(value: R) | Failure(error: E)
}
