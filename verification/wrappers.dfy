/** Option and Result types shared by the tracer model. */
module Wrappers {

  /** An optional value: a PHP array key that may be absent, a frame that may not exist. */
  datatype Option<+T> = None | Some(value: T)

  /** The outcome of a session operation that may throw. */
  datatype Result<+R, +E> = Success(value: R) | Failure(error: E)
}
