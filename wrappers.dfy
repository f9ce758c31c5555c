/** Option and Result types shared by the model, and the error value that the
    fetch layer passes upward unchanged. */
module Wrappers {

  /** A JavaScript value that may be `undefined`. */
  datatype Option<+T> = None | Some(value: T)

  /** An error as passed to a Node-style callback; the core never inspects it. */
  datatype Error = Error(message: string)

  /** The `(err, value)` pair of a Node-style callback. */
  datatype Result<+T> = Success(value: T) | Failure(error: Error)
}
