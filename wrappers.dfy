/** Failure-compatible result types used throughout the model. */
module Wrappers {

  /** A value that may be absent (JavaScript `null`/`undefined`). */
  datatype Option<+T> = None | Some(value: T)

  /** The outcome of an operation that either yields a value or fails with a message. */
  datatype Result<+T> = Ok(value: T) | Err(message: string)
}
