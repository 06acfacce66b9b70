/** The two wrappers the model shares: `Option` stands for a nullable
    reference, `Result` for an operation that may throw. */
module Wrappers {

  /** A value that may be absent: `None` is C#'s `null`. */
  datatype Option<+T> = None | Some(value: T)

  /** The outcome of an operation that either returns a value or throws. */
  datatype Result<+R, +E> = Ok(value: R) | Err(error: E)
}
