/** The plain `Option` and `Result` values shared by the other modules. */
module Wrappers {

  /** A Python value that may be `None`. */
  datatype Option<+T> = None | Some(value: T)

  /** An outcome that either carries a value or names what went wrong. */
  datatype Result<+T, +E> = Success(value: T) | Failure(error: E)
}
