/** Wrappers shared by the attribute model: `Option` stands for a C#
    reference that may be null, `Result` for a call that may throw. */
module Wrappers {

  /** A value that may be absent; `None` plays the role of a null reference. */
  datatype Option<+T> = None | Some(value: T)

  /** The outcome of a call that either returns a value or throws an exception. */
  datatype Result<+T, +E> = Success(value: T) | Failure(error: E)
}
