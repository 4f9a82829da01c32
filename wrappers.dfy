/** Optional values and outcomes that may fail with a message. */
module Wrappers {

  /** A value that may be absent (Python's `None`). */
  datatype Option<+T> = None | Some(value: T)

  /** The outcome of a step that may raise: the value, or the exception's message. */
  datatype Result<+T> = Success(value: T) | Failure(error: string)
}
