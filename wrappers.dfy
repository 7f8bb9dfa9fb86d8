/** Presence and failure wrappers shared by the model. */
module Wrappers {

  /** A value that may be absent: an unset optional field, or a nil pointer. */
  datatype Option<+T> = None | Some(value: T)

  /** The outcome of a decoding step: a value, or the error that stopped it. */
  datatype Result<+T, +E> = Success(value: T) | Failure(error: E)
}
