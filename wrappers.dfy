/** Optional values and outcomes: the model's stand-ins for `undefined` / `null` and thrown errors. */
module Wrappers {

  datatype Option<+T> = None | Some(value: T)

  /** A value, or the message of the error that was thrown instead. */
  datatype Result<+T> = Success(value: T) | Failure(error: string)
}
