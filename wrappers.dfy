/** The optional-value datatype used for the script's `None` defaults, and the outcome of a run that can raise. */
module Wrappers {
  datatype Option<+T> = None | Some(value: T)

  /** A value, or the message of the RuntimeError raised instead. */
  datatype Result<+T> = Success(value: T) | Failure(error: string)
}
