/** Option and Result values, used for the lookups and the exceptions of the model. */
module Wrappers {

  datatype Option<+T> = None | Some(value: T)

  /** `Failure` carries the text of a Python exception that was raised. */
  datatype Result<+T> = Success(value: T) | Failure(error: string)
}
