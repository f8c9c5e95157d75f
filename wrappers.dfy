/** Failure values shared by the whole model. */
module Wrappers {

  datatype Option<+T> = None | Some(value: T)

  /** What a JavaScript `throw` can carry: an `Error` object with its
      message, or any other value (a string, a plain object, ...). */
  datatype Thrown = ErrorValue(message: string) | OtherValue

  /** The outcome of a step that may throw. */
  datatype Result<+T> = Ok(value: T) | Err(error: Thrown)

  /** `throw new Error(message)`. */
  function Fail<T>(message: string): Result<T>
  {
    Err(ErrorValue(message))
  }
}
