/** Failure-carrying values shared by the model. */
module Wrappers {

  datatype Option<T> = None | Some(value: T)

  /** The Python exceptions the modelled code can raise or catch. */
  datatype Exception =
    | TypeError
    | KeyError
    | IndexError
    | ValueError
    | ConnectionError
    | FileNotFoundError
    | IsADirectoryError

  /** A value, or the exception raised instead of producing it. */
  datatype Result<T> = Ok(value: T) | Raise(exc: Exception)
}
