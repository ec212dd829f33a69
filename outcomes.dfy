/** Python's `None`-or-value and raise-or-return, as datatypes. */
module Outcomes {

  datatype Option<+T> = None | Some(value: T)

  /** The Python exceptions the validator raises or lets escape. */
  datatype Exception =
    | ValueError(message: string)
    | KeyError(key: string)
    | AttributeError(attribute: string)
    | TypeError(message: string)
    | AssertionError(message: string)

  /** A Python call either returns a value or raises an exception. */
  datatype Result<+T> = Ok(value: T) | Raise(error: Exception)
}
