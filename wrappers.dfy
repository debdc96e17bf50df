/** Option and Result, used for Python's `None` and for operations that raise. */
module Wrappers {

  datatype Option<+T> = None | Some(value: T)

  /** The Python exceptions that code in the list controller can raise as written. */
  datatype PyError =
    | TypeError(message: string)
    | AttributeError(message: string)

  datatype Result<+T> = Ok(value: T) | Err(error: PyError)
}
