/** Option and Result, the failure-carrying datatypes used throughout the model. */
module Wrappers {

  datatype Option<+T> = None | Some(value: T)

  /** The outcome of an operation that can raise: `Err` carries the Python
      exception class that the source would raise. */
  datatype Result<+T> = Ok(value: T) | Err(error: PyError)

  /** Python exception classes the modelled code raises or catches. */
  datatype PyError =
    | ValueError
    | TypeError
    | IndexError
    | AttributeError
    | ZeroDivisionError
    | RuntimeError
    | OperationalError
    | IntegrityError
    | FileNotFoundError
}
