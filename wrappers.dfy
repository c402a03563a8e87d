/**
 * Failure-carrying values shared by every module of the model.
 *
 * Python's `None` becomes `Option.None`, and a raised exception becomes
 * `Result.Err` carrying the exception class that the library code raises.
 */
module Wrappers {

  datatype Option<+T> = None | Some(value: T)

  /** The Python exception classes that the modelled code can raise. */
  datatype Error =
    | ValueError
    | TypeError
    | IndexError
    | AttributeError
    | AssertionError
    | ZeroDivisionError

  datatype Result<+T> = Ok(value: T) | Err(error: Error)
}
