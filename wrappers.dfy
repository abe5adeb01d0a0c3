/** Option and Result, the two wrappers every other module uses for absent
  * values and for the Python exceptions the bots raise. */
module Wrappers {

  datatype Option<T> = None | Some(value: T)
  {
    function GetOr(default: T): T
    {
      match this
      case None => default
      case Some(v) => v
    }
  }

  /** The Python exception classes the modelled code raises or lets escape. */
  datatype Error =
    | RuntimeError
    | ValueError
    | TypeError
    | IndexError
    | KeyError
    | NameError
    | UnboundLocalError
    | AttributeError
    | ValidationError
    | MissingPage
    | PlainException
    | DuplicatePage
    | FileExistsError
    | FileNotFoundError
    | OverflowError

  datatype Result<T> = Ok(value: T) | Fail(error: Error)
}
