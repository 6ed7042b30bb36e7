/** Option and Result values used where the PHP code returns false/null or throws. */
module Wrappers {

  datatype Option<+T> = None | Some(value: T)
  {
    function GetOr(default: T): T
    {
      match this
      case Some(v) => v
      case None => default
    }
  }

  /** `Err` carries the message of the exception the PHP code throws. */
  datatype Result<+T> = Ok(value: T) | Err(message: string)
}
