/** The two failure-carrying shapes the model uses: a value that may be absent, and a
  * computation that may raise. */
module Wrappers {
  datatype Option<+T> = None | Some(value: T)
  {
    function GetOr(default: T): T
    {
      match this
      case Some(v) => v
      case None => default
    }
  }

  /** `Err` stands for a Python exception that escapes the modelled call. */
  datatype Result<+T> = Ok(value: T) | Err(error: string)
}
