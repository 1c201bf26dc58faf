/** Result types shared by the whole project. */
module Prelude {

  datatype Option<+T> = None | Some(value: T)

  /** The outcome of an operation that the C++ code may leave by throwing. */
  datatype Result<+T> = Ok(value: T) | Thrown(error: Error) {
    function GetOr(default: T): T {
      match this case Ok(v) => v case Thrown(_) => default
    }
  }

  /** The exceptions the modelled code can throw, by C++ type and call site. */
  datatype Error =
    | RuntimeError(what: string)
    | InvalidNumber
    | NumberOutOfRange
    | TruncatedEscape
}
