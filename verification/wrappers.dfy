/** Option and Result, the failure-carrying datatypes the rest of the model uses
    in place of JavaScript's null/undefined and thrown exceptions. */
module Wrappers {

  datatype Option<+T> = None | Some(value: T) {

    /** The wrapped value, or `default` when there is none. */
    function GetOr(default: T): T {
      match this
      case Some(v) => v
      case None => default
    }
  }

  /** `Err` stands for a thrown exception; its payload names the exception. */
  datatype Result<+R, +E> = Ok(value: R) | Err(error: E)
}
