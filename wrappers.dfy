/** A JavaScript value that may be `undefined` (Option), and the outcome of an
    expression that may throw (Result). */
module Wrappers {

  datatype Option<+T> = None | Some(value: T) {
    /** `x ?? d` */
    function GetOr(default: T): T {
      match this
      case Some(v) => v
      case None => default
    }
  }

  /** `TypeError` is the only exception the modelled expressions can raise:
      a property read on `undefined`. */
  datatype Thrown = TypeError

  datatype Result<+R> = Success(value: R) | Failure(error: Thrown)
}
