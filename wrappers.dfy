/**
 * The optional value used where the source returns either a value or null,
 * and the outcome of a call that may throw.
 */
module Wrappers {

  datatype Option<+T> = None | Some(value: T) {

    /** The wrapped value, or `default` when there is none. */
    function GetOr(default: T): T {
      match this
      case Some(v) => v
      case None => default
    }
  }

  /** A call that either returns a value or ends with an exception carrying a message. */
  datatype Outcome<+T> = Returned(value: T) | Thrown(error: string)
}
