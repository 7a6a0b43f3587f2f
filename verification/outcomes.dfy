/** Failure-carrying values shared by the detect and build steps.

    Go reports failure as a trailing `error` value; here an operation that can
    fail returns a `Result`, and a probe of the environment that may or may not
    be present is an `Option`.
 */
module Outcomes {

  /** A Go `error`: only its message is observable. */
  datatype Error = Error(message: string)

  /** A value that may be absent, such as an unset environment variable. */
  datatype Option<+T> = None | Some(value: T) {

    /** The carried value, or `default` when absent. */
    function GetOr(default: T): T
    {
      match this
      case Some(v) => v
      case None => default
    }
  }

  /** The outcome of a call that returns `(T, error)` in Go. */
  datatype Result<+T> = Success(value: T) | Failure(error: Error)
}
