/** Option and Result: the "maybe absent" values and the success-or-error
    outcomes that the modelled TypeScript expresses with `null`/`undefined`
    and with thrown exceptions. */
module Wrappers {

  datatype Option<+T> = None | Some(value: T) {
    function GetOr(default: T): T {
      match this
      case Some(v) => v
      case None => default
    }
  }

  /** A backend call that either succeeds with a value or fails with an error. */
  datatype Result<+T, +E> = Ok(value: T) | Err(error: E)

  /** A backend call that returns nothing on success. */
  datatype Outcome<+E> = Pass | Fail(error: E)
}
