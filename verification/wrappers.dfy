/** The outcome of a Go call that returns `(value, error)`. */
module Wrappers {

  /** `Ok` carries the value of a call that succeeded; `Err` carries the
      message of the `error` it returned instead. */
  datatype Result<+T> = Ok(value: T) | Err(error: string)
}
