/** Optional values and results with an error message, standing for the
    `null` returns and the thrown exceptions of the JavaScript source. */
module Wrappers {

  datatype Option<+T> = None | Some(value: T)

  /** A successful value, or a failure carrying the error's `message`. */
  datatype Result<+T> = Ok(value: T) | Err(message: string)
}
