/** Optional values and error returns. */
module Wrappers {

  datatype Option<+T> = None | Some(value: T)

  /** A Go `error` return: either a value or the error's message. */
  datatype Result<+T> = Ok(value: T) | Err(message: string)
}
