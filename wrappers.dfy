/** Optional values and results with an error, shared by the other modules. */
module Wrappers {

  /** A value that may be absent: a JavaScript `undefined` or a query that found nothing. */
  datatype Option<+T> = None | Some(value: T)

  /** The outcome of a request handler: a value, or the error it passes to the error middleware. */
  datatype Result<+T, +E> = Ok(value: T) | Err(error: E)
}
