/** Optional values and success/failure results shared by the model. */
module Wrappers {

  /** A value that may be absent (a JSON field left out, a payment JavaScript cannot compute finitely). */
  datatype Option<+T> = None | Some(value: T)

  /** The outcome of a request handler: the JSON body of a success, or a client error. */
  datatype Result<+R, +E> = Success(value: R) | Failure(error: E)
}
