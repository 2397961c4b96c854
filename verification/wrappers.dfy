/** Optional values and results with an error, shared by the game and the encoder. */
module Wrappers {

  /** A value that may be absent; `None` plays the role of JavaScript's `null`. */
  datatype Option<+T> = None | Some(value: T)

  /** The outcome of an operation that can raise an error instead of returning. */
  datatype Result<+R, +E> = Success(value: R) | Failure(error: E)
}
