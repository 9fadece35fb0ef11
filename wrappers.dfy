/** Optional values and results with an error, as used throughout the scraper model. */
module Wrappers {

  /** A value that may be absent (a selector that matched nothing). */
  datatype Option<+T> = None | Some(value: T)

  /** The outcome of a step that may raise: its value, or the error that aborted it. */
  datatype Result<+T, +E> = Success(value: T) | Failure(error: E)
}
