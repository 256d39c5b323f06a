/** The wrappers used for the pipeline's parse outcomes and errors. */
module Wrappers {

  /** The outcome of a parse that may fail (pandas' NaN / NaT). */
  datatype Option<+T> = None | Some(value: T)

  /** A value, or the error that aborted its computation. */
  datatype Result<+T, +E> = Success(value: T) | Failure(error: E)
}
