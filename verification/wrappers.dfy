/** Optional values and results shared by the ROI model. */
module Wrappers {

  /** An optional value: the model's stand-in for "no row" and for a NaN cell. */
  datatype Option<+T> = None | Some(value: T)

  /** The outcome of an operation that can raise. */
  datatype Result<+R, +E> = Success(value: R) | Failure(error: E)
}
