/** Option and Result types shared by the model. */
module Wrappers {

  /** A value that may be missing: pandas' NaN / NaT in a column. */
  datatype Option<+T> = None | Some(value: T)

  /** The outcome of an operation that the source lets raise. */
  datatype Result<+R, +E> = Success(value: R) | Failure(error: E)
}
