/** Option and Result wrappers used throughout the model. */
module Wrappers {

  /** A value that may be absent; `None` stands for pandas' NaN / "missing". */
  datatype Option<+T> = None | Some(value: T)

  /** Either a value or an error message (the loader's pair of nothing and a message). */
  datatype Result<+R, +E> = Success(value: R) | Failure(error: E)
}
