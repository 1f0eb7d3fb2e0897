/** Optional and failure-carrying return values. `Result` stands in for
    the exceptions the notebook helpers raise; `Option` marks a value that
    may be absent, such as a position where the pattern does not match. */
module Wrappers {

  /** A value that may be absent; no exception is involved. */
  datatype Option<+T> = None | Some(value: T)

  /** Either a value or the error that stopped the computation. */
  datatype Result<+R, +E> = Success(value: R) | Failure(error: E)
}
