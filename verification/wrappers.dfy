/** Failure-carrying result types shared by every part of the model. */
module Wrappers {

  /** A value that may be absent: JavaScript's `null`/`undefined`. */
  datatype Option<+T> = None | Some(value: T)

  /** The outcome of an operation that can throw: `Err` carries what it threw. */
  datatype Result<+T, +E> = Ok(value: T) | Err(error: E)

  /** A child process's exit status, `null` when it was killed by a signal,
      read as `status ?? 1`. */
  function StatusOr1(status: Option<int>): int {
    if status.Some? then status.value else 1
  }
}
