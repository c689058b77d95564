/** Failure-carrying result types shared by the whole model.
    The runtime raises exceptions (NAT_RAISE) or aborts the process;
    the model returns them as values. */
module Wrappers {

  datatype Option<+T> = None | Some(value: T)

  /** The exception classes the core raises, plus Abort for a C `abort()`
      or a failed `assert` (the process stops; nothing can rescue it). */
  datatype ErrorKind =
    | ArgumentError
    | TypeError
    | RuntimeError
    | LocalJumpError
    | Abort

  datatype Error = Error(kind: ErrorKind, message: string)

  datatype Result<+T> = Ok(value: T) | Err(error: Error)

  /** The outcome of an operation that returns nothing but may raise. */
  datatype Status = Pass | Fail(error: Error)
}
