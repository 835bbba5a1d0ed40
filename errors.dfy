/** The Python exceptions that cross the pipeline's boundaries, and the
    Option/Result wrappers used in place of `None` returns and `raise`. */
module Errors {

  /** An exception value. Only the distinctions the code makes are kept:
      whether the exact type is `ValueError` or `ConnectionError`, whether it
      is a subclass of one of them, or anything else. `msg` is `str(error)`. */
  datatype Error =
    | ValueErr(msg: string)          // type(e) is ValueError
    | ValueErrSubclass(msg: string)  // a proper subclass of ValueError
    | ConnErr(msg: string)           // type(e) is ConnectionError
    | ConnErrSubclass(msg: string)   // a proper subclass of ConnectionError
    | Other(msg: string)             // Exception itself or any unrelated type
  {
    /** `isinstance(e, ValueError)` */
    predicate IsValueError() {
      ValueErr? || ValueErrSubclass?
    }

    /** `isinstance(e, ConnectionError)` */
    predicate IsConnectionError() {
      ConnErr? || ConnErrSubclass?
    }
  }

  datatype Option<+T> = None | Some(value: T)

  /** A value, or the exception raised instead of returning it. */
  datatype Result<+T> = Ok(value: T) | Err(error: Error)
}
