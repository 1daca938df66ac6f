/** Go's `error` values as they appear in the emulator harness: a nil error
    is `None`, a non-nil one `Some(e)`. */
module Failures {

  datatype Option<+T> = None | Some(value: T)

  /** A Go `(value, error)` pair in which exactly one side is meaningful. */
  datatype Result<+T> = Ok(value: T) | Err(error: Error)

  /** The gRPC status codes the harness looks at. */
  datatype Code = OK | NotFound | Unknown | Other(name: string)

  datatype Error =
    /** `Port` could not find a port in the host string it was given. */
    | PortParse(host: string)
    /** An error reported by the emulator, the admin SDK or a command, with its status code. */
    | Status(code: Code, message: string)
    /** The iterator sentinel a listing returns when it has no (more) items. */
    | IteratorDone
    /** The wait context expired before an operation finished. */
    | DeadlineExceeded
    /** `CreateDB`'s wrapping of a failed `CreateDatabase` call. */
    | CreatingDatabase(cause: Error)

  /** The status code an error carries; a nil error is OK, an error that
      carries no status is Unknown. */
  function ErrCode(err: Option<Error>): (c: Code)
    ensures err.None? ==> c == OK
    ensures err.Some? && err.value.Status? ==> c == err.value.code
    ensures c == NotFound ==> err.Some? && err.value.Status?
  {
    match err
    case None => OK
    case Some(Status(code, _)) => code
    case Some(_) => Unknown
  }
}
