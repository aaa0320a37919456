/** Results shared by every entry point of the backend: the typed failures that the
    callable functions throw as `HttpsError` codes, and a value-or-error wrapper. */
module Outcomes {

  datatype Option<+T> = None | Some(value: T)

  /** The error codes the callable functions raise. `ResourceExhausted` carries the
      number of seconds the caller is told to wait. */
  datatype Error =
    | Unauthenticated
    | InvalidArgument
    | ResourceExhausted(retryAfter: int)
    | PermissionDenied
    | NotFound
    | FailedPrecondition
    | AlreadyExists
    | Internal

  datatype Result<+T> = Ok(value: T) | Err(error: Error)
}
