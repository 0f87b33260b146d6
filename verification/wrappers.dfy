/** Failure-compatible Option and Result, and the error outcomes a request can end in. */
module Wrappers {

  datatype Option<+T> = None | Some(value: T) {

    predicate IsFailure() {
      None?
    }

    function PropagateFailure<U>(): Option<U>
      requires None?
    {
      None
    }

    function Extract(): T
      requires Some?
    {
      value
    }

    /** Python's `x or default` when `x` is an optional value. */
    function GetOr(default: T): T {
      match this
      case Some(v) => v
      case None => default
    }
  }

  datatype Result<+R, +E> = Success(value: R) | Failure(error: E) {

    predicate IsFailure() {
      Failure?
    }

    function PropagateFailure<U>(): Result<U, E>
      requires Failure?
    {
      Failure(error)
    }

    function Extract(): R
      requires Success?
    {
      value
    }
  }
}

/** The caller-visible ways a request ends without a result. */
module Http {

  /** `Internal` stands for every exception the handlers do not catch
      (pydantic validation inside a handler, a failed float parse, a
      database constraint violated at commit); the framework answers 500. */
  datatype Failure =
    | Unauthorized          // 401: no Telegram id supplied
    | Forbidden             // 403: id not on the moderator list
    | NotFound              // 404: the addressed row does not exist
    | UnsupportedMediaType  // 415: body in an unrecognised encoding
    | Unprocessable         // 422: request validation failed
    | Internal              // 500: uncaught exception
  {
    function Status(): (code: int)
      ensures 400 <= code < 600
    {
      match this
      case Unauthorized => 401
      case Forbidden => 403
      case NotFound => 404
      case UnsupportedMediaType => 415
      case Unprocessable => 422
      case Internal => 500
    }
  }
}
