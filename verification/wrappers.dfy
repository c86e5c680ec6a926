/** Small value wrappers shared by every module of the model. */
module Wrappers {

  /** A value that may be absent (JavaScript `null`). */
  datatype Option<+T> = None | Some(value: T) {

    /** The wrapped value, or `default` when absent (JavaScript `x ?? default`). */
    function GetOr(default: T): T {
      match this
      case Some(v) => v
      case None => default
    }
  }

  /** The outcome of one call to an upstream provider: the decoded body, or a failure.
      What counts as a failure is up to the caller: the series provider fails when the
      request is rejected, the status is not OK, the body is an error envelope or it is
      not JSON; the fundamentals provider does not look at an error envelope, so with
      status 200 it is an `Ok` answer; the news provider of the brief endpoint fails
      only when the request is rejected or the body is not JSON. */
  datatype Fetched<+T> = Ok(payload: T) | Err
}
