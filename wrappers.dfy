/** Option, Result and Outcome, and the typed error codes the procedures raise. */
module Wrappers {

  datatype Option<T> = None | Some(value: T)

  /** An optional number read as a JavaScript truth value: a missing value and the number 0 are both falsy. */
  predicate Truthy(n: Option<int>) {
    n.Some? && n.value != 0
  }

  /** The tRPC error codes raised by the routers (BadRequest is what input validation raises). */
  datatype ErrorCode = NotFound | Conflict | Forbidden | Unauthorized | BadRequest | InternalError

  /** The value a procedure returns, or the error it throws. */
  datatype Result<T> = Ok(value: T) | Err(code: ErrorCode)

  /** The outcome of a procedure that returns nothing. */
  datatype Outcome = Pass | Fail(code: ErrorCode)
}
