/** Optional values, handler results and the typed RPC errors a handler can raise. */
module Errors {

  /** A nullable column or an optional input: `null` / `undefined` is None. */
  datatype Option<+T> = None | Some(value: T)

  /** The error codes the handlers throw (a thrown non-RPC error surfaces as InternalServerError). */
  datatype ErrorCode = NotFound | Forbidden | BadRequest | NotImplemented | InternalServerError

  datatype Error = Error(code: ErrorCode, message: string)

  /** What a handler returns: its success payload, or the error it throws. */
  datatype Result<+T> = Ok(value: T) | Err(error: Error)

  /** The `{ success: true }` payload. */
  datatype Success = Success
}
