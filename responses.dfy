/** The outcomes of the modelled actix handlers. */
module Responses {

  /**
   * An HTTP reply (`Ok` carries the JSON body that matters), or `Panicked`
   * when the handler panics on an `unwrap` and produces no reply.
   */
  datatype Response<+T> =
    | Ok(body: T)
    | Created
    | BadRequest
    | NotFound
    | TooManyRequests
    | InternalServerError
    | Panicked
}
