/** Values shared by every route handler: optional request fields, the
    status-code categories a handler answers with, and the reply itself. */
module Common {

  datatype Option<+T> = None | Some(value: T)

  /** The status-code categories the route handlers use.  The message text
      that accompanies each one is not part of the model. */
  datatype Code = BadRequest | Unauthorized | Forbidden | NotFound | Internal

  function HttpStatus(c: Code): (n: nat)
    ensures 400 <= n < 600
  {
    match c
    case BadRequest => 400
    case Unauthorized => 401
    case Forbidden => 403
    case NotFound => 404
    case Internal => 500
  }

  /** What a handler answers: 200 with a body, or one of the error codes. */
  datatype Reply<+T> = Ok(value: T) | Fail(code: Code)

  function StatusOf<T>(r: Reply<T>): (n: nat)
    ensures n == 200 <==> r.Ok?
  {
    match r
    case Ok(_) => 200
    case Fail(c) => HttpStatus(c)
  }

  /** A request string field passes a JavaScript truthiness test
      (`!field` is false) exactly when it is there and not empty. */
  predicate Present(field: Option<string>) {
    field.Some? && field.value != ""
  }
}
