/** The answers the controllers give, with the HTTP status each one is sent with. */
module Outcomes {

  datatype Option<+T> = None | Some(value: T)

  /** The error statuses the controllers answer with. */
  datatype Status = BadRequest | Unauthorized | Forbidden | NotFound | Conflict | ServerError {
    function Code(): int {
      match this
      case BadRequest => 400
      case Unauthorized => 401
      case Forbidden => 403
      case NotFound => 404
      case Conflict => 409
      case ServerError => 500
    }
  }

  /** A controller's answer: a success value, or an error status. */
  datatype Outcome<+T> = Ok(value: T) | Fail(status: Status)
}
