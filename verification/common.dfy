/** Vocabulary shared by every route handler of the forum back-end:
    optional values, opaque identifiers and the HTTP statuses the
    handlers answer with. */
module Common {

  /** Opaque row identifier (a UUID string in the store). The empty string
      stands for a missing request field, as JavaScript treats it as falsy. */
  type Id = string

  datatype Option<+T> = None | Some(value: T) {
    function GetOr(default: T): T {
      match this
      case Some(v) => v
      case None => default
    }
  }

  const BadRequest: int := 400
  const Unauthorized: int := 401
  const Forbidden: int := 403
  const NotFound: int := 404
  const Conflict: int := 409
  const ServerError: int := 500

  /** What a handler answers: an error status, or a value serialised as the
      success body. */
  datatype Outcome<+T> = Rejected(status: int) | Done(value: T)
}
