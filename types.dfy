/** Values shared by the user and cat request pipelines: optional values, the
    outcome of a handler or a store operation, the `MessageResponse` body and
    the authenticated principal. */
module Types {

  datatype Option<T> = None | Some(value: T) {
    function GetOr(default: T): T {
      match this
      case Some(v) => v
      case None => default
    }
  }

  /** What a handler or a store operation produces: a response body, or the
      message and status of the error that is forwarded to the single
      central error responder. */
  datatype Outcome<T> = Ok(body: T) | Err(message: string, status: int)

  /** The `{message, id?}` body of the write operations; `id` is set only by
      the insert. */
  datatype MessageResponse = MessageResponse(message: string, id: Option<int>)

  /** The principal (`req.user`) the authentication layer attaches to a
      request. `user_id` may be missing from the object, which
      `userPutCurrent` and `userDeleteCurrent` test for. */
  datatype Principal = Principal(user_id: Option<int>, role: string)

  const AdminRole := "admin"

  /** HTTP-equivalent statuses used by the core. */
  const BadRequest := 400
  const Forbidden := 403
  const NotFound := 404
}
