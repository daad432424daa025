/**
 * The request boundary the route handlers share: the session that `auth()`
 * resolves, and the JSON response with its status code.
 */
module Http {
  import opened Wrappers

  /** `session.user`; an empty `id` stands for a user without an id. */
  datatype SessionUser = SessionUser(id: string)

  type Session = Option<SessionUser>

  /** `session?.user?.id` when it is truthy: the caller that mutating handlers require. */
  function CallerId(session: Session): (r: Option<string>)
    ensures r.Some? <==> session.Some? && session.value.id != []
    ensures r.Some? ==> r.value == session.value.id && r.value != []
  {
    if session.Some? && session.value.id != [] then Some(session.value.id) else None
  }

  /** A handler's response: the error bodies are fixed, successes carry a value. */
  datatype Response<+T> =
    | Unauthorized
    | BadRequest(error: string)
    | Ok(body: T)
    | Created(body: T)
    | ServerError
  {
    function Status(): int {
      match this
      case Unauthorized => 401
      case BadRequest(_) => 400
      case Ok(_) => 200
      case Created(_) => 201
      case ServerError => 500
    }

    predicate Success() {
      Ok? || Created?
    }
  }
}
