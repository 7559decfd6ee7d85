/** Shared shapes of every endpoint: the caller identity the authentication
    layer attaches to a request, optional request fields, and the outcome of
    an endpoint, either a value or an HTTP status code with a detail string. */
module Responses {

  /** The verified `(user_id, username, email)` triple of the caller. */
  datatype Identity = Identity(userId: int, username: string, email: string)

  datatype Option<T> = None | Some(value: T)

  /** What an endpoint returns: a payload, or the status code and `detail`
      of the HTTPException it raises. */
  datatype Result<T> = Ok(value: T) | Err(code: int, detail: string)

  const BadRequest := 400
  const Forbidden := 403
  const NotFound := 404
  /** An IntegrityError raised by a database unique constraint at commit. */
  const ServerError := 500

  /** A request string field counts as given when Python would find it truthy. */
  predicate Truthy(s: Option<string>) {
    s.Some? && s.value != ""
  }

  /** A request integer field counts as given when Python would find it truthy. */
  predicate TruthyId(n: Option<int>) {
    n.Some? && n.value != 0
  }

  /** An element of a non-empty set (the rows a loop still has to visit). */
  method PickFrom<T>(s: set<T>) returns (x: T)
    requires s != {}
    ensures x in s
  {
    if forall y :: y !in s {
      assert false;
    }
    x :| x in s;
  }
}
