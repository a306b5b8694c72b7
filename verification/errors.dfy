/** The errors the service layer raises, each with the HTTP status the API answers with. */
module Errors {

  datatype Error =
      /** A resource with the requested name already exists. */
    | DuplicateName
      /** Admission refused: `active` sessions already run on a resource of this `capacity`. */
    | AtCapacity(active: nat, capacity: int)
      /** No resource has the requested id. */
    | ResourceNotFound
      /** No session with the requested id is currently active (missing or already stopped). */
    | ActiveSessionNotFound
      /** The database refused the commit: a NOT NULL or UNIQUE column constraint. */
    | IntegrityViolation
      /** Request-body validation failed; `fields` names every offending field. */
    | Unprocessable(fields: seq<string>)

  /** The HTTP status code the API returns for each error. */
  function Status(e: Error): (code: int)
    ensures code == 400 <==> e.DuplicateName? || e.AtCapacity?
    ensures code == 404 <==> e.ResourceNotFound? || e.ActiveSessionNotFound?
    ensures code == 422 <==> e.Unprocessable?
    ensures code == 500 <==> e.IntegrityViolation?
  {
    match e
    case DuplicateName => 400
    case AtCapacity(_, _) => 400
    case ResourceNotFound => 404
    case ActiveSessionNotFound => 404
    case Unprocessable(_) => 422
    case IntegrityViolation => 500
  }
}
