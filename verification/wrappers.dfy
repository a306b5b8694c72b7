/** `Option` stands for a nullable column or a lookup that may find nothing; `Result` for a
    service call that either returns or raises an HTTP error. */
module Wrappers {

  datatype Option<+T> = None | Some(value: T)

  /** The outcome of a service call: the value it returns, or the error it raises. A raised
      error ends the call there, as an exception does in the service layer; `:-` propagates it. */
  datatype Result<+T, +E> = Ok(value: T) | Err(error: E) {

    predicate IsFailure() {
      Err?
    }

    function PropagateFailure<U>(): Result<U, E>
      requires Err?
    {
      Err(error)
    }

    function Extract(): T
      requires Ok?
    {
      value
    }
  }

  /** A query that found no row becomes the given error (the service's `if not row: raise`). */
  function OrFail<T, E>(o: Option<T>, error: E): (r: Result<T, E>)
    ensures r.Ok? <==> o.Some?
    ensures r.Ok? ==> r.value == o.value
    ensures r.Err? ==> r.error == error
  {
    match o
    case Some(v) => Ok(v)
    case None => Err(error)
  }
}
