/**
 * The error values the services throw: an `ApiError` carries an HTTP
 * status and a message; anything else thrown inside a service (a failed
 * write, a property read on `null`, a call of a missing method) is an
 * internal failure with its own message. A service's outcome is a value or
 * the error it throws.
 */
module ApiErrors {
  const BadRequest: nat := 400
  const NotFound: nat := 404
  const InternalServerError: nat := 500

  datatype ApiError = ApiError(status: nat, message: string)

  /** What a service can throw. */
  datatype Thrown = Api(error: ApiError) | Internal(message: string)

  /** The outcome of a service call. */
  datatype Outcome<+T> = Ok(value: T) | Fails(thrown: Thrown) {
    predicate IsFailure() { Fails? }
    function PropagateFailure<U>(): Outcome<U> requires Fails? { Fails(thrown) }
    function Extract(): T requires Ok? { value }
  }

  function Throw<T>(status: nat, message: string): Outcome<T> {
    Fails(Api(ApiError(status, message)))
  }

  /**
   * The catch block shared by the services: an `ApiError` is thrown on
   * unchanged, anything else becomes a 500 with the operation's message.
   */
  function Rewrap(t: Thrown, message: string): (e: ApiError)
    ensures t.Api? ==> e == t.error
    ensures t.Internal? ==> e == ApiError(InternalServerError, message)
  {
    match t
    case Api(e) => e
    case Internal(_) => ApiError(InternalServerError, message)
  }

  /** What the caller sees of an outcome once the catch block has run. */
  function Caught<T>(r: Outcome<T>, message: string): (c: Outcome<T>)
    ensures r.Ok? ==> c == r
    ensures r.Fails? ==> c == Fails(Api(Rewrap(r.thrown, message)))
    ensures c.Fails? ==> c.thrown.Api?
    ensures c.Fails? && c.thrown.error.status != InternalServerError ==> c == r
  {
    match r
    case Ok(_) => r
    case Fails(t) => Fails(Api(Rewrap(t, message)))
  }

  /**
   * A catch block around a call that has its own catch block passes the
   * inner error on unchanged: the outer message never replaces the inner one.
   */
  lemma CaughtTwice<T>(r: Outcome<T>, inner: string, outer: string)
    ensures Caught(Caught(r, inner), outer) == Caught(r, inner)
  {
  }
}
