/** The responses a route handler sends. Every handler either answers with a
    value (200 or 201) or with an error status and a `{message}` body. */
module Http {

  /** A document path that a Mongoose validator rejected. */
  datatype Path =
    | Field(name: string)
    | SlotField(index: nat, name: string)

  /** The error kinds the handlers send. */
  datatype Error =
    | NotFound                          // 404: the referenced record is absent
    | Forbidden                         // 403: the record exists, the caller may not touch it
    | SlotBooked                        // 400 'Time slot is already booked'
    | ProfileExists                     // 400 'Doctor profile already exists'
    | UserExists                        // 400 'User already exists'
    | InvalidCredentials                // 400 'Invalid credentials'
    | ValidationFailed(paths: set<Path>) // 500: a save() rejected by schema validation

  datatype Outcome<+T> = Ok(value: T) | Fail(error: Error)

  /** The new contents of the collection a handler writes, with its response. */
  datatype Step<+S, +T> = Step(next: S, response: Outcome<T>)

  /** The HTTP status the handler sends for each error kind; a validation
      failure escapes as an exception and reaches the catch-all handler. */
  function StatusCode(e: Error): (code: nat)
    ensures 400 <= code < 600
    ensures code == 500 <==> e.ValidationFailed?
    ensures code == 404 <==> e == NotFound
    ensures code == 403 <==> e == Forbidden
    ensures code == 400 <==> e in {SlotBooked, ProfileExists, UserExists, InvalidCredentials}
  {
    match e
    case NotFound => 404
    case Forbidden => 403
    case SlotBooked => 400
    case ProfileExists => 400
    case UserExists => 400
    case InvalidCredentials => 400
    case ValidationFailed(_) => 500
  }
}
