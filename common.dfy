/** Values shared by every part of the delivery backend: optional values,
    results carrying a thrown error, the roles of an authenticated caller,
    and the clock. */
module Common {

  datatype Option<T> = None | Some(value: T) {
    function GetOr(default: T): T {
      match this
      case Some(v) => v
      case None => default
    }
  }

  /** The `type` an AppError is given ("validation", "authorization",
      "state"); NotFoundError and an AppError built without a type get
      their own marker. */
  datatype Kind = Validation | Authorization | State | NotFoundKind | Unspecified

  /** An error thrown by a handler, described by exactly the properties the
      error handler inspects: whether it is a ZodError, its `code` (empty
      when absent), its `statusCode` (0 when absent), plus the AppError type
      and the message. */
  datatype Thrown = Thrown(zod: bool, code: string, statusCode: int, kind: Kind, message: string)

  function NotFoundError(message: string): Thrown {
    Thrown(false, "", 404, NotFoundKind, message)
  }

  function AppError(message: string, statusCode: int, kind: Kind): Thrown {
    Thrown(false, "", statusCode, kind, message)
  }

  /** `new AppError(message)` without a status: the class defaults to 400. */
  function PlainAppError(message: string): Thrown {
    Thrown(false, "", 400, Unspecified, message)
  }

  function ForbiddenError(): Thrown {
    AppError("Forbidden", 403, Authorization)
  }

  function ZodError(details: string): Thrown {
    Thrown(true, "", 0, Validation, details)
  }

  /** An error raised by the relational store: it carries a non-empty code. */
  function StoreError(code: string, message: string): Thrown
    requires code != ""
  {
    Thrown(false, code, 0, Unspecified, message)
  }

  /** A TypeError, as reading a property of `undefined` raises: it has
      neither a code nor a status. */
  function TypeError(message: string): Thrown {
    Thrown(false, "", 0, Unspecified, message)
  }

  datatype Result<T> = Ok(value: T) | Err(error: Thrown) {
    predicate IsFailure() { Err? }

    function PropagateFailure<U>(): Result<U>
      requires Err?
    {
      Err(error)
    }

    function Extract(): T
      requires Ok?
    {
      value
    }
  }

  /** The roles a token may carry; OtherRole stands for any other string. */
  datatype Role = Customer | RestaurantOwner | Admin | OtherRole

  function RoleName(r: Role): string {
    match r
    case Customer => "customer"
    case RestaurantOwner => "restaurant_owner"
    case Admin => "admin"
    case OtherRole => "other"
  }

  /** `req.user` as the handlers read it: `{ user_id, role }`. */
  datatype Principal = Principal(userId: int, role: Role)

  /** Instants in milliseconds since the epoch, read from a clock that is a
      parameter of every operation that needs it. */
  type Time = int

  const MinuteMs: int := 60000
}
