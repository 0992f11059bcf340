/** The error taxonomy: the `HttpException` subclasses with their fixed status codes and default
    messages, the failures the persistence layer raises on its own, and the result wrappers the
    services return instead of throwing. */
module Errors {

  datatype Option<+T> = None | Some(value: T)

  /** One constructor per subclass of `HttpException`. */
  datatype ExceptionKind = BadRequest | Unauthorized | NotFound | Conflict | InternalServerError

  /** The status code each subclass passes to the `HttpException` constructor. */
  function Status(k: ExceptionKind): int
  {
    match k
    case BadRequest => 400
    case Unauthorized => 401
    case NotFound => 404
    case Conflict => 409
    case InternalServerError => 500
  }

  /** The message each subclass uses when it is constructed without one. */
  function DefaultMessage(k: ExceptionKind): string
  {
    match k
    case BadRequest => "Bad request"
    case Unauthorized => "Unauthorized"
    case NotFound => "Not found"
    case Conflict => "Conflict"
    case InternalServerError => "Internal server error"
  }

  /** An `HttpException`: a status and a message, both fixed once constructed. */
  datatype HttpException = HttpException(status: int, message: string)

  /** Reads the subclass back from a status code; the inverse of `Status`. */
  function KindOf(status: int): (k: Option<ExceptionKind>)
    ensures k.Some? <==> status in {400, 401, 404, 409, 500}
    ensures k.Some? ==> Status(k.value) == status
  {
    if status == 400 then Some(BadRequest)
    else if status == 401 then Some(Unauthorized)
    else if status == 404 then Some(NotFound)
    else if status == 409 then Some(Conflict)
    else if status == 500 then Some(InternalServerError)
    else None
  }

  /** `new XxxException(message?)`. The subclass fixes the status; an explicit message replaces the
      default one. */
  function Raise(k: ExceptionKind, message: Option<string>): (e: HttpException)
    ensures KindOf(e.status) == Some(k)
    ensures message.Some? ==> e.message == message.value
    ensures message.None? ==> e.message == DefaultMessage(k)
  {
    HttpException(Status(k), match message case Some(m) => m case None => DefaultMessage(k))
  }

  /** Distinct subclasses never share a status code, so a status identifies the error kind. */
  lemma StatusInjective(k1: ExceptionKind, k2: ExceptionKind)
    ensures Status(k1) == Status(k2) ==> k1 == k2
  {
  }

  /** Failures raised by the persistence layer itself rather than by a service. They reach the
      caller as the store's own errors (no HTTP status of their own). */
  datatype StoreError =
    | MissingRequired(paths: seq<string>)   // schema `required` check; the failing paths in schema order
    | BelowMinimum(path: string)            // schema `min` check
    | DuplicateKey                          // a unique index would be violated

  datatype Failure = Http(exception: HttpException) | Rejected(error: StoreError)

  /** What a service call that returns a value ends with. */
  datatype Result<+T> = Ok(value: T) | Err(failure: Failure)

  /** What a service call that returns nothing ends with. */
  datatype Outcome = Pass | Fail(failure: Failure)

  function BadRequestException(message: string): Failure
  {
    Http(Raise(BadRequest, Some(message)))
  }

  function UnauthorizedException(message: string): Failure
  {
    Http(Raise(Unauthorized, Some(message)))
  }

  function NotFoundException(message: string): Failure
  {
    Http(Raise(NotFound, Some(message)))
  }

  function ConflictException(message: string): Failure
  {
    Http(Raise(Conflict, Some(message)))
  }
}
