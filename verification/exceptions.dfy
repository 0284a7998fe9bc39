/** The application's exception hierarchy (`app/core/exceptions.py`), the
    `str()` of each exception, and the three handlers that turn an
    exception escaping an endpoint into an HTTP response. */
module Exceptions {
  import opened Wrappers
  import opened Strings

  /** `details: Dict[str, Any]`, with every value rendered as text. */
  type Details = seq<(string, string)>

  /** The concrete subclasses of `BaseCustomException`. */
  datatype ErrorClass =
    | BaseCustom
    | ModelLoad
    | AudioProcessing
    | ImageProcessing
    | VideoProcessing
    | Database
    | ExternalService
    | Validation
    | InsufficientStorage

  /** An exception as seen by the error mapping code: one of the custom
      classes, FastAPI's `HTTPException`, or anything else (kept only as
      its `str()`). */
  datatype Exception =
    | Custom(cls: ErrorClass, message: string, statusCode: int, details: Details)
    | Http(status: int, detail: string)
    | Other(text: string)

  const HTTP_400: int := 400
  const HTTP_404: int := 404
  const HTTP_413: int := 413
  const HTTP_422: int := 422
  const HTTP_500: int := 500
  const HTTP_503: int := 503
  const HTTP_507: int := 507

  /** `type(exc).__name__`. */
  function ClassName(c: ErrorClass): string
  {
    match c
    case BaseCustom => "BaseCustomException"
    case ModelLoad => "ModelLoadError"
    case AudioProcessing => "AudioProcessingError"
    case ImageProcessing => "ImageProcessingError"
    case VideoProcessing => "VideoProcessingError"
    case Database => "DatabaseError"
    case ExternalService => "ExternalServiceError"
    case Validation => "ValidationError"
    case InsufficientStorage => "InsufficientStorageError"
  }

  /** The status code each subclass passes to the base constructor. */
  function StatusOf(c: ErrorClass): int
  {
    match c
    case BaseCustom => HTTP_500
    case ModelLoad => HTTP_503
    case AudioProcessing => HTTP_422
    case ImageProcessing => HTTP_422
    case VideoProcessing => HTTP_422
    case Database => HTTP_500
    case ExternalService => HTTP_503
    case Validation => HTTP_422
    case InsufficientStorage => HTTP_507
  }

  /** The fixed text that precedes the constructor's argument in the message
      of the single-argument subclasses. */
  function MessagePrefix(c: ErrorClass): string
    requires c != BaseCustom && c != Validation
  {
    match c
    case ModelLoad => "Failed to load AI model: "
    case AudioProcessing => "Audio processing failed during: "
    case ImageProcessing => "Image processing failed during: "
    case VideoProcessing => "Video processing failed during: "
    case Database => "Database operation failed: "
    case ExternalService => "External service unavailable: "
    case InsufficientStorage => "Insufficient storage space. Required: "
  }

  /** `BaseCustomException(message, status_code=500, details=None)`:
      a missing status defaults to 500 and missing details to `{}`. */
  function NewBaseException(message: string, statusCode: Option<int>, details: Option<Details>): (e: Exception)
    ensures e.Custom? && e.cls == BaseCustom && e.message == message
    ensures statusCode.None? ==> e.statusCode == HTTP_500
    ensures details.None? ==> e.details == []
  {
    Custom(BaseCustom, message, statusCode.GetOr(HTTP_500), details.GetOr([]))
  }

  /** The constructor of every single-argument subclass, e.g.
      `VideoProcessingError(operation, details)`. */
  function Raise(c: ErrorClass, arg: string, details: Option<Details>): (e: Exception)
    requires c != BaseCustom && c != Validation
    ensures e.Custom? && e.cls == c && e.statusCode == StatusOf(c)
    ensures StartsWith(e.message, MessagePrefix(c))
    ensures details.None? ==> e.details == []
  {
    Custom(c, MessagePrefix(c) + arg, StatusOf(c), details.GetOr([]))
  }

  /** `ValidationError(field, value, details)`. */
  function NewValidationError(field: string, value: string, details: Option<Details>): (e: Exception)
    ensures e.Custom? && e.cls == Validation && e.statusCode == HTTP_422
    ensures StartsWith(e.message, "Validation failed for field '")
  {
    Custom(Validation, "Validation failed for field '" + field + "' with value: " + value,
           HTTP_422, details.GetOr([]))
  }

  /** The argument a single-argument exception was built with, read back
      from its message. */
  function ArgumentOf(c: ErrorClass, message: string): string
    requires c != BaseCustom && c != Validation
  {
    if StartsWith(message, MessagePrefix(c)) then message[|MessagePrefix(c)|..] else message
  }

  /** The message of a single-argument exception determines its argument. */
  lemma ArgumentRoundTrip(c: ErrorClass, arg: string, details: Option<Details>)
    requires c != BaseCustom && c != Validation
    ensures ArgumentOf(c, Raise(c, arg, details).message) == arg
  {
    var p := MessagePrefix(c);
    assert (p + arg)[|p|..] == arg;
  }

  /** `str(exc)`: the message for custom exceptions (it is what they pass
      to `Exception.__init__`), `"{status}: {detail}"` for `HTTPException`. */
  function Str(e: Exception): (r: string)
    ensures e.Custom? ==> r == e.message
    ensures e.Http? ==> StartsWith(r, IntToString(e.status) + ": ")
  {
    match e
    case Custom(_, m, _, _) => m
    case Http(s, d) => IntToString(s) + ": " + d
    case Other(t) => t
  }

  /** The JSON body of an error response; `details` is absent from the
      bodies of the HTTP and general handlers. */
  datatype ErrorBody = ErrorBody(error: bool, message: string, details: Option<Details>, typeName: string)

  datatype ErrorResponse = ErrorResponse(status: int, body: ErrorBody)

  /** The handler registered for the exception's class: the custom
      handler, the HTTP handler or the catch-all handler. */
  function Handle(e: Exception): (r: ErrorResponse)
    ensures r.body.error
    ensures e.Custom? ==> r == ErrorResponse(e.statusCode, ErrorBody(true, e.message, Some(e.details), ClassName(e.cls)))
    ensures e.Http? ==> r == ErrorResponse(e.status, ErrorBody(true, e.detail, None, "HTTPException"))
    ensures e.Other? ==> r.status == HTTP_500 && r.body.details.None?
  {
    match e
    case Custom(c, m, s, d) => ErrorResponse(s, ErrorBody(true, m, Some(d), ClassName(c)))
    case Http(s, d) => ErrorResponse(s, ErrorBody(true, d, None, "HTTPException"))
    case Other(_) => ErrorResponse(HTTP_500, ErrorBody(true, "Internal server error occurred", None, "InternalServerError"))
  }

  /** A custom exception built by a subclass constructor is answered with
      that subclass's status code and class name, and its full message. */
  lemma HandleRaised(c: ErrorClass, arg: string, details: Option<Details>)
    requires c != BaseCustom && c != Validation
    ensures Handle(Raise(c, arg, details)).status == StatusOf(c)
    ensures Handle(Raise(c, arg, details)).body.typeName == ClassName(c)
    ensures ArgumentOf(c, Handle(Raise(c, arg, details)).body.message) == arg
  {
    ArgumentRoundTrip(c, arg, details);
  }

  /** The catch-all handler's response does not depend on the exception:
      no exception text reaches the client. */
  lemma GeneralHandlerHidesText(a: string, b: string)
    ensures Handle(Other(a)) == Handle(Other(b))
    ensures Handle(Other(a)).body.message == "Internal server error occurred"
  {
  }

  /** The error mapping of the upload-style endpoints: an `HTTPException`
      is re-raised, the endpoint's own processing error becomes a 400
      carrying its `str()`, and anything else a 503 with a fixed text. */
  function MapServiceError(e: Exception, own: ErrorClass, unavailable: string): (r: Exception)
    ensures r.Http?
    ensures e.Http? ==> r == e
    ensures e.Custom? && e.cls == own ==> r == Http(HTTP_400, e.message)
    ensures !e.Http? && !(e.Custom? && e.cls == own) ==> r == Http(HTTP_503, unavailable)
  {
    match e
    case Http(_, _) => e
    case Custom(c, m, _, _) => if c == own then Http(HTTP_400, m) else Http(HTTP_503, unavailable)
    case Other(_) => Http(HTTP_503, unavailable)
  }

  /** Mapping is idempotent: what it produces passes through it unchanged,
      so an error mapped by an inner handler is not mapped twice. */
  lemma MapServiceErrorIdempotent(e: Exception, own: ErrorClass, unavailable: string)
    ensures MapServiceError(MapServiceError(e, own, unavailable), own, unavailable) == MapServiceError(e, own, unavailable)
  {
  }

  /** The error mapping of the endpoints that run a processing step
      directly: the processing error becomes a 422 carrying its message,
      and anything else, an `HTTPException` included, a 500 whose detail
      is `prefix` followed by the exception's `str()`. */
  function MapProcessingError(e: Exception, own: ErrorClass, prefix: string): (r: Exception)
    ensures r.Http?
    ensures e.Custom? && e.cls == own ==> r == Http(HTTP_422, e.message)
    ensures !(e.Custom? && e.cls == own) ==> r == Http(HTTP_500, prefix + Str(e))
  {
    if e.Custom? && e.cls == own then Http(HTTP_422, e.message) else Http(HTTP_500, prefix + Str(e))
  }

  /** An `HTTPException` raised inside such an endpoint reaches the client
      as a 500 whose detail still shows the original status. */
  lemma InnerHttpBecomes500(status: int, detail: string, own: ErrorClass, prefix: string)
    ensures MapProcessingError(Http(status, detail), own, prefix).status == HTTP_500
    ensures StartsWith(MapProcessingError(Http(status, detail), own, prefix).detail, prefix + IntToString(status) + ": ")
  {
    var s := prefix + Str(Http(status, detail));
    assert s == (prefix + IntToString(status) + ": ") + detail;
  }
}
