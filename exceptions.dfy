/**
 * The exceptions that reach the HTTP layer and `GlobalExceptionHandler`,
 * which turns each into an `ApiError` body and a status
 * (`exception/GlobalExceptionHandler.java`, `exception/ApiError.java`).
 */
module Exceptions {
  import opened Model

  /** The exception kinds the handler distinguishes. */
  datatype Exception =
    | ResourceNotFound(message: string)                           // ResourceNotFoundException
    | IllegalArgument(message: string)                            // IllegalArgumentException
    | ArgumentNotValid(fieldErrors: seq<string>, detail: string)  // MethodArgumentNotValidException
    | Unexpected(message: string)                                 // any other exception

  /** `ApiError(timestamp, status, error, message)`. */
  datatype ApiError = ApiError(timestamp: Timestamp, status: int, error: string, message: string)

  /** `ResponseEntity<ApiError>`: the HTTP status and the body. */
  datatype ErrorResponse = ErrorResponse(status: int, body: ApiError)

  const NOT_FOUND := 404
  const BAD_REQUEST := 400
  const INTERNAL_SERVER_ERROR := 500

  const GENERIC_MESSAGE := "An unexpected error occurred"

  /**
   * The handler for an exception, `now` standing for `LocalDateTime.now()`.
   * The body's status is always the response's; NotFound and
   * IllegalArgument pass their message through, a validation failure
   * reports its problem detail, and anything else a fixed message.
   */
  function Handle(ex: Exception, now: Timestamp): (r: ErrorResponse)
    ensures r.body.status == r.status && r.body.timestamp == now
    ensures ex.ResourceNotFound? ==>
              r.status == 404 && r.body.error == "Not Found" && r.body.message == ex.message
    ensures ex.IllegalArgument? ==>
              r.status == 400 && r.body.error == "Bad Request" && r.body.message == ex.message
    ensures ex.ArgumentNotValid? ==>
              r.status == 400 && r.body.error == "Bad Request" && r.body.message == ex.detail
    ensures ex.Unexpected? ==>
              r.status == 500 && r.body.error == "Internal Server Error" && r.body.message == GENERIC_MESSAGE
    ensures 400 <= r.status <= 599
  {
    match ex
    case ResourceNotFound(msg) =>
      ErrorResponse(NOT_FOUND, ApiError(now, NOT_FOUND, "Not Found", msg))
    case IllegalArgument(msg) =>
      ErrorResponse(BAD_REQUEST, ApiError(now, BAD_REQUEST, "Bad Request", msg))
    case ArgumentNotValid(_, detail) =>
      ErrorResponse(BAD_REQUEST, ApiError(now, BAD_REQUEST, "Bad Request", detail))
    case Unexpected(_) =>
      ErrorResponse(INTERNAL_SERVER_ERROR, ApiError(now, INTERNAL_SERVER_ERROR, "Internal Server Error", GENERIC_MESSAGE))
  }

  /** The text of an unexpected exception never reaches the client. */
  lemma UnexpectedTextHidden(a: string, b: string, now: Timestamp)
    ensures Handle(Unexpected(a), now) == Handle(Unexpected(b), now)
    ensures Handle(Unexpected(a), now).body.message != a || a == GENERIC_MESSAGE
  {
  }
}
