/**
 * src/middlewares/error.middleware.js: the 404 fallback, the conversion of anything thrown into
 * an ApiError, and the JSON error response.
 */
module ErrorMiddleware {
  import opened Wrappers
  import opened Config
  import opened Errors

  const ResourceNotFound: string := "Resource not found"
  const InternalServerError: string := "Internal server error"

  /** `notFoundHandler`: every unmatched route becomes an operational 404. */
  function NotFoundHandler(): (e: ApiError)
    ensures e.statusCode == 404 && e.message == ResourceNotFound && e.isOperational && e.details.None?
  {
    ApiError(404, ResourceNotFound, true, None)
  }

  /** A status code, or the fallback when the code is falsy in JavaScript (absent or 0). */
  function StatusOr(code: Option<int>, fallback: int): int {
    if code.Some? && code.value != 0 then code.value else fallback
  }

  /**
   * `errorConverter`: an ApiError passes through unchanged; anything else becomes a
   * non-operational ApiError with its status (500 when falsy) and message (a fixed text when
   * empty), without details.
   */
  function ErrorConverter(t: Thrown): (e: ApiError)
    ensures t.Api? ==> e == t.error
    ensures t.Raw? ==> && !e.isOperational && e.details.None?
                       && e.statusCode == StatusOr(t.statusCode, 500)
                       && e.message == (if t.message != "" then t.message else InternalServerError)
  {
    match t
    case Api(e) => e
    case Raw(code, message) =>
      ApiError(StatusOr(code, 500), if message != "" then message else InternalServerError, false, None)
  }

  /** Converting an already converted error changes nothing. */
  lemma ConverterIdempotent(t: Thrown)
    ensures ErrorConverter(Api(ErrorConverter(t))) == ErrorConverter(t)
  {
  }

  /** A raw error never reaches the client as a 0 status or an empty message. */
  lemma RawErrorsGetStatusAndMessage(t: Thrown)
    requires t.Raw?
    ensures ErrorConverter(t).statusCode != 0
    ensures ErrorConverter(t).message != ""
  {
  }

  /** The JSON error body and the HTTP status it is sent with. */
  datatype Response = Response(status: int, code: int, message: string, details: Option<Details>, stack: Option<string>)

  /** The `includeStack` flag the app passes: the environment (NODE_ENV, "development" when unset or empty) is not "production". */
  function IncludeStack(nodeEnv: Option<string>): bool {
    var env := if nodeEnv.Some? && nodeEnv.value != "" then nodeEnv.value else DefaultEnv;
    env != "production"
  }

  /**
   * `errorHandler`: the status and the body's code are both the error's status (500 when falsy),
   * the message is copied, details appear exactly when the error has them, and the stack (a
   * runtime value, passed in) appears only when stacks are included and one exists.
   */
  function ErrorHandler(err: ApiError, stack: Option<string>, includeStack: bool): (resp: Response)
    ensures resp.status == resp.code == StatusOr(Some(err.statusCode), 500)
    ensures resp.message == err.message
    ensures resp.details.Some? <==> err.details.Some?
    ensures resp.details.Some? ==> resp.details == err.details
    ensures resp.stack.Some? <==> includeStack && stack.Some? && stack.value != ""
    ensures resp.stack.Some? ==> resp.stack == stack
  {
    var status := StatusOr(Some(err.statusCode), 500);
    Response(status, status, err.message, err.details,
      if includeStack && stack.Some? && stack.value != "" then stack else None)
  }

  /** The whole error chain for something thrown: convert, then respond. */
  function Respond(t: Thrown, stack: Option<string>, nodeEnv: Option<string>): Response {
    ErrorHandler(ErrorConverter(t), stack, IncludeStack(nodeEnv))
  }

  /** An ApiError with a status reaches the client with that status and message. */
  lemma ApiErrorResponse(e: ApiError, stack: Option<string>, nodeEnv: Option<string>)
    requires e.statusCode != 0
    ensures var resp := Respond(Api(e), stack, nodeEnv);
      resp.status == e.statusCode && resp.code == e.statusCode && resp.message == e.message
  {
  }

  /** An unmatched route is answered 404 "Resource not found". */
  lemma NotFoundResponse(stack: Option<string>, nodeEnv: Option<string>)
    ensures var resp := Respond(Api(NotFoundHandler()), stack, nodeEnv);
      resp.status == 404 && resp.message == ResourceNotFound && resp.details.None?
  {
  }

  /** In production no response carries a stack. */
  lemma ProductionHidesStack(t: Thrown, stack: Option<string>)
    ensures Respond(t, stack, Some("production")).stack.None?
  {
  }
}
