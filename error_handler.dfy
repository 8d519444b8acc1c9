/**
  The error-handling middleware `errorHandler`: normalise whatever was thrown to
  an ApiError, build the error envelope, and answer with its status code.
  Logging and the removal of uploaded files are effects; the model reports
  whether the removal runs.
*/
module ErrorHandler {
  import opened Common
  import opened UserModel
  import opened AuthService

  const DEFAULT_MESSAGE := "Error: Something went wrong"
  const DEVELOPMENT := "development"

  /** A thrown value: an ApiError, a Mongoose error, or any other error; messages and stacks may be undefined. */
  datatype Thrown =
    | ApiErr(error: ApiError, stack: Option<string>)
    | MongooseErr(message: Option<string>, stack: Option<string>)
    | OtherErr(message: Option<string>, stack: Option<string>)

  /** The ApiError the handler works with, and its stack. */
  datatype Normalized = Normalized(error: ApiError, stack: Option<string>)

  /** The JSON body; `stack` is the key that is present only in development (its value may be undefined). */
  datatype Envelope = Envelope(statusCode: int, success: bool, message: string, stack: Option<Option<string>>)

  /** What the handler does: the status sent, the body, and whether uploaded files are removed. */
  datatype Handled = Handled(status: int, body: Envelope, cleanup: bool)

  /** An ApiError passes unchanged; anything else becomes 400 (Mongoose) or 500, with the default message when it has none. */
  function Normalize(t: Thrown): (n: Normalized)
    ensures t.ApiErr? ==> n == Normalized(t.error, t.stack)
    ensures t.MongooseErr? ==> n.error.statusCode == BAD_REQUEST
    ensures t.OtherErr? ==> n.error.statusCode == INTERNAL_SERVER_ERROR
    ensures !t.ApiErr? ==> n.stack == t.stack
    ensures !t.ApiErr? && Truthy(t.message) ==> n.error.message == t.message.value
    ensures !t.ApiErr? && !Truthy(t.message) ==> n.error.message == DEFAULT_MESSAGE
  {
    match t
    case ApiErr(e, stack) => Normalized(e, stack)
    case MongooseErr(message, stack) =>
      Normalized(ApiError(BAD_REQUEST, if Truthy(message) then message.value else DEFAULT_MESSAGE), stack)
    case OtherErr(message, stack) =>
      Normalized(ApiError(INTERNAL_SERVER_ERROR, if Truthy(message) then message.value else DEFAULT_MESSAGE), stack)
  }

  /** `errorHandler(err, req, res, next)` under `NODE_ENV = nodeEnv`, for a request with or without `file` / `files`. */
  function HandleError(t: Thrown, nodeEnv: Option<string>, hasFile: bool, hasFiles: bool): (h: Handled)
    ensures h.status == h.body.statusCode == Normalize(t).error.statusCode
    ensures !h.body.success
    ensures h.body.message == Normalize(t).error.message
    ensures h.body.stack.Some? <==> nodeEnv == Some(DEVELOPMENT)
    ensures h.body.stack.Some? ==> h.body.stack.value == Normalize(t).stack
    ensures h.cleanup <==> hasFile || hasFiles
  {
    var n := Normalize(t);
    var body := Envelope(n.error.statusCode, false, n.error.message,
                         if nodeEnv == Some(DEVELOPMENT) then Some(n.stack) else None);
    Handled(body.statusCode, body, hasFile || hasFiles)
  }

  /** Normalising is idempotent: re-throwing the ApiError the handler built is served identically. */
  lemma NormalizeIdempotent(t: Thrown, nodeEnv: Option<string>, hasFile: bool, hasFiles: bool)
    ensures var n := Normalize(t);
            HandleError(ApiErr(n.error, n.stack), nodeEnv, hasFile, hasFiles) == HandleError(t, nodeEnv, hasFile, hasFiles)
  {
  }

  /** How a service failure is thrown: ApiErrors as they are; storage errors as Mongoose or driver errors. */
  function ThrownOf(f: Fault, message: Option<string>, stack: Option<string>): (t: Thrown)
    ensures f.Api? ==> t == ApiErr(f.apiError, stack)
    ensures f.Storage? && f.dbError.ValidationError? ==> t.MongooseErr?
    ensures f.Storage? && f.dbError.DuplicateKey? ==> t.OtherErr?
  {
    match f
    case Api(e) => ApiErr(e, stack)
    case Storage(ValidationError(_)) => MongooseErr(message, stack)
    case Storage(DuplicateKey(_)) => OtherErr(message, stack)
  }

  /**
    The status a service failure reaches the client with: an ApiError's own code,
    400 for a failed schema validation, and 500 for a unique-index violation
    (the driver's error is not a Mongoose error).
  */
  lemma FaultStatus(f: Fault, message: Option<string>, stack: Option<string>, nodeEnv: Option<string>)
    ensures var h := HandleError(ThrownOf(f, message, stack), nodeEnv, false, false);
            && (f.Api? ==> h.status == f.apiError.statusCode && h.body.message == f.apiError.message)
            && (f.Storage? && f.dbError.ValidationError? ==> h.status == BAD_REQUEST)
            && (f.Storage? && f.dbError.DuplicateKey? ==> h.status == INTERNAL_SERVER_ERROR)
  {
  }
}
