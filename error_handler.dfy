/** The global error handler (server/src/middleware/error-handler.ts): the
    code-to-status table and the classification of a thrown error into a
    JSON error response. Logging is left out. */
module ErrorHandler {
  import opened Results
  import opened Errors

  /** `getStatusCode`: each code falls into one of four client-error classes;
      the `default: 500` branch is never taken by an ErrorCode. */
  function StatusCode(c: ErrorCode): (status: nat)
    ensures status == 401 <==> c == Unauthorized
    ensures status == 403 <==> c == Forbidden || c == NotWorkspaceOwner || c == NotWorkspaceMember
    ensures status == 404 <==> c == NotFound
    ensures status == 400 <==>
      c == ValidationError || c == CannotWaveSelf || c == WaveAlreadyResponded ||
      c == AlreadyMember || c == InviteExpired || c == InviteMaxUsesReached ||
      c == WorkspaceLimitExceeded || c == MemberLimitExceeded
    ensures status != 500
  {
    match c
    case Unauthorized => 401
    case Forbidden => 403
    case NotWorkspaceOwner => 403
    case NotWorkspaceMember => 403
    case NotFound => 404
    case ValidationError => 400
    case CannotWaveSelf => 400
    case WaveAlreadyResponded => 400
    case AlreadyMember => 400
    case InviteExpired => 400
    case InviteMaxUsesReached => 400
    case WorkspaceLimitExceeded => 400
    case MemberLimitExceeded => 400
  }

  /** What reaches the handler: an AppError, or any other thrown error with
      its `name`, its optional numeric `status` and its `message` (a zod
      validation error, a database error, a programming error). */
  datatype RaisedError =
    | AppRaised(error: AppError)
    | OtherRaised(name: string, status: Option<int>, message: string)

  datatype ErrorResponse = ErrorResponse(status: nat, body: ErrorBody)

  predicate IsValidationFailure(e: RaisedError)
    requires e.OtherRaised?
  {
    e.name == "ZodError" || e.status == Some(400)
  }

  /** `errorHandler(err, c)`; `nodeEnv` is `process.env.NODE_ENV`. */
  function HandleError(e: RaisedError, nodeEnv: string): (r: ErrorResponse)
    ensures e.AppRaised? ==>
      r.status == StatusCode(e.error.code) && r.body == e.error.ToJson()
    ensures e.OtherRaised? && IsValidationFailure(e) ==>
      r == ErrorResponse(400, ErrorBody("VALIDATION_ERROR", e.message))
    ensures e.OtherRaised? && !IsValidationFailure(e) ==>
      r.status == 500 && r.body.code == "INTERNAL_ERROR" &&
      r.body.message == (if nodeEnv == "production" then "Internal server error" else e.message)
  {
    match e
    case AppRaised(err) =>
      ErrorResponse(StatusCode(err.code), ErrorBody(CodeString(err.code), err.message))
    case OtherRaised(name, status, message) =>
      if name == "ZodError" || status == Some(400) then
        ErrorResponse(400, ErrorBody(CodeString(ValidationError), message))
      else
        ErrorResponse(500, ErrorBody("INTERNAL_ERROR",
          if nodeEnv == "production" then "Internal server error" else message))
  }

  /** Statuses the handler can produce, and which kinds of error give 500:
      an AppError never does, everything unclassified always does. */
  lemma {:induction false} HandlerStatusClasses(e: RaisedError, nodeEnv: string)
    ensures HandleError(e, nodeEnv).status in {400, 401, 403, 404, 500}
    ensures HandleError(e, nodeEnv).status == 500 <==> e.OtherRaised? && !IsValidationFailure(e)
    ensures e.AppRaised? ==> ParseCode(HandleError(e, nodeEnv).body.code) == Some(e.error.code)
  {
    match e
    case AppRaised(err) =>
      var s := StatusCode(err.code);
      assert s == 400 || s == 401 || s == 403 || s == 404 by {
        match err.code
        case _ =>
      }
    case OtherRaised(_, _, _) =>
  }
}
