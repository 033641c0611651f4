/** The error taxonomy (server/src/lib/errors.ts): thirteen codes whose wire
    strings are their own constant names, and the `AppError` record. */
module Errors {
  import opened Results

  datatype ErrorCode =
    // Common
    | NotFound | Forbidden | Unauthorized | ValidationError
    // Workspace
    | WorkspaceLimitExceeded | MemberLimitExceeded | NotWorkspaceOwner | NotWorkspaceMember
    // Invite
    | InviteExpired | InviteMaxUsesReached | AlreadyMember
    // Wave
    | CannotWaveSelf | WaveAlreadyResponded

  /** The codes in declaration order. */
  const AllCodes: seq<ErrorCode> := [
    NotFound, Forbidden, Unauthorized, ValidationError,
    WorkspaceLimitExceeded, MemberLimitExceeded, NotWorkspaceOwner, NotWorkspaceMember,
    InviteExpired, InviteMaxUsesReached, AlreadyMember,
    CannotWaveSelf, WaveAlreadyResponded
  ]

  /** Reading a wire string back into a code; the inverse of `CodeString`. */
  function ParseCode(s: string): Option<ErrorCode> {
    if s == "NOT_FOUND" then Some(NotFound)
    else if s == "FORBIDDEN" then Some(Forbidden)
    else if s == "UNAUTHORIZED" then Some(Unauthorized)
    else if s == "VALIDATION_ERROR" then Some(ValidationError)
    else if s == "WORKSPACE_LIMIT_EXCEEDED" then Some(WorkspaceLimitExceeded)
    else if s == "MEMBER_LIMIT_EXCEEDED" then Some(MemberLimitExceeded)
    else if s == "NOT_WORKSPACE_OWNER" then Some(NotWorkspaceOwner)
    else if s == "NOT_WORKSPACE_MEMBER" then Some(NotWorkspaceMember)
    else if s == "INVITE_EXPIRED" then Some(InviteExpired)
    else if s == "INVITE_MAX_USES_REACHED" then Some(InviteMaxUsesReached)
    else if s == "ALREADY_MEMBER" then Some(AlreadyMember)
    else if s == "CANNOT_WAVE_SELF" then Some(CannotWaveSelf)
    else if s == "WAVE_ALREADY_RESPONDED" then Some(WaveAlreadyResponded)
    else None
  }

  /** The string value of each code, equal to its key in the `ErrorCode` object. */
  function CodeString(c: ErrorCode): (s: string)
    ensures ParseCode(s) == Some(c)
  {
    match c
    case NotFound => "NOT_FOUND"
    case Forbidden => "FORBIDDEN"
    case Unauthorized => "UNAUTHORIZED"
    case ValidationError => "VALIDATION_ERROR"
    case WorkspaceLimitExceeded => "WORKSPACE_LIMIT_EXCEEDED"
    case MemberLimitExceeded => "MEMBER_LIMIT_EXCEEDED"
    case NotWorkspaceOwner => "NOT_WORKSPACE_OWNER"
    case NotWorkspaceMember => "NOT_WORKSPACE_MEMBER"
    case InviteExpired => "INVITE_EXPIRED"
    case InviteMaxUsesReached => "INVITE_MAX_USES_REACHED"
    case AlreadyMember => "ALREADY_MEMBER"
    case CannotWaveSelf => "CANNOT_WAVE_SELF"
    case WaveAlreadyResponded => "WAVE_ALREADY_RESPONDED"
  }

  /** There are exactly thirteen codes, all listed once, with distinct strings. */
  lemma {:induction false} ThirteenDistinctCodes()
    ensures |AllCodes| == 13
    ensures forall c: ErrorCode :: c in AllCodes
    ensures forall i, j :: 0 <= i < j < |AllCodes| ==> AllCodes[i] != AllCodes[j]
    ensures forall a: ErrorCode, b: ErrorCode :: CodeString(a) == CodeString(b) ==> a == b
  {
    forall c: ErrorCode
      ensures c in AllCodes
    {
      match c
      case NotFound => assert AllCodes[0] == c;
      case Forbidden => assert AllCodes[1] == c;
      case Unauthorized => assert AllCodes[2] == c;
      case ValidationError => assert AllCodes[3] == c;
      case WorkspaceLimitExceeded => assert AllCodes[4] == c;
      case MemberLimitExceeded => assert AllCodes[5] == c;
      case NotWorkspaceOwner => assert AllCodes[6] == c;
      case NotWorkspaceMember => assert AllCodes[7] == c;
      case InviteExpired => assert AllCodes[8] == c;
      case InviteMaxUsesReached => assert AllCodes[9] == c;
      case AlreadyMember => assert AllCodes[10] == c;
      case CannotWaveSelf => assert AllCodes[11] == c;
      case WaveAlreadyResponded => assert AllCodes[12] == c;
    }
    forall a: ErrorCode, b: ErrorCode | CodeString(a) == CodeString(b)
      ensures a == b
    {
      assert ParseCode(CodeString(a)) == Some(a);
      assert ParseCode(CodeString(b)) == Some(b);
    }
  }

  /** The `{code, message}` body of every error response (ErrorSchema). */
  datatype ErrorBody = ErrorBody(code: string, message: string)

  /** `new AppError(code, message)`: the readonly code and the message it was
      built with. */
  datatype AppError = AppError(code: ErrorCode, message: string) {

    /** Every AppError carries the name "AppError". */
    function Name(): (n: string)
      ensures n == "AppError"
    {
      "AppError"
    }

    /** `toJSON()`: exactly the code string and the message. */
    function ToJson(): (body: ErrorBody)
      ensures ParseCode(body.code) == Some(code) && body.message == message
    {
      ErrorBody(CodeString(code), message)
    }
  }

  /** The JSON form loses nothing: two errors with the same body are equal. */
  lemma ToJsonInjective(a: AppError, b: AppError)
    requires a.ToJson() == b.ToJson()
    ensures a == b
  {
    assert ParseCode(a.ToJson().code) == Some(a.code);
    assert ParseCode(b.ToJson().code) == Some(b.code);
  }
}
