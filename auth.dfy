/** The Bearer-credential checks of the authentication middleware
    (server/src/middleware/auth.ts), with the placeholder token format
    `user_<id>_<email>`. Setting the user on the request context and calling
    the next handler are effects outside this model; a successful result is
    the user that would be set. */
module Auth {
  import opened Results
  import opened Errors
  import opened Strings

  datatype AuthUser = AuthUser(id: string, email: string)

  /** The authentication scheme prefix of section 2.1 of RFC 6750, matched
      case-sensitively. */
  const BearerPrefix: string := "Bearer "
  const TokenPrefix: string := "user_"

  /** The placeholder token check: `user_` first, then at least three
      `_`-separated parts; the id is the second part and the email all the
      parts after it joined back with `_`. */
  function VerifyToken(token: string): (r: Option<AuthUser>)
    ensures r.Some? <==> StartsWith(token, TokenPrefix) && |Split(token, '_')| >= 3
    ensures r.Some? ==> NoChar(r.value.id, '_')
  {
    if StartsWith(token, TokenPrefix) then
      var parts := Split(token, '_');
      if |parts| >= 3 then Some(AuthUser(parts[1], Join(parts[2..], '_'))) else None
    else None
  }

  /** Every accepted token is exactly `user_` + id + `_` + email. */
  lemma VerifyTokenRebuilds(token: string)
    requires VerifyToken(token).Some?
    ensures var u := VerifyToken(token).value; token == TokenPrefix + u.id + "_" + u.email
  {
    var tail := token[5..];
    assert token == "user" + ['_'] + tail;
    SplitAtFirst("user", tail, '_');
    var rest := Split(tail, '_');
    assert Split(token, '_') == ["user"] + rest;
    JoinSplit(tail, '_');
    assert Split(token, '_')[2..] == rest[1..];
    assert tail == rest[0] + ['_'] + Join(rest[1..], '_');
  }

  /** An id without `_` and any email, even one holding `_`, read back
      from the token built out of them. */
  lemma VerifyTokenReads(id: string, email: string)
    requires NoChar(id, '_')
    ensures VerifyToken(TokenPrefix + id + "_" + email) == Some(AuthUser(id, email))
  {
    var token := TokenPrefix + id + "_" + email;
    assert token == "user" + ['_'] + (id + ['_'] + email);
    SplitAtFirst("user", id + ['_'] + email, '_');
    SplitAtFirst(id, email, '_');
    JoinSplit(email, '_');
    assert StartsWith(token, TokenPrefix);
    assert Split(token, '_') == ["user", id] + Split(email, '_');
  }

  /** `authMiddleware`: a missing header, or one not starting with
      `Bearer `, is refused first; then an empty token; then a token the
      check does not accept. */
  function Authenticate(header: Option<string>): (r: Result<AuthUser, AppError>)
    ensures (header.None? || !StartsWith(header.value, BearerPrefix)) ==>
      r == Failure(AppError(Unauthorized, "Missing or invalid authorization header"))
    ensures header == Some(BearerPrefix) ==> r == Failure(AppError(Unauthorized, "Missing token"))
    ensures r.Failure? ==> r.error.code == Unauthorized
    ensures r.Success? <==>
      header.Some? && StartsWith(header.value, BearerPrefix) &&
      VerifyToken(header.value[|BearerPrefix|..]).Some?
    ensures r.Success? ==> r.value == VerifyToken(header.value[|BearerPrefix|..]).value
  {
    if header.None? || !StartsWith(header.value, BearerPrefix) then
      Failure(AppError(Unauthorized, "Missing or invalid authorization header"))
    else
      var token := header.value[|BearerPrefix|..];
      if token == "" then Failure(AppError(Unauthorized, "Missing token"))
      else match VerifyToken(token)
        case None => Failure(AppError(Unauthorized, "Invalid token"))
        case Some(user) => Success(user)
  }

  /** A well-formed header authenticates as the user it names. */
  lemma AuthenticateReads(id: string, email: string)
    requires NoChar(id, '_')
    ensures Authenticate(Some(BearerPrefix + TokenPrefix + id + "_" + email)) == Success(AuthUser(id, email))
  {
    var header := BearerPrefix + TokenPrefix + id + "_" + email;
    assert header[|BearerPrefix|..] == TokenPrefix + id + "_" + email;
    VerifyTokenReads(id, email);
  }
}
