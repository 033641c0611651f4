/** The request validators and entity shapes of server/src/schemas/*.ts, as
    predicates and parse functions. The `LIMITS` constants are parameters.
    Numbers are integers; zod's email and datetime formats are not modelled. */
module Schemas {
  import opened Results
  import opened Strings
  import opened Db
  import Auth
  import App
  import IS = InviteService

  /** The two length limits the schemas read from `LIMITS`. */
  datatype Limits = Limits(displayNameMaxLength: nat, workspaceNameMaxLength: nat)

  // ---- Formats ----

  predicate IsHexDigit(c: char) { '0' <= c <= '9' || 'a' <= c <= 'f' || 'A' <= c <= 'F' }

  predicate IsHyphenPosition(i: int) { i == 8 || i == 13 || i == 18 || i == 23 }

  /** zod's uuid format: 8-4-4-4-12 hexadecimal digits in either case. Such
      an id is 36 characters long and never holds `_`. */
  function IsUuid(s: string): (b: bool)
    ensures b ==> |s| == 36 && NoChar(s, '_') && Utf16Length(s) == 36
  {
    |s| == 36 &&
    forall i :: 0 <= i < 36 ==> if IsHyphenPosition(i) then s[i] == '-' else IsHexDigit(s[i])
  }

  /** `z.string().min(1).max(max)`: zod measures JavaScript's `length`, in
      UTF-16 code units. A bounded string has at most `max` characters; for
      text without characters above U+FFFF the bound is on `|s|` itself. */
  function Bounded(s: string, max: nat): (b: bool)
    ensures b ==> 1 <= |s| <= max
    ensures (forall i :: 0 <= i < |s| ==> s[i] as int < 0x1_0000) ==> (b <==> 1 <= |s| <= max)
  {
    1 <= Utf16Length(s) <= max
  }

  /** One character above U+FFFF is two units long, so it does not fit a
      one-unit bound. */
  lemma AstralCharCountsTwice()
    ensures Utf16Length("\U{1F600}") == 2 && !Bounded("\U{1F600}", 1)
  {
  }

  /** A uuid never holds `_`, so every uuid user id survives the bearer
      token format. */
  lemma UuidTokenReads(id: string, email: string)
    requires IsUuid(id)
    ensures Auth.VerifyToken(Auth.TokenPrefix + id + "_" + email) == Some(Auth.AuthUser(id, email))
  {
    assert NoChar(id, '_') by {
      forall i | 0 <= i < |id| ensures id[i] != '_' {
        if IsHyphenPosition(i) {
        } else {
          assert IsHexDigit(id[i]);
        }
      }
    }
    Auth.VerifyTokenReads(id, email);
  }

  // ---- Enumerations ----

  /** `MemberRoleSchema`: exactly "owner" and "member". */
  function RoleName(role: MemberRole): (name: string)
    ensures ParseRole(name) == Some(role)
  {
    match role
    case Owner => "owner"
    case Member => "member"
  }

  function ParseRole(s: string): (r: Option<MemberRole>)
    ensures r.Some? <==> s == "owner" || s == "member"
    ensures r.Some? ==> RoleName(r.value) == s
  {
    if s == "owner" then Some(Owner)
    else if s == "member" then Some(Member)
    else None
  }

  /** `WaveStatusSchema`: exactly four values. */
  function StatusName(status: WaveStatus): (name: string)
    ensures ParseWaveStatus(name) == Some(status)
  {
    match status
    case Pending => "pending"
    case Accepted => "accepted"
    case Declined => "declined"
    case Expired => "expired"
  }

  function ParseWaveStatus(s: string): (r: Option<WaveStatus>)
    ensures r.Some? <==> s in {"pending", "accepted", "declined", "expired"}
    ensures r.Some? ==> StatusName(r.value) == s
  {
    if s == "pending" then Some(Pending)
    else if s == "accepted" then Some(Accepted)
    else if s == "declined" then Some(Declined)
    else if s == "expired" then Some(Expired)
    else None
  }

  /** `RespondWaveRequestSchema`: only the two answers a recipient can give;
      "pending" and "expired" are refused. */
  function ParseRespondStatus(s: string): (r: Option<WaveStatus>)
    ensures r.Some? <==> ParseWaveStatus(s).Some? && ParseWaveStatus(s).value in {Accepted, Declined}
    ensures r.Some? ==> r == ParseWaveStatus(s)
  {
    if s == "accepted" then Some(Accepted)
    else if s == "declined" then Some(Declined)
    else None
  }

  // ---- Requests ----

  /** A JSON field that may be left out, be null, or hold a value. */
  datatype Field<T> = Absent | Null | Given(value: T)

  /** `CreateInviteRequestSchema`: `maxUses` absent or null means unlimited;
      a number must be at least 1. The result is the `maxUses` passed on. */
  function ParseMaxUses(maxUses: Field<int>): (r: Option<Option<int>>)
    ensures r.Some? <==> !(maxUses.Given? && maxUses.value < 1)
    ensures r.Some? && r.value.Some? ==> maxUses == Given(r.value.value) && r.value.value >= 1
    ensures r.Some? && r.value.None? ==> !maxUses.Given?
  {
    match maxUses
    case Absent => Some(None)
    case Null => Some(None)
    case Given(n) => if n >= 1 then Some(Some(n)) else None
  }

  /** The validator is what keeps `usedCount <= maxUses`: an invite created
      from a validated body keeps the invariant. */
  lemma ValidatedInviteKeepsUsesWithinLimit(
    t: Tables, limits: IS.InviteLimits, userId: Id, workspaceId: Id, maxUses: Field<int>,
    id: Id, random: IS.RandomBytes, now: Time)
    requires Consistent(t) && UsesWithinLimit(t) && id !in t.invites
    requires ParseMaxUses(maxUses).Some?
    ensures UsesWithinLimit(App.After(t, limits,
      App.CreateInviteRoute(userId, workspaceId, ParseMaxUses(maxUses).value, id, random, now)))
  {
    App.RouteKeepsUsesWithinLimit(t, limits,
      App.CreateInviteRoute(userId, workspaceId, ParseMaxUses(maxUses).value, id, random, now));
  }

  /** Without the validator a negative `maxUses` is stored beside a zero
      `usedCount`, which breaks the invariant at once. */
  lemma NegativeMaxUsesBreaksLimit(limits: IS.InviteLimits)
    ensures var t := Empty.(users := map["u" := UserRecord("u", "u@example.com", "U", 0, 0)],
                            workspaces := map["w" := WorkspaceRecord("w", "W", "u", 0)]);
      var s := IS.CreateInviteStep(t, limits, "i", [0, 0, 0, 0, 0, 0], "w", Some(-1), 0);
      Consistent(t) && UsesWithinLimit(t) && s.result.Success? && !UsesWithinLimit(s.after)
  {
    var t := Empty.(users := map["u" := UserRecord("u", "u@example.com", "U", 0, 0)],
                    workspaces := map["w" := WorkspaceRecord("w", "W", "u", 0)]);
    var s := IS.CreateInviteStep(t, limits, "i", [0, 0, 0, 0, 0, 0], "w", Some(-1), 0);
    assert "i" in s.after.invites && s.after.invites["i"].usedCount > s.after.invites["i"].maxUses.value;
  }

  /** A query parameter after `z.coerce.number()`: absent, a number, or a
      value that coerces to NaN. */
  datatype Coerced = Missing | Number(n: int) | NotANumber

  datatype Pagination = Pagination(limit: int, offset: int)

  const DefaultLimit: int := 20
  const MaxLimit: int := 100

  /** `PaginationQuerySchema`: limit in 1..100 defaulting to 20, offset at
      least 0 defaulting to 0; NaN fails either bound. */
  function ParsePagination(limit: Coerced, offset: Coerced): (r: Option<Pagination>)
    ensures r.Some? <==>
      (limit.Missing? || (limit.Number? && 1 <= limit.n <= MaxLimit)) &&
      (offset.Missing? || (offset.Number? && offset.n >= 0))
    ensures r.Some? ==> 1 <= r.value.limit <= MaxLimit && 0 <= r.value.offset
    ensures r.Some? ==> r.value.limit == (if limit.Missing? then DefaultLimit else limit.n)
    ensures r.Some? ==> r.value.offset == (if offset.Missing? then 0 else offset.n)
  {
    var l := match limit
      case Missing => Some(DefaultLimit)
      case Number(n) => if 1 <= n <= MaxLimit then Some(n) else None
      case NotANumber => None;
    var o := match offset
      case Missing => Some(0)
      case Number(n) => if n >= 0 then Some(n) else None
      case NotANumber => None;
    if l.Some? && o.Some? then Some(Pagination(l.value, o.value)) else None
  }

  /** Parsing is idempotent: the filled-in values parse to themselves. */
  lemma PaginationReparses(limit: Coerced, offset: Coerced)
    requires ParsePagination(limit, offset).Some?
    ensures var p := ParsePagination(limit, offset).value;
      ParsePagination(Number(p.limit), Number(p.offset)) == Some(p)
  {
  }

  /** `UpdateProfileRequestSchema`, `CreateWorkspaceRequestSchema`,
      `TransferOwnershipRequestSchema` and `SendWaveRequestSchema`; the
      sender of a wave is never part of the body. */
  function ValidUpdateProfile(limits: Limits, displayName: string): (b: bool)
    ensures b ==> 1 <= |displayName| <= limits.displayNameMaxLength
  {
    Bounded(displayName, limits.displayNameMaxLength)
  }

  function ValidCreateWorkspace(limits: Limits, name: string): (b: bool)
    ensures b ==> 1 <= |name| <= limits.workspaceNameMaxLength
  {
    Bounded(name, limits.workspaceNameMaxLength)
  }

  function ValidTransferOwnership(newOwnerId: string): (b: bool)
    ensures b ==> |newOwnerId| == 36 && NoChar(newOwnerId, '_')
  {
    IsUuid(newOwnerId)
  }

  function ValidSendWave(workspaceId: string, toUserId: string): (b: bool)
    ensures b ==> |workspaceId| == 36 && |toUserId| == 36 && NoChar(toUserId, '_')
  {
    IsUuid(workspaceId) && IsUuid(toUserId)
  }

  /** The path schemas: `IdParamSchema`, `WorkspaceIdParamSchema` and
      `WaveIdParamSchema` take one uuid, `MemberIdParamSchema` two, and
      `InviteCodeParamSchema` any string. */
  function ValidMemberPath(workspaceId: string, userId: string): (b: bool)
    ensures b ==> |workspaceId| == 36 && |userId| == 36 && NoChar(userId, '_')
  {
    IsUuid(workspaceId) && IsUuid(userId)
  }

  /** The user a validated body or path names can sign in with the bearer
      token built from their id: the new owner of a transfer, the recipient
      of a wave and the member of a member path. */
  lemma ValidatedUserIdsRead(newOwnerId: string, workspaceId: string, toUserId: string, userId: string, email: string)
    ensures ValidTransferOwnership(newOwnerId) ==>
      Auth.VerifyToken(Auth.TokenPrefix + newOwnerId + "_" + email) == Some(Auth.AuthUser(newOwnerId, email))
    ensures ValidSendWave(workspaceId, toUserId) ==>
      Auth.VerifyToken(Auth.TokenPrefix + toUserId + "_" + email) == Some(Auth.AuthUser(toUserId, email))
    ensures ValidMemberPath(workspaceId, userId) ==>
      Auth.VerifyToken(Auth.TokenPrefix + userId + "_" + email) == Some(Auth.AuthUser(userId, email))
  {
    if IsUuid(newOwnerId) { UuidTokenReads(newOwnerId, email); }
    if IsUuid(toUserId) { UuidTokenReads(toUserId, email); }
    if IsUuid(userId) { UuidTokenReads(userId, email); }
  }

  // ---- Entities ----

  /** `UserSchema` (and `ProfileSchema`, the same shape): the display name
      has the request's bounds. `UserSummarySchema` has no bound. */
  function UserConforms(limits: Limits, u: UserRecord): (b: bool)
    ensures b ==> |u.id| == 36 && 1 <= |u.displayName| <= limits.displayNameMaxLength
  {
    IsUuid(u.id) && Bounded(u.displayName, limits.displayNameMaxLength)
  }

  function WorkspaceConforms(limits: Limits, w: WorkspaceRecord): (b: bool)
    ensures b ==> |w.id| == 36 && |w.ownerId| == 36 && 1 <= |w.name| <= limits.workspaceNameMaxLength
  {
    IsUuid(w.id) && IsUuid(w.ownerId) && Bounded(w.name, limits.workspaceNameMaxLength)
  }

  /** A profile update from a validated body leaves a user that conforms to
      `UserSchema`, given a uuid id. */
  lemma UpdatedProfileConforms(limits: Limits, t: Tables, userId: Id, displayName: string, now: Time)
    requires ValidUpdateProfile(limits, displayName) && IsUuid(userId) && UserKeysMatch(t)
    requires App.UpdateProfileStep(t, userId, displayName, now).result.Success?
    ensures UserConforms(limits, App.UpdateProfileStep(t, userId, displayName, now).result.value)
  {
    assert t.users[userId].id == userId;
  }

  /** A workspace created from a validated body by a uuid user, under a
      uuid id, conforms to `WorkspaceSchema`. */
  lemma CreatedWorkspaceConforms(limits: Limits, t: Tables, userId: Id, name: string, id: Id, now: Time)
    requires ValidCreateWorkspace(limits, name) && IsUuid(userId) && IsUuid(id) && id !in t.workspaces
    requires App.CreateWorkspaceHandler(t, userId, name, id, now).result.Success?
    ensures WorkspaceConforms(limits, App.CreateWorkspaceHandler(t, userId, name, id, now).result.value)
  {
  }
}
