/** The invite service (server/src/services/invite/invite-service.ts):
    invite codes, creating invites, the ordered checks of accepting one and
    the counter-plus-membership transaction that follows them. The clock,
    the random bytes, the fresh ids and the `LIMITS` constants are
    parameters. */
module InviteService {
  import opened Results
  import opened Errors
  import opened Db
  import opened Strings
  import IR = InviteRepository
  import WUR = WorkspaceUserRepository
  import opened Storage

  type Byte = b: int | 0 <= b < 256

  /** The six bytes `randomBytes(6)` draws for one invite code. */
  type RandomBytes = s: seq<Byte> | |s| == 6 witness [0, 0, 0, 0, 0, 0]

  /** The constants of `LIMITS` the service reads. */
  datatype InviteLimits = InviteLimits(inviteExpiresDays: nat, maxMembersPerWorkspace: nat)

  const MsPerDay: int := 86_400_000

  // ---- Invite codes: bytes written as lowercase hexadecimal ----

  predicate IsLowerHex(c: char) {
    '0' <= c <= '9' || 'a' <= c <= 'f'
  }

  predicate AllLowerHex(s: string) {
    forall i :: 0 <= i < |s| ==> IsLowerHex(s[i])
  }

  function HexDigit(d: int): (c: char)
    requires 0 <= d < 16
    ensures IsLowerHex(c)
  {
    if d < 10 then ('0' as int + d) as char else ('a' as int + d - 10) as char
  }

  function HexValue(c: char): (d: int)
    requires IsLowerHex(c)
    ensures 0 <= d < 16 && HexDigit(d) == c
  {
    if c <= '9' then c as int - '0' as int else c as int - 'a' as int + 10
  }

  /** `Buffer.toString("hex")`: two lowercase digits per byte, high nibble first. */
  function HexEncode(bytes: seq<Byte>): (s: string)
    ensures |s| == 2 * |bytes|
    ensures AllLowerHex(s)
  {
    if bytes == [] then ""
    else [HexDigit(bytes[0] / 16), HexDigit(bytes[0] % 16)] + HexEncode(bytes[1..])
  }

  /** Reads an even-length lowercase hexadecimal string back into bytes. */
  function HexDecode(s: string): (bytes: seq<Byte>)
    requires |s| % 2 == 0 && AllLowerHex(s)
    ensures |bytes| * 2 == |s|
  {
    if s == [] then []
    else [HexValue(s[0]) * 16 + HexValue(s[1])] + HexDecode(s[2..])
  }

  lemma {:induction false} HexDecodeEncode(bytes: seq<Byte>)
    ensures HexDecode(HexEncode(bytes)) == bytes
  {
    if bytes != [] {
      var s := HexEncode(bytes);
      assert s[2..] == HexEncode(bytes[1..]);
      HexDecodeEncode(bytes[1..]);
    }
  }

  lemma {:induction false} HexEncodeDecode(s: string)
    requires |s| % 2 == 0 && AllLowerHex(s)
    ensures HexEncode(HexDecode(s)) == s
  {
    if s != [] {
      var b := HexValue(s[0]) * 16 + HexValue(s[1]);
      assert b / 16 == HexValue(s[0]) && b % 16 == HexValue(s[1]);
      HexEncodeDecode(s[2..]);
      assert HexDecode(s)[1..] == HexDecode(s[2..]);
      assert s == [s[0], s[1]] + s[2..];
    }
  }

  /** `generateInviteCode`: six random bytes as twelve lowercase hex digits,
      from which the bytes can be read back. */
  function GenerateInviteCode(random: seq<Byte>): (code: string)
    requires |random| == 6
    ensures |code| == 12 && AllLowerHex(code)
    ensures HexDecode(code) == random
  {
    HexDecodeEncode(random);
    HexEncode(random)
  }

  // ---- createInvite ----

  /** `createInvite`: the code is generated from the random bytes, the
      invite expires `inviteExpiresDays` whole days after now, and an absent
      or null `maxUses` is stored as null (unlimited). The service itself
      never rejects; only the database can refuse the insert. */
  function CreateInviteStep(
    t: Tables, limits: InviteLimits, id: Id, random: RandomBytes, workspaceId: Id, maxUses: Option<int>, now: Time)
    : (s: Step<InviteRecord, Fault>)
    requires id !in t.invites
    ensures s.result.Failure? ==> s.result.error.Aborted? && s.after == t
    ensures s.result.Success? ==>
      |s.result.value.code| == 12 && AllLowerHex(s.result.value.code) &&
      HexDecode(s.result.value.code) == random
    ensures s.result.Success? ==>
      s.result.value == InviteRecord(id, workspaceId, s.result.value.code,
                                     now + limits.inviteExpiresDays * MsPerDay, maxUses, 0, now) &&
      s.after == t.(invites := t.invites[id := s.result.value])
    ensures Consistent(t) ==> Consistent(s.after)
  {
    var code := GenerateInviteCode(random);
    var created := IR.CreateInvite(t, id, workspaceId, code, now + limits.inviteExpiresDays * MsPerDay, maxUses, now);
    if created.result.Failure? then Step(Failure(Aborted(created.result.error)), t)
    else Step(Success(created.result.value), created.after)
  }

  method CreateInvite(
    store: Store, limits: InviteLimits, id: Id, random: RandomBytes, workspaceId: Id, maxUses: Option<int>, now: Time)
    returns (r: Result<InviteRecord, Fault>)
    requires store.Valid() && id !in store.invites
    modifies store
    ensures store.Valid()
    ensures Step(r, store.T()) == CreateInviteStep(old(store.T()), limits, id, random, workspaceId, maxUses, now)
  {
    ghost var before := store.T();
    var code := GenerateInviteCode(random);
    var created := store.CreateInvite(id, workspaceId, code, now + limits.inviteExpiresDays * MsPerDay, maxUses, now);
    assert Step(created, store.T()) ==
      IR.CreateInvite(before, id, workspaceId, code, now + limits.inviteExpiresDays * MsPerDay, maxUses, now);
    if created.Failure? {
      return Failure(Aborted(created.error));
    }
    r := Success(created.value);
  }

  /** A fresh invite satisfies the usage bound whenever its `maxUses` is not negative. */
  lemma CreateInviteKeepsUsesWithinLimit(
    t: Tables, limits: InviteLimits, id: Id, random: RandomBytes, workspaceId: Id, maxUses: Option<int>, now: Time)
    requires id !in t.invites && UsesWithinLimit(t)
    requires maxUses.Some? ==> maxUses.value >= 0
    ensures UsesWithinLimit(CreateInviteStep(t, limits, id, random, workspaceId, maxUses, now).after)
  {
  }

  // ---- acceptInvite ----

  function MemberLimitMessage(limit: nat): string {
    "Workspace has reached the maximum of " + NatToString(limit) + " members"
  }

  /** `acceptInvite`: NOT_FOUND, INVITE_EXPIRED (strictly after the expiry
      instant), INVITE_MAX_USES_REACHED, ALREADY_MEMBER and
      MEMBER_LIMIT_EXCEEDED, checked in that order against the tables as
      they are; then, in one transaction, the counter is raised and the
      user added as a member. Any failure leaves the tables unchanged. */
  function AcceptInviteStep(t: Tables, limits: InviteLimits, code: string, userId: Id, now: Time)
    : (s: Step<WorkspaceUserRecord, Fault>)
    requires UniqueInviteCodes(t)
    ensures s.result.Failure? ==> s.after == t
  {
    match IR.FindInviteByCode(t, code)
    case None => Step(Failure(Rejected(AppError(NotFound, "Invite not found"))), t)
    case Some(inv) =>
      if now > inv.expiresAt then
        Step(Failure(Rejected(AppError(InviteExpired, "This invite has expired"))), t)
      else if inv.maxUses.Some? && inv.usedCount >= inv.maxUses.value then
        Step(Failure(Rejected(AppError(InviteMaxUsesReached, "This invite has reached its maximum uses"))), t)
      else if WUR.IsMember(t, inv.workspaceId, userId) then
        Step(Failure(Rejected(AppError(AlreadyMember, "You are already a member of this workspace"))), t)
      else if WUR.CountByWorkspaceId(t, inv.workspaceId) >= limits.maxMembersPerWorkspace then
        Step(Failure(Rejected(AppError(MemberLimitExceeded, MemberLimitMessage(limits.maxMembersPerWorkspace)))), t)
      else
        var counted := IR.IncrementInviteUsedCount(t, inv.id);
        if counted.result.Failure? then Step(Failure(Aborted(counted.result.error)), t)
        else
          var added := WUR.Add(counted.after, inv.workspaceId, userId, Member, now);
          if added.result.Failure? then Step(Failure(Aborted(added.result.error)), t)
          else Step(Success(added.result.value), added.after)
  }

  method AcceptInvite(store: Store, limits: InviteLimits, code: string, userId: Id, now: Time)
    returns (r: Result<WorkspaceUserRecord, Fault>)
    requires store.Valid()
    modifies store
    ensures store.Valid()
    ensures Step(r, store.T()) == AcceptInviteStep(old(store.T()), limits, code, userId, now)
  {
    var found := IR.FindInviteByCode(store.T(), code);
    if found.None? {
      return Failure(Rejected(AppError(NotFound, "Invite not found")));
    }
    var inv := found.value;
    if now > inv.expiresAt {
      return Failure(Rejected(AppError(InviteExpired, "This invite has expired")));
    }
    if inv.maxUses.Some? && inv.usedCount >= inv.maxUses.value {
      return Failure(Rejected(AppError(InviteMaxUsesReached, "This invite has reached its maximum uses")));
    }
    var isMember := WUR.IsMember(store.T(), inv.workspaceId, userId);
    if isMember {
      return Failure(Rejected(AppError(AlreadyMember, "You are already a member of this workspace")));
    }
    var memberCount := WUR.CountByWorkspaceId(store.T(), inv.workspaceId);
    if memberCount >= limits.maxMembersPerWorkspace {
      return Failure(Rejected(AppError(MemberLimitExceeded, MemberLimitMessage(limits.maxMembersPerWorkspace))));
    }
    var saved := store.T();
    var counted := store.IncrementInviteUsedCount(inv.id);
    if counted.Failure? {
      return Failure(Aborted(counted.error));
    }
    var added := store.AddMember(inv.workspaceId, userId, Member, now);
    if added.Failure? {
      store.Restore(saved);
      return Failure(Aborted(added.error));
    }
    r := Success(added.value);
  }

  /** Whether `inv` passes every check of `acceptInvite` for `userId` at `now`. */
  ghost predicate Admissible(t: Tables, limits: InviteLimits, inv: InviteRecord, userId: Id, now: Time) {
    && now <= inv.expiresAt
    && (inv.maxUses.None? || inv.usedCount < inv.maxUses.value)
    && (inv.workspaceId, userId) !in t.members
    && WUR.CountByWorkspaceId(t, inv.workspaceId) < limits.maxMembersPerWorkspace
  }

  /** On consistent tables, accepting succeeds exactly when an invite with the
      code passes every check, the user exists and the counter still fits a
      32-bit column; the expiry instant itself is still accepted. */
  lemma AcceptInviteSucceeds(t: Tables, limits: InviteLimits, code: string, userId: Id, now: Time)
    requires Consistent(t)
    ensures AcceptInviteStep(t, limits, code, userId, now).result.Success? <==>
      exists inv :: inv in t.invites.Values && inv.code == code &&
        Admissible(t, limits, inv, userId, now) && userId in t.users && InInt4(inv.usedCount + 1)
  {
    var found := IR.FindInviteByCode(t, code);
    if found.Some? {
      var inv := found.value;
      assert inv.id in t.invites && t.invites[inv.id] == inv;
      forall i | i in t.invites.Values && i.code == code ensures i == inv {
        var k :| k in t.invites && t.invites[k] == i;
      }
      assert inv.workspaceId in t.workspaces;
    }
  }

  /** A successful accept raises that invite's `usedCount` by exactly one and
      adds the user as a plain member; nothing else changes. */
  lemma AcceptInviteEffect(t: Tables, limits: InviteLimits, code: string, userId: Id, now: Time, inv: InviteRecord)
    requires InviteKeysMatch(t) && UniqueInviteCodes(t) && inv in t.invites.Values && inv.code == code
    requires AcceptInviteStep(t, limits, code, userId, now).result.Success?
    ensures var s := AcceptInviteStep(t, limits, code, userId, now);
      s.result.value == WorkspaceUserRecord(inv.workspaceId, userId, Member, now) &&
      s.after == t.(invites := t.invites[inv.id := inv.(usedCount := inv.usedCount + 1)],
                    members := t.members[(inv.workspaceId, userId) := s.result.value])
  {
    var k :| k in t.invites && t.invites[k] == inv;
    assert k == inv.id;
    var found := IR.FindInviteByCode(t, code);
    assert found == Some(inv) by {
      var j :| j in t.invites && t.invites[j] == found.value;
    }
    var counted := IR.IncrementInviteUsedCount(t, inv.id);
    assert counted.after == t.(invites := t.invites[inv.id := inv.(usedCount := inv.usedCount + 1)]);
  }

  /** For an existing code, INVITE_EXPIRED is the answer exactly when now is
      strictly after the expiry instant. */
  lemma AcceptInviteExpiry(t: Tables, limits: InviteLimits, code: string, userId: Id, now: Time, inv: InviteRecord)
    requires UniqueInviteCodes(t) && inv in t.invites.Values && inv.code == code
    ensures (AcceptInviteStep(t, limits, code, userId, now).result ==
             Failure(Rejected(AppError(InviteExpired, "This invite has expired")))) <==>
            now > inv.expiresAt
  {
    var found := IR.FindInviteByCode(t, code);
    assert found == Some(inv) by {
      var k :| k in t.invites && t.invites[k] == inv;
      var j :| j in t.invites && t.invites[j] == found.value;
    }
  }

  /** NOT_FOUND is the answer exactly when no invite has the code. */
  lemma AcceptInviteNotFound(t: Tables, limits: InviteLimits, code: string, userId: Id, now: Time)
    requires UniqueInviteCodes(t)
    ensures AcceptInviteStep(t, limits, code, userId, now).result ==
            Failure(Rejected(AppError(NotFound, "Invite not found"))) <==>
            forall i :: i in t.invites.Values ==> i.code != code
  {
  }

  /** For an existing code, the first check that fails decides the error:
      INVITE_EXPIRED, then INVITE_MAX_USES_REACHED, then ALREADY_MEMBER,
      then MEMBER_LIMIT_EXCEEDED; an invite that passes them all is never
      rejected, only possibly aborted by the database. */
  lemma AcceptInviteRejections(t: Tables, limits: InviteLimits, code: string, userId: Id, now: Time, inv: InviteRecord)
    requires UniqueInviteCodes(t) && inv in t.invites.Values && inv.code == code
    ensures var r := AcceptInviteStep(t, limits, code, userId, now).result;
      var live := now <= inv.expiresAt;
      var usable := inv.maxUses.None? || inv.usedCount < inv.maxUses.value;
      var joined := (inv.workspaceId, userId) in t.members;
      var full := WUR.CountByWorkspaceId(t, inv.workspaceId) >= limits.maxMembersPerWorkspace;
      && (!live ==>
            r == Failure(Rejected(AppError(InviteExpired, "This invite has expired"))))
      && (live && !usable ==>
            r == Failure(Rejected(AppError(InviteMaxUsesReached, "This invite has reached its maximum uses"))))
      && (live && usable && joined ==>
            r == Failure(Rejected(AppError(AlreadyMember, "You are already a member of this workspace"))))
      && (live && usable && !joined && full ==>
            r == Failure(Rejected(AppError(MemberLimitExceeded, MemberLimitMessage(limits.maxMembersPerWorkspace)))))
      && (live && usable && !joined && !full ==> r.Success? || r.error.Aborted?)
  {
    var found := IR.FindInviteByCode(t, code);
    assert found == Some(inv) by {
      var k :| k in t.invites && t.invites[k] == inv;
      var j :| j in t.invites && t.invites[j] == found.value;
    }
  }

  /** Sequential accepts keep every invite's `usedCount` within `maxUses`. */
  lemma AcceptInviteKeepsUsesWithinLimit(t: Tables, limits: InviteLimits, code: string, userId: Id, now: Time)
    requires Consistent(t) && UsesWithinLimit(t)
    ensures UsesWithinLimit(AcceptInviteStep(t, limits, code, userId, now).after)
  {
    var s := AcceptInviteStep(t, limits, code, userId, now);
    if s.result.Success? {
      var inv := IR.FindInviteByCode(t, code).value;
      AcceptInviteEffect(t, limits, code, userId, now, inv);
      assert inv.id in t.invites && t.invites[inv.id] == inv;
    }
  }

  /** Accepting adds a row with the member role only, so owner rows are kept. */
  lemma AcceptInviteKeepsOwners(t: Tables, limits: InviteLimits, code: string, userId: Id, now: Time)
    requires Consistent(t) && OwnerConsistent(t)
    ensures OwnerConsistent(AcceptInviteStep(t, limits, code, userId, now).after)
  {
    var s := AcceptInviteStep(t, limits, code, userId, now);
    if s.result.Success? {
      var inv := IR.FindInviteByCode(t, code).value;
      AcceptInviteEffect(t, limits, code, userId, now, inv);
      var t' := s.after;
      forall w | w in t'.workspaces ensures IsOwnerRow(t', w, t'.workspaces[w].ownerId) {
        assert IsOwnerRow(t, w, t.workspaces[w].ownerId);
      }
    }
  }

  // ---- getInvitesByWorkspaceId and deleteInvite ----

  /** `getInvitesByWorkspaceId`: exactly the workspace's invites. */
  function GetInvitesByWorkspaceId(t: Tables, workspaceId: Id): (r: set<InviteRecord>)
    ensures forall i :: i in r <==> i in t.invites.Values && i.workspaceId == workspaceId
  {
    IR.FindInvitesByWorkspaceId(t, workspaceId)
  }

  /** `deleteInvite`: NOT_FOUND, changing nothing, or exactly that invite removed. */
  function DeleteInviteStep(t: Tables, inviteId: Id): (s: Step<(), Fault>)
    ensures s.result.Failure? <==> inviteId !in t.invites
    ensures s.result.Failure? ==>
      s.result.error == Rejected(AppError(NotFound, "Invite not found")) && s.after == t
    ensures s.result.Success? ==> s.after == IR.DeleteInvite(t, inviteId) && inviteId !in s.after.invites
  {
    match IR.FindInviteById(t, inviteId)
    case None => Step(Failure(Rejected(AppError(NotFound, "Invite not found"))), t)
    case Some(_) => Step(Success(()), IR.DeleteInvite(t, inviteId))
  }

  method DeleteInvite(store: Store, inviteId: Id) returns (r: Result<(), Fault>)
    requires store.Valid()
    modifies store
    ensures store.Valid()
    ensures Step(r, store.T()) == DeleteInviteStep(old(store.T()), inviteId)
  {
    var found := IR.FindInviteById(store.T(), inviteId);
    if found.None? {
      return Failure(Rejected(AppError(NotFound, "Invite not found")));
    }
    store.DeleteInvite(inviteId);
    r := Success(());
  }
}
