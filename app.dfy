/** The authenticated route handlers of `createApp` (server/src/app.ts):
    which checks each one makes, in which order, and which service call
    follows. The JSON shaping of the responses is not modelled; a handler's
    result is the value it serialises, and a failure is what it throws. */
module App {
  import opened Results
  import opened Errors
  import opened Db
  import AS = AuthorizationService
  import WS = WorkspaceService
  import IS = InviteService
  import UR = UserRepository
  import WR = WorkspaceRepository
  import WUR = WorkspaceUserRepository
  import IR = InviteRepository
  import opened Storage

  /** What the accept-invite route answers. */
  datatype AcceptedInvite = AcceptedInvite(workspaceId: Id, workspaceName: string)

  // ---- Profile ----

  /** GET /profile: NOT_FOUND unless the authenticated user has a row. */
  function GetProfile(t: Tables, authUserId: Id): (r: Result<UserRecord, AppError>)
    ensures r.Failure? <==> authUserId !in t.users
    ensures r.Failure? ==> r.error == AppError(NotFound, "User not found")
    ensures r.Success? ==> r.value in t.users.Values && (UserKeysMatch(t) ==> r.value.id == authUserId)
  {
    match UR.FindUserById(t, authUserId)
    case None => Failure(AppError(NotFound, "User not found"))
    case Some(u) => Success(u)
  }

  /** PATCH /profile: NOT_FOUND, changing nothing, unless the user has a row;
      otherwise the display name is replaced and `updatedAt` set to now. */
  function UpdateProfileStep(t: Tables, authUserId: Id, displayName: string, now: Time)
    : (s: Step<UserRecord, Fault>)
    ensures s.result.Failure? <==> authUserId !in t.users
    ensures s.result.Failure? ==>
      s.result.error == Rejected(AppError(NotFound, "User not found")) && s.after == t
    ensures s.result.Success? ==>
      var before := t.users[authUserId];
      s.result.value == before.(displayName := displayName, updatedAt := now) &&
      s.after == t.(users := t.users[authUserId := s.result.value])
    ensures Consistent(t) ==> Consistent(s.after)
  {
    match UR.FindUserById(t, authUserId)
    case None => Step(Failure(Rejected(AppError(NotFound, "User not found"))), t)
    case Some(_) =>
      var updated := UR.UpdateUser(t, authUserId, Some(displayName), now);
      Step(Success(updated.0.value), updated.1)
  }

  method UpdateProfile(store: Store, authUserId: Id, displayName: string, now: Time)
    returns (r: Result<UserRecord, Fault>)
    requires store.Valid()
    modifies store
    ensures store.Valid()
    ensures Step(r, store.T()) == UpdateProfileStep(old(store.T()), authUserId, displayName, now)
  {
    var existing := UR.FindUserById(store.T(), authUserId);
    if existing.None? {
      return Failure(Rejected(AppError(NotFound, "User not found")));
    }
    var user := store.UpdateUser(authUserId, Some(displayName), now);
    r := Success(user.value);
  }

  // ---- Workspaces ----

  /** POST /workspaces: the authenticated user always becomes the owner. */
  function CreateWorkspaceHandler(t: Tables, authUserId: Id, name: string, id: Id, now: Time)
    : (s: Step<WorkspaceRecord, Fault>)
    requires id !in t.workspaces
    ensures s.result.Success? ==>
      s.result.value.ownerId == authUserId && s.result.value.name == name &&
      id in s.after.workspaces && s.after.workspaces[id] == s.result.value &&
      IsOwnerRow(s.after, id, authUserId)
    ensures s.result.Failure? ==> s.after == t
  {
    WS.CreateWorkspaceStep(t, name, authUserId, id, now)
  }

  method CreateWorkspace(store: Store, authUserId: Id, name: string, id: Id, now: Time)
    returns (r: Result<WorkspaceRecord, Fault>)
    requires store.Valid() && id !in store.workspaces
    modifies store
    ensures store.Valid()
    ensures Step(r, store.T()) == CreateWorkspaceHandler(old(store.T()), authUserId, name, id, now)
  {
    r := WS.CreateWorkspace(store, name, authUserId, id, now);
  }

  /** GET /workspaces/{id}: membership is required before the read. */
  function GetWorkspaceHandler(t: Tables, authUserId: Id, workspaceId: Id)
    : (r: Result<WR.WorkspaceWithMembers, AppError>)
    ensures r.Success? <==> AS.Belongs(t, workspaceId, authUserId)
    ensures r.Failure? ==> r.error == AS.RequireWorkspaceMember(t, workspaceId, authUserId).error
    ensures r.Success? ==> Some(r.value) == WR.FindWithMembers(t, workspaceId)
  {
    match AS.RequireWorkspaceMember(t, workspaceId, authUserId)
    case Failure(e) => Failure(e)
    case Success(_) => WS.GetWorkspaceWithMembers(t, workspaceId)
  }

  /** The owner check that opens the delete, transfer and invite routes. */
  function OwnerRejection(t: Tables, workspaceId: Id, authUserId: Id): Fault
    requires !AS.Owns(t, workspaceId, authUserId)
  {
    Rejected(AS.RequireWorkspaceOwner(t, workspaceId, authUserId).error)
  }

  /** DELETE /workspaces/{id}: owners only; nothing else happens otherwise. */
  function DeleteWorkspaceHandler(t: Tables, authUserId: Id, workspaceId: Id): (s: Step<(), Fault>)
    ensures !AS.Owns(t, workspaceId, authUserId) ==>
      s == Step(Failure(OwnerRejection(t, workspaceId, authUserId)), t)
    ensures AS.Owns(t, workspaceId, authUserId) ==> s == WS.DeleteWorkspaceStep(t, workspaceId)
  {
    match AS.RequireWorkspaceOwner(t, workspaceId, authUserId)
    case Failure(e) => Step(Failure(Rejected(e)), t)
    case Success(_) => WS.DeleteWorkspaceStep(t, workspaceId)
  }

  method DeleteWorkspace(store: Store, authUserId: Id, workspaceId: Id) returns (r: Result<(), Fault>)
    requires store.Valid()
    modifies store
    ensures store.Valid()
    ensures Step(r, store.T()) == DeleteWorkspaceHandler(old(store.T()), authUserId, workspaceId)
  {
    var auth := AS.RequireWorkspaceOwner(store.T(), workspaceId, authUserId);
    if auth.Failure? {
      return Failure(Rejected(auth.error));
    }
    r := WS.DeleteWorkspace(store, workspaceId);
  }

  /** POST /workspaces/{id}/transfer: owners only, and the authenticated
      owner is passed as the current owner. */
  function TransferOwnershipHandler(t: Tables, authUserId: Id, workspaceId: Id, newOwnerId: Id)
    : (s: Step<(), Fault>)
    ensures !AS.Owns(t, workspaceId, authUserId) ==>
      s == Step(Failure(OwnerRejection(t, workspaceId, authUserId)), t)
    ensures AS.Owns(t, workspaceId, authUserId) ==>
      s == WS.TransferOwnershipStep(t, WS.TransferOwnershipInput(workspaceId, authUserId, newOwnerId))
  {
    match AS.RequireWorkspaceOwner(t, workspaceId, authUserId)
    case Failure(e) => Step(Failure(Rejected(e)), t)
    case Success(_) => WS.TransferOwnershipStep(t, WS.TransferOwnershipInput(workspaceId, authUserId, newOwnerId))
  }

  method TransferOwnership(store: Store, authUserId: Id, workspaceId: Id, newOwnerId: Id)
    returns (r: Result<(), Fault>)
    requires store.Valid()
    modifies store
    ensures store.Valid()
    ensures Step(r, store.T()) == TransferOwnershipHandler(old(store.T()), authUserId, workspaceId, newOwnerId)
  {
    var auth := AS.RequireWorkspaceOwner(store.T(), workspaceId, authUserId);
    if auth.Failure? {
      return Failure(Rejected(auth.error));
    }
    r := WS.TransferOwnership(store, WS.TransferOwnershipInput(workspaceId, authUserId, newOwnerId));
  }

  /** DELETE /workspaces/{id}/members/{userId} as written: NOT_FOUND without
      the workspace, FORBIDDEN unless the requester owns it or is the target,
      then the row goes. Nothing protects the owner's own row. */
  function RemoveMemberHandlerAsWritten(t: Tables, authUserId: Id, workspaceId: Id, targetUserId: Id)
    : (s: Step<(), Fault>)
    ensures workspaceId !in t.workspaces ==>
      s == Step(Failure(Rejected(AppError(NotFound, "Workspace not found"))), t)
    ensures s.result.Success? <==>
      workspaceId in t.workspaces &&
      (t.workspaces[workspaceId].ownerId == authUserId || targetUserId == authUserId)
    ensures s.result.Failure? ==> s.after == t
    ensures s.result.Success? ==> s.after == WUR.Remove(t, workspaceId, targetUserId)
  {
    match WR.FindById(t, workspaceId)
    case None => Step(Failure(Rejected(AppError(NotFound, "Workspace not found"))), t)
    case Some(w) =>
      var isOwner := w.ownerId == authUserId;
      var isSelf := targetUserId == authUserId;
      if !isOwner && !isSelf then
        Step(Failure(Rejected(AppError(Forbidden, "Only the owner can remove other members"))), t)
      else WS.RemoveMemberStep(t, workspaceId, targetUserId)
  }

  /** Tables with one user owning one workspace, and the owner row. */
  function OneOwnerTables(): Tables {
    Tables(
      map["u" := UserRecord("u", "u@example.com", "U", 0, 0)],
      map["w" := WorkspaceRecord("w", "W", "u", 0)],
      map[("w", "u") := WorkspaceUserRecord("w", "u", Owner, 0)],
      map[], map[])
  }

  /** The owner removing themself is accepted as written, and leaves a
      workspace whose `ownerId` has no member row. */
  lemma RemoveMemberAsWrittenDropsOwner()
    ensures Consistent(OneOwnerTables()) && OwnerConsistent(OneOwnerTables())
    ensures RemoveMemberHandlerAsWritten(OneOwnerTables(), "u", "w", "u").result.Success?
    ensures !OwnerConsistent(RemoveMemberHandlerAsWritten(OneOwnerTables(), "u", "w", "u").after)
  {
    var t := OneOwnerTables();
    var t' := RemoveMemberHandlerAsWritten(t, "u", "w", "u").after;
    assert "w" in t'.workspaces && !IsOwnerRow(t', "w", t'.workspaces["w"].ownerId);
  }

  /** The remove-member route as evidently intended: `requireCanRemoveMember`
      first, which also refuses the owner as target, then the removal. */
  function RemoveMemberHandler(t: Tables, authUserId: Id, workspaceId: Id, targetUserId: Id)
    : (s: Step<(), Fault>)
    ensures s.result.Success? <==>
      workspaceId in t.workspaces && targetUserId != t.workspaces[workspaceId].ownerId &&
      (t.workspaces[workspaceId].ownerId == authUserId || targetUserId == authUserId)
    ensures s.result.Failure? ==>
      s.result.error == Rejected(AS.RequireCanRemoveMember(t, workspaceId, authUserId, targetUserId).error) &&
      s.after == t
    ensures s.result.Success? ==> s.after == WUR.Remove(t, workspaceId, targetUserId)
  {
    match AS.RequireCanRemoveMember(t, workspaceId, authUserId, targetUserId)
    case Failure(e) => Step(Failure(Rejected(e)), t)
    case Success(_) => WS.RemoveMemberStep(t, workspaceId, targetUserId)
  }

  method RemoveMember(store: Store, authUserId: Id, workspaceId: Id, targetUserId: Id)
    returns (r: Result<(), Fault>)
    requires store.Valid()
    modifies store
    ensures store.Valid()
    ensures Step(r, store.T()) == RemoveMemberHandler(old(store.T()), authUserId, workspaceId, targetUserId)
  {
    var auth := AS.RequireCanRemoveMember(store.T(), workspaceId, authUserId, targetUserId);
    if auth.Failure? {
      return Failure(Rejected(auth.error));
    }
    r := WS.RemoveMember(store, workspaceId, targetUserId);
  }

  /** With the guard, removal keeps every workspace's owner row. */
  lemma RemoveMemberHandlerKeepsOwners(t: Tables, authUserId: Id, workspaceId: Id, targetUserId: Id)
    requires OwnerConsistent(t)
    ensures OwnerConsistent(RemoveMemberHandler(t, authUserId, workspaceId, targetUserId).after)
  {
    if RemoveMemberHandler(t, authUserId, workspaceId, targetUserId).result.Success? {
      WS.RemoveNonOwnerKeepsOwners(t, workspaceId, targetUserId);
    }
  }

  // ---- Invites ----

  /** POST /workspaces/{id}/invites: owners only. */
  function CreateInviteHandler(
    t: Tables, limits: IS.InviteLimits, authUserId: Id, workspaceId: Id, maxUses: Option<int>,
    id: Id, random: IS.RandomBytes, now: Time)
    : (s: Step<InviteRecord, Fault>)
    requires id !in t.invites
    ensures !AS.Owns(t, workspaceId, authUserId) ==>
      s == Step(Failure(OwnerRejection(t, workspaceId, authUserId)), t)
    ensures AS.Owns(t, workspaceId, authUserId) ==>
      s == IS.CreateInviteStep(t, limits, id, random, workspaceId, maxUses, now)
  {
    match AS.RequireWorkspaceOwner(t, workspaceId, authUserId)
    case Failure(e) => Step(Failure(Rejected(e)), t)
    case Success(_) => IS.CreateInviteStep(t, limits, id, random, workspaceId, maxUses, now)
  }

  method CreateInvite(
    store: Store, limits: IS.InviteLimits, authUserId: Id, workspaceId: Id, maxUses: Option<int>,
    id: Id, random: IS.RandomBytes, now: Time)
    returns (r: Result<InviteRecord, Fault>)
    requires store.Valid() && id !in store.invites
    modifies store
    ensures store.Valid()
    ensures Step(r, store.T()) ==
      CreateInviteHandler(old(store.T()), limits, authUserId, workspaceId, maxUses, id, random, now)
  {
    var auth := AS.RequireWorkspaceOwner(store.T(), workspaceId, authUserId);
    if auth.Failure? {
      return Failure(Rejected(auth.error));
    }
    r := IS.CreateInvite(store, limits, id, random, workspaceId, maxUses, now);
  }

  /** An owner's invite on consistent tables is always stored, when its
      `maxUses` fits the column. */
  lemma OwnerCreatesInvite(
    t: Tables, limits: IS.InviteLimits, authUserId: Id, workspaceId: Id, maxUses: Option<int>,
    id: Id, random: IS.RandomBytes, now: Time)
    requires Consistent(t) && id !in t.invites && AS.Owns(t, workspaceId, authUserId)
    requires maxUses.Some? ==> InInt4(maxUses.value)
    requires forall i :: i in t.invites.Values ==> i.code != IS.GenerateInviteCode(random)
    ensures CreateInviteHandler(t, limits, authUserId, workspaceId, maxUses, id, random, now).result.Success?
  {
  }

  /** GET /workspaces/{id}/invites: owners only. */
  function ListInvitesHandler(t: Tables, authUserId: Id, workspaceId: Id): (r: Result<set<InviteRecord>, AppError>)
    ensures r.Success? <==> AS.Owns(t, workspaceId, authUserId)
    ensures r.Failure? ==> r.error == AS.RequireWorkspaceOwner(t, workspaceId, authUserId).error
    ensures r.Success? ==> forall i :: i in r.value <==> i in t.invites.Values && i.workspaceId == workspaceId
  {
    match AS.RequireWorkspaceOwner(t, workspaceId, authUserId)
    case Failure(e) => Failure(e)
    case Success(_) => Success(IS.GetInvitesByWorkspaceId(t, workspaceId))
  }

  /** POST /invites/{code}/accept: no role check; the answer names the
      workspace, with an empty name if the workspace cannot be found. */
  function AcceptInviteHandler(t: Tables, limits: IS.InviteLimits, authUserId: Id, code: string, now: Time)
    : (s: Step<AcceptedInvite, Fault>)
    requires UniqueInviteCodes(t)
    ensures var accepted := IS.AcceptInviteStep(t, limits, code, authUserId, now);
      s.after == accepted.after &&
      (s.result.Failure? <==> accepted.result.Failure?) &&
      (s.result.Failure? ==> s.result.error == accepted.result.error) &&
      (s.result.Success? ==>
        var workspaceId := accepted.result.value.workspaceId;
        s.result.value == AcceptedInvite(
          workspaceId, if workspaceId in s.after.workspaces then s.after.workspaces[workspaceId].name else ""))
  {
    var accepted := IS.AcceptInviteStep(t, limits, code, authUserId, now);
    match accepted.result
    case Failure(e) => Step(Failure(e), accepted.after)
    case Success(member) =>
      var name := match WR.FindById(accepted.after, member.workspaceId)
        case None => ""
        case Some(w) => w.name;
      Step(Success(AcceptedInvite(member.workspaceId, name)), accepted.after)
  }

  method AcceptInvite(store: Store, limits: IS.InviteLimits, authUserId: Id, code: string, now: Time)
    returns (r: Result<AcceptedInvite, Fault>)
    requires store.Valid()
    modifies store
    ensures store.Valid()
    ensures Step(r, store.T()) == AcceptInviteHandler(old(store.T()), limits, authUserId, code, now)
  {
    var accepted := IS.AcceptInvite(store, limits, code, authUserId, now);
    if accepted.Failure? {
      return Failure(accepted.error);
    }
    var member := accepted.value;
    var found := WR.FindById(store.T(), member.workspaceId);
    var name := if found.None? then "" else found.value.name;
    r := Success(AcceptedInvite(member.workspaceId, name));
  }

  /** On consistent tables the accepted workspace always exists, so the
      empty-name fallback is never used. */
  lemma AcceptedWorkspaceNamed(t: Tables, limits: IS.InviteLimits, authUserId: Id, code: string, now: Time)
    requires ReferencesExist(t) && InviteKeysMatch(t) && UniqueInviteCodes(t)
    requires AcceptInviteHandler(t, limits, authUserId, code, now).result.Success?
    ensures var s := AcceptInviteHandler(t, limits, authUserId, code, now);
      s.result.value.workspaceId in s.after.workspaces &&
      s.result.value.workspaceName == s.after.workspaces[s.result.value.workspaceId].name
  {
    var found := IR.FindInviteByCode(t, code);
    assert found.Some?;
    var inv := found.value;
    IS.AcceptInviteEffect(t, limits, code, authUserId, now, inv);
    var k :| k in t.invites && t.invites[k] == inv;
    assert inv.workspaceId in t.workspaces;
  }

  /** DELETE /invites/{id}: NOT_FOUND comes before the owner check, so anyone
      learns whether an invite id exists. */
  function DeleteInviteHandler(t: Tables, authUserId: Id, inviteId: Id): (s: Step<(), Fault>)
    ensures inviteId !in t.invites ==>
      s == Step(Failure(Rejected(AppError(NotFound, "Invite not found"))), t)
    ensures s.result.Success? <==>
      inviteId in t.invites && AS.Owns(t, t.invites[inviteId].workspaceId, authUserId)
    ensures s.result.Failure? ==> s.after == t
    ensures s.result.Success? ==> s.after == IR.DeleteInvite(t, inviteId)
  {
    match IR.FindInviteById(t, inviteId)
    case None => Step(Failure(Rejected(AppError(NotFound, "Invite not found"))), t)
    case Some(invite) =>
      match AS.RequireWorkspaceOwner(t, invite.workspaceId, authUserId)
      case Failure(e) => Step(Failure(Rejected(e)), t)
      case Success(_) => IS.DeleteInviteStep(t, inviteId)
  }

  method DeleteInvite(store: Store, authUserId: Id, inviteId: Id) returns (r: Result<(), Fault>)
    requires store.Valid()
    modifies store
    ensures store.Valid()
    ensures Step(r, store.T()) == DeleteInviteHandler(old(store.T()), authUserId, inviteId)
  {
    var found := IR.FindInviteById(store.T(), inviteId);
    if found.None? {
      return Failure(Rejected(AppError(NotFound, "Invite not found")));
    }
    var auth := AS.RequireWorkspaceOwner(store.T(), found.value.workspaceId, authUserId);
    if auth.Failure? {
      return Failure(Rejected(auth.error));
    }
    r := IS.DeleteInvite(store, inviteId);
  }

  // ---- Every writing route, and the invariants they keep together ----

  datatype WriteRoute =
    | UpdateProfileRoute(userId: Id, displayName: string, now: Time)
    | CreateWorkspaceRoute(userId: Id, name: string, id: Id, now: Time)
    | DeleteWorkspaceRoute(userId: Id, workspaceId: Id)
    | TransferOwnershipRoute(userId: Id, workspaceId: Id, newOwnerId: Id)
    | RemoveMemberRoute(userId: Id, workspaceId: Id, targetUserId: Id)
    | CreateInviteRoute(userId: Id, workspaceId: Id, maxUses: Option<int>, id: Id, random: IS.RandomBytes, now: Time)
    | AcceptInviteRoute(userId: Id, code: string, now: Time)
    | DeleteInviteRoute(userId: Id, inviteId: Id)

  /** The generated ids a route inserts are new, and a create-invite body
      passed validation (`maxUses` null or at least one). */
  predicate Admitted(t: Tables, route: WriteRoute) {
    match route
    case CreateWorkspaceRoute(_, _, id, _) => id !in t.workspaces
    case CreateInviteRoute(_, _, maxUses, id, _, _) => id !in t.invites && (maxUses.Some? ==> maxUses.value >= 1)
    case _ => true
  }

  /** The tables after a route, with the remove-member guard in place. */
  ghost function After(t: Tables, limits: IS.InviteLimits, route: WriteRoute): Tables
    requires UniqueInviteCodes(t) && Admitted(t, route)
  {
    match route
    case UpdateProfileRoute(u, name, now) => UpdateProfileStep(t, u, name, now).after
    case CreateWorkspaceRoute(u, name, id, now) => CreateWorkspaceHandler(t, u, name, id, now).after
    case DeleteWorkspaceRoute(u, w) => DeleteWorkspaceHandler(t, u, w).after
    case TransferOwnershipRoute(u, w, n) => TransferOwnershipHandler(t, u, w, n).after
    case RemoveMemberRoute(u, w, target) => RemoveMemberHandler(t, u, w, target).after
    case CreateInviteRoute(u, w, maxUses, id, random, now) =>
      CreateInviteHandler(t, limits, u, w, maxUses, id, random, now).after
    case AcceptInviteRoute(u, code, now) => AcceptInviteHandler(t, limits, u, code, now).after
    case DeleteInviteRoute(u, id) => DeleteInviteHandler(t, u, id).after
  }

  lemma OwnersUntouched(t: Tables, t': Tables)
    requires OwnerConsistent(t) && t'.workspaces == t.workspaces && t'.members == t.members
    ensures OwnerConsistent(t')
  {
    forall w | w in t'.workspaces ensures IsOwnerRow(t', w, t'.workspaces[w].ownerId) {
      assert IsOwnerRow(t, w, t.workspaces[w].ownerId);
    }
  }

  /** Each writing route keeps each workspace's owner row in step with its
      `ownerId`; the as-written remove-member route does not
      (`RemoveMemberAsWrittenDropsOwner`). */
  lemma RouteKeepsOwners(t: Tables, limits: IS.InviteLimits, route: WriteRoute)
    requires Consistent(t) && OwnerConsistent(t) && Admitted(t, route)
    ensures OwnerConsistent(After(t, limits, route))
  {
    if route.CreateInviteRoute? || route.AcceptInviteRoute? || route.DeleteInviteRoute? {
      InviteRouteKeepsOwners(t, limits, route);
    } else {
      WorkspaceRouteKeepsOwners(t, limits, route);
    }
  }

  lemma WorkspaceRouteKeepsOwners(t: Tables, limits: IS.InviteLimits, route: WriteRoute)
    requires Consistent(t) && OwnerConsistent(t) && Admitted(t, route)
    requires !route.CreateInviteRoute? && !route.AcceptInviteRoute? && !route.DeleteInviteRoute?
    ensures OwnerConsistent(After(t, limits, route))
  {
    match route
    case UpdateProfileRoute(u, name, now) =>
      OwnersUntouched(t, UpdateProfileStep(t, u, name, now).after);
    case CreateWorkspaceRoute(u, name, id, now) =>
      WS.CreateWorkspaceKeepsOwners(t, name, u, id, now);
    case DeleteWorkspaceRoute(u, w) =>
      if AS.Owns(t, w, u) {
        WS.DeleteWorkspaceKeepsOwners(t, w);
      }
    case TransferOwnershipRoute(u, w, n) =>
      if AS.Owns(t, w, u) {
        WS.TransferOwnershipKeepsOwners(t, WS.TransferOwnershipInput(w, u, n));
      }
    case RemoveMemberRoute(u, w, target) =>
      RemoveMemberHandlerKeepsOwners(t, u, w, target);
  }

  lemma InviteRouteKeepsOwners(t: Tables, limits: IS.InviteLimits, route: WriteRoute)
    requires Consistent(t) && OwnerConsistent(t) && Admitted(t, route)
    requires route.CreateInviteRoute? || route.AcceptInviteRoute? || route.DeleteInviteRoute?
    ensures OwnerConsistent(After(t, limits, route))
  {
    match route
    case CreateInviteRoute(u, w, maxUses, id, random, now) =>
      OwnersUntouched(t, CreateInviteHandler(t, limits, u, w, maxUses, id, random, now).after);
    case AcceptInviteRoute(u, code, now) =>
      IS.AcceptInviteKeepsOwners(t, limits, code, u, now);
    case DeleteInviteRoute(u, id) =>
      OwnersUntouched(t, DeleteInviteHandler(t, u, id).after);
  }

  /** Each writing route keeps each invite's `usedCount` between zero and `maxUses`. */
  lemma RouteKeepsUsesWithinLimit(t: Tables, limits: IS.InviteLimits, route: WriteRoute)
    requires Consistent(t) && UsesWithinLimit(t) && Admitted(t, route)
    ensures UsesWithinLimit(After(t, limits, route))
  {
    match route
    case UpdateProfileRoute(u, name, now) =>
    case CreateWorkspaceRoute(u, name, id, now) =>
    case DeleteWorkspaceRoute(u, w) =>
      if AS.Owns(t, w, u) {
        UsesUntouched(t, WS.DeleteWorkspaceStep(t, w).after);
      }
    case TransferOwnershipRoute(u, w, n) =>
    case RemoveMemberRoute(u, w, target) =>
    case CreateInviteRoute(u, w, maxUses, id, random, now) =>
      if AS.Owns(t, w, u) {
        IS.CreateInviteKeepsUsesWithinLimit(t, limits, id, random, w, maxUses, now);
      }
    case AcceptInviteRoute(u, code, now) =>
      IS.AcceptInviteKeepsUsesWithinLimit(t, limits, code, u, now);
    case DeleteInviteRoute(u, id) =>
  }

  lemma UsesUntouched(t: Tables, t': Tables)
    requires UsesWithinLimit(t)
    requires forall k :: k in t'.invites ==> k in t.invites && t'.invites[k] == t.invites[k]
    ensures UsesWithinLimit(t')
  {
  }
}
