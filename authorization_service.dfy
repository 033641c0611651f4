/** The authorization service
    (server/src/services/authorization/authorization-service.ts): read-only
    checks over the tables that build the rule list for a user in a
    workspace and answer with a Result. Being functions of the tables, none
    of them can write. */
module AuthorizationService {
  import opened Results
  import opened Errors
  import opened Db
  import A = Abilities
  import WorkspaceRepository
  import WorkspaceUserRepository

  /** `buildAbility(userId, workspaceId?)`: an empty or unknown workspace id
      gives the context-free rules; otherwise the context carries the owner
      and whether the user has a member row. */
  function BuildAbility(t: Tables, userId: Id, workspaceId: Id): (rules: seq<A.Rule>)
    ensures (workspaceId == "" || workspaceId !in t.workspaces) ==>
      rules == [A.Rule(A.Create, A.WorkspaceKind, A.Always)]
  {
    var user := A.UserContext(userId);
    if workspaceId == "" then A.DefineAbilitiesFor(user, None)
    else
      match WorkspaceRepository.FindById(t, workspaceId)
      case None => A.DefineAbilitiesFor(user, None)
      case Some(w) =>
        var isMember := WorkspaceUserRepository.IsMember(t, workspaceId, userId);
        A.DefineAbilitiesFor(user, Some(A.WorkspaceContext(w.id, w.ownerId, isMember)))
  }

  /** The context `buildAbility` finds, if any. */
  function ContextOf(t: Tables, userId: Id, workspaceId: Id): Option<A.WorkspaceContext> {
    if workspaceId == "" || workspaceId !in t.workspaces then None
    else
      var w := t.workspaces[workspaceId];
      Some(A.WorkspaceContext(w.id, w.ownerId, (workspaceId, userId) in t.members))
  }

  lemma BuildAbilityContext(t: Tables, userId: Id, workspaceId: Id)
    ensures BuildAbility(t, userId, workspaceId) == A.DefineAbilitiesFor(A.UserContext(userId), ContextOf(t, userId, workspaceId))
  {
  }

  /** Whether the user owns the stored workspace (a non-empty id is needed for
      the rules to see a context at all). */
  predicate Owns(t: Tables, workspaceId: Id, userId: Id) {
    workspaceId != "" && workspaceId in t.workspaces && t.workspaces[workspaceId].ownerId == userId
  }

  /** Whether the user owns the workspace or has a member row in it. */
  predicate Belongs(t: Tables, workspaceId: Id, userId: Id) {
    workspaceId != "" && workspaceId in t.workspaces &&
    (t.workspaces[workspaceId].ownerId == userId || (workspaceId, userId) in t.members)
  }

  /** `requireWorkspaceOwner`: NOT_FOUND without the workspace, the workspace
      exactly when the user owns it, NOT_WORKSPACE_OWNER otherwise. */
  function RequireWorkspaceOwner(t: Tables, workspaceId: Id, userId: Id): (r: Result<WorkspaceRecord, AppError>)
    ensures workspaceId !in t.workspaces ==> r == Failure(AppError(NotFound, "Workspace not found"))
    ensures r.Success? <==> Owns(t, workspaceId, userId)
    ensures r.Success? ==> r.value == t.workspaces[workspaceId]
    ensures workspaceId in t.workspaces && !Owns(t, workspaceId, userId) ==>
      r == Failure(AppError(NotWorkspaceOwner, "Only the owner can perform this action"))
  {
    match WorkspaceRepository.FindById(t, workspaceId)
    case None => Failure(AppError(NotFound, "Workspace not found"))
    case Some(w) =>
      var ability := BuildAbility(t, userId, workspaceId);
      var subject := A.WorkspaceSubject(w.id, w.ownerId);
      BuildAbilityContext(t, userId, workspaceId);
      A.CanIffPolicy(A.UserContext(userId), ContextOf(t, userId, workspaceId), A.Manage, subject);
      if !A.Can(ability, A.Manage, subject) then
        Failure(AppError(NotWorkspaceOwner, "Only the owner can perform this action"))
      else Success(w)
  }

  /** `requireWorkspaceMember`: NOT_FOUND without the workspace, success
      exactly for the owner or a user with a member row, NOT_WORKSPACE_MEMBER
      otherwise. */
  function RequireWorkspaceMember(t: Tables, workspaceId: Id, userId: Id): (r: Result<(), AppError>)
    ensures workspaceId !in t.workspaces ==> r == Failure(AppError(NotFound, "Workspace not found"))
    ensures r.Success? <==> Belongs(t, workspaceId, userId)
    ensures workspaceId in t.workspaces && !Belongs(t, workspaceId, userId) ==>
      r == Failure(AppError(NotWorkspaceMember, "You are not a member of this workspace"))
  {
    match WorkspaceRepository.FindById(t, workspaceId)
    case None => Failure(AppError(NotFound, "Workspace not found"))
    case Some(w) =>
      var ability := BuildAbility(t, userId, workspaceId);
      var subject := A.WorkspaceSubject(w.id, w.ownerId);
      BuildAbilityContext(t, userId, workspaceId);
      A.CanIffPolicy(A.UserContext(userId), ContextOf(t, userId, workspaceId), A.Read, subject);
      if !A.Can(ability, A.Read, subject) then
        Failure(AppError(NotWorkspaceMember, "You are not a member of this workspace"))
      else Success(())
  }

  /** `requireInviteManager`: there is no existence check, so a missing
      workspace is answered NOT_WORKSPACE_OWNER, never NOT_FOUND. */
  function RequireInviteManager(t: Tables, workspaceId: Id, userId: Id): (r: Result<(), AppError>)
    ensures r.Success? <==> Owns(t, workspaceId, userId)
    ensures r.Failure? ==> r.error == AppError(NotWorkspaceOwner, "Only the owner can manage invites")
  {
    var ability := BuildAbility(t, userId, workspaceId);
    var subject := A.InviteSubject(workspaceId);
    BuildAbilityContext(t, userId, workspaceId);
    A.CanIffPolicy(A.UserContext(userId), ContextOf(t, userId, workspaceId), A.Manage, subject);
    if !A.Can(ability, A.Manage, subject) then
      Failure(AppError(NotWorkspaceOwner, "Only the owner can manage invites"))
    else Success(())
  }

  /** `canRespondToWave`: the rules allow updating the wave. */
  function CanRespondToWave(ability: seq<A.Rule>, fromUserId: Id, toUserId: Id): (b: bool)
    ensures b ==> exists i :: 0 <= i < |ability| && ability[i].kind == A.WaveKind && ability[i].action in {A.Manage, A.Update}
  {
    A.Can(ability, A.Update, A.WaveSubject(fromUserId, toUserId))
  }

  /** `canReadWave`: the rules allow reading the wave. */
  function CanReadWave(ability: seq<A.Rule>, fromUserId: Id, toUserId: Id): (b: bool)
    ensures b ==> exists i :: 0 <= i < |ability| && ability[i].kind == A.WaveKind && ability[i].action in {A.Manage, A.Read}
  {
    A.Can(ability, A.Read, A.WaveSubject(fromUserId, toUserId))
  }

  /** With the rules `buildAbility` gives, responding needs wave rights in the
      workspace and being the recipient; reading needs wave rights and being
      the sender or the recipient. */
  lemma WaveChecks(t: Tables, userId: Id, workspaceId: Id, fromUserId: Id, toUserId: Id)
    ensures CanRespondToWave(BuildAbility(t, userId, workspaceId), fromUserId, toUserId) <==>
      Belongs(t, workspaceId, userId) && toUserId == userId
    ensures CanReadWave(BuildAbility(t, userId, workspaceId), fromUserId, toUserId) <==>
      Belongs(t, workspaceId, userId) && (fromUserId == userId || toUserId == userId)
  {
    BuildAbilityContext(t, userId, workspaceId);
    A.WaveRights(A.UserContext(userId), ContextOf(t, userId, workspaceId), A.Update, fromUserId, toUserId);
    A.WaveRights(A.UserContext(userId), ContextOf(t, userId, workspaceId), A.Read, fromUserId, toUserId);
  }

  /** `requireCanRemoveMember`: NOT_FOUND without the workspace; then the
      owner as target is FORBIDDEN whoever asks, so even the owner cannot
      remove themself; then FORBIDDEN unless the requester is the owner or
      the target. Whether the target is a member is never checked. */
  function RequireCanRemoveMember(t: Tables, workspaceId: Id, requesterId: Id, targetUserId: Id)
    : (r: Result<WorkspaceRecord, AppError>)
    ensures workspaceId !in t.workspaces ==> r == Failure(AppError(NotFound, "Workspace not found"))
    ensures workspaceId in t.workspaces && targetUserId == t.workspaces[workspaceId].ownerId ==>
      r == Failure(AppError(Forbidden, "Owner cannot be removed. Transfer ownership first."))
    ensures r.Success? <==>
      workspaceId in t.workspaces && targetUserId != t.workspaces[workspaceId].ownerId &&
      (requesterId == t.workspaces[workspaceId].ownerId || targetUserId == requesterId)
    ensures r.Success? ==> r.value == t.workspaces[workspaceId]
    ensures r.Failure? && workspaceId in t.workspaces ==> r.error.code == Forbidden
  {
    match WorkspaceRepository.FindById(t, workspaceId)
    case None => Failure(AppError(NotFound, "Workspace not found"))
    case Some(w) =>
      if targetUserId == w.ownerId then
        Failure(AppError(Forbidden, "Owner cannot be removed. Transfer ownership first."))
      else
        var isOwner := w.ownerId == requesterId;
        var isSelf := targetUserId == requesterId;
        if !isOwner && !isSelf then Failure(AppError(Forbidden, "Only the owner can remove other members"))
        else Success(w)
  }

  /** `isWorkspaceOwner`: false when the workspace is absent. */
  function IsWorkspaceOwner(t: Tables, workspaceId: Id, userId: Id): (b: bool)
    ensures b <==> workspaceId in t.workspaces && t.workspaces[workspaceId].ownerId == userId
    ensures workspaceId !in t.workspaces ==> !b
  {
    match WorkspaceRepository.FindById(t, workspaceId)
    case None => false
    case Some(w) => w.ownerId == userId
  }

  /** `isWorkspaceMember`: whether a member row exists for the pair. */
  function IsWorkspaceMember(t: Tables, workspaceId: Id, userId: Id): (b: bool)
    ensures b <==> (workspaceId, userId) in t.members
  {
    WorkspaceUserRepository.IsMember(t, workspaceId, userId)
  }

  /** On owner-consistent tables the rule-based membership check agrees with
      the member table: the owner always has a member row. */
  lemma MemberCheckMatchesTable(t: Tables, workspaceId: Id, userId: Id)
    requires OwnerConsistent(t) && workspaceId != "" && workspaceId in t.workspaces
    ensures RequireWorkspaceMember(t, workspaceId, userId).Success? <==> IsWorkspaceMember(t, workspaceId, userId)
  {
    assert IsOwnerRow(t, workspaceId, t.workspaces[workspaceId].ownerId);
  }
}
