/** The workspace service (server/src/services/workspace/workspace-service.ts).
    It does no authorization of its own: the route handlers do that first.
    Each operation is a function from the tables before to the result and
    the tables after, and a method that performs it on the store; a
    transaction that fails part-way rolls the store back. */
module WorkspaceService {
  import opened Results
  import opened Errors
  import opened Db
  import WR = WorkspaceRepository
  import WUR = WorkspaceUserRepository
  import opened Storage

  datatype TransferOwnershipInput = TransferOwnershipInput(workspaceId: Id, currentOwnerId: Id, newOwnerId: Id)

  /** The owner's member row `createWorkspace` writes. */
  function OwnerRow(workspaceId: Id, ownerId: Id, now: Time): WorkspaceUserRecord {
    WorkspaceUserRecord(workspaceId, ownerId, Owner, now)
  }

  /** `createWorkspace`: in one transaction, the workspace row and an owner
      member row for the owner. It returns ok whenever the database accepts
      both, which on consistent tables is exactly when the owner is a user. */
  function CreateWorkspaceStep(t: Tables, name: string, ownerId: Id, id: Id, now: Time)
    : (s: Step<WorkspaceRecord, Fault>)
    requires id !in t.workspaces
    ensures s.result.Failure? ==> s.after == t && s.result.error.Aborted?
    ensures Consistent(t) ==> (s.result.Success? <==> ownerId in t.users)
    ensures s.result.Success? ==>
      s.result.value == WorkspaceRecord(id, name, ownerId, now) &&
      s.after == t.(workspaces := t.workspaces[id := s.result.value],
                    members := t.members[(id, ownerId) := OwnerRow(id, ownerId, now)])
    ensures Consistent(t) ==> Consistent(s.after)
  {
    var created := WR.Create(t, id, name, ownerId, now);
    if created.result.Failure? then Step(Failure(Aborted(created.result.error)), t)
    else
      var added := WUR.Add(created.after, id, ownerId, Owner, now);
      if added.result.Failure? then Step(Failure(Aborted(added.result.error)), t)
      else Step(Success(created.result.value), added.after)
  }

  method CreateWorkspace(store: Store, name: string, ownerId: Id, id: Id, now: Time)
    returns (r: Result<WorkspaceRecord, Fault>)
    requires store.Valid() && id !in store.workspaces
    modifies store
    ensures store.Valid()
    ensures Step(r, store.T()) == CreateWorkspaceStep(old(store.T()), name, ownerId, id, now)
  {
    ghost var before := store.T();
    var created := store.CreateWorkspace(id, name, ownerId, now);
    if created.Failure? {
      return Failure(Aborted(created.error));
    }
    assert (id, ownerId) !in before.members by {
      assert forall k :: k in before.members ==> k.0 in before.workspaces;
    }
    var added := store.AddMember(id, ownerId, Owner, now);
    if added.Failure? {
      // The rollback cannot be reached: a fresh workspace has no member row yet.
      assert false;
    }
    r := Success(created.value);
  }

  /** After `createWorkspace` the new workspace has exactly one member, the
      owner, with the owner role. */
  lemma CreateWorkspaceSoleMember(t: Tables, name: string, ownerId: Id, id: Id, now: Time)
    requires ReferencesExist(t) && id !in t.workspaces && ownerId in t.users
    ensures CreateWorkspaceStep(t, name, ownerId, id, now).result.Success?
    ensures WUR.FindByWorkspaceId(CreateWorkspaceStep(t, name, ownerId, id, now).after, id) ==
      {OwnerRow(id, ownerId, now)}
    ensures OwnerIds(CreateWorkspaceStep(t, name, ownerId, id, now).after, id) == {ownerId}
  {
    var t' := CreateWorkspaceStep(t, name, ownerId, id, now).after;
    forall k | k in t.members ensures k.0 != id {
      assert k.0 in t.workspaces;
    }
    assert (id, ownerId) in t'.members;
    assert OwnerIds(t', id) == {ownerId};
  }

  /** `createWorkspace` keeps every workspace's owner row in step with its owner. */
  lemma CreateWorkspaceKeepsOwners(t: Tables, name: string, ownerId: Id, id: Id, now: Time)
    requires ReferencesExist(t) && OwnerConsistent(t) && id !in t.workspaces
    ensures OwnerConsistent(CreateWorkspaceStep(t, name, ownerId, id, now).after)
  {
    var s := CreateWorkspaceStep(t, name, ownerId, id, now);
    if s.result.Success? {
      var t' := s.after;
      forall w | w in t'.workspaces ensures IsOwnerRow(t', w, t'.workspaces[w].ownerId) {
        if w != id {
          assert IsOwnerRow(t, w, t.workspaces[w].ownerId);
          assert (w, t.workspaces[w].ownerId) != (id, ownerId);
        }
      }
      forall k | k in t'.members && t'.members[k].role == Owner
        ensures k.0 in t'.workspaces && t'.workspaces[k.0].ownerId == k.1
      {
        if k != (id, ownerId) {
          assert k in t.members;
          assert k.0 != id;
        }
      }
    }
  }

  /** `deleteWorkspace`: always ok; the cascade removes the dependants. */
  function DeleteWorkspaceStep(t: Tables, workspaceId: Id): (s: Step<(), Fault>)
    ensures s.result.Success?
    ensures workspaceId !in s.after.workspaces && s.after == WR.Delete(t, workspaceId)
  {
    Step(Success(()), WR.Delete(t, workspaceId))
  }

  method DeleteWorkspace(store: Store, workspaceId: Id) returns (r: Result<(), Fault>)
    requires store.Valid()
    modifies store
    ensures store.Valid()
    ensures Step(r, store.T()) == DeleteWorkspaceStep(old(store.T()), workspaceId)
  {
    store.DeleteWorkspace(workspaceId);
    r := Success(());
  }

  /** Deleting a workspace keeps every other workspace's owner row. */
  lemma DeleteWorkspaceKeepsOwners(t: Tables, workspaceId: Id)
    requires OwnerConsistent(t)
    ensures OwnerConsistent(DeleteWorkspaceStep(t, workspaceId).after)
  {
    var t' := DeleteWorkspaceStep(t, workspaceId).after;
    forall w | w in t'.workspaces ensures IsOwnerRow(t', w, t'.workspaces[w].ownerId) {
      assert IsOwnerRow(t, w, t.workspaces[w].ownerId);
      assert (w, t.workspaces[w].ownerId) in t'.members;
    }
  }

  /** `transferOwnership`: NOT_WORKSPACE_MEMBER, changing nothing, unless the
      new owner has a member row; otherwise, in one transaction, the new
      owner id, the current owner demoted to member, then the new owner
      promoted to owner. The caller vouches for `currentOwnerId`. */
  function TransferOwnershipStep(t: Tables, input: TransferOwnershipInput): (s: Step<(), Fault>)
    ensures !WUR.IsMember(t, input.workspaceId, input.newOwnerId) ==>
      s == Step(Failure(Rejected(AppError(NotWorkspaceMember, "New owner must be a workspace member"))), t)
    ensures s.result.Failure? ==> s.after == t
    ensures Consistent(t) ==> (s.result.Success? <==> WUR.IsMember(t, input.workspaceId, input.newOwnerId))
    ensures Consistent(t) ==> Consistent(s.after)
  {
    if !WUR.IsMember(t, input.workspaceId, input.newOwnerId) then
      Step(Failure(Rejected(AppError(NotWorkspaceMember, "New owner must be a workspace member"))), t)
    else
      var moved := WR.UpdateOwner(t, input.workspaceId, input.newOwnerId);
      if moved.result.Failure? then Step(Failure(Aborted(moved.result.error)), t)
      else
        var demoted := WUR.UpdateRole(moved.after, input.workspaceId, input.currentOwnerId, Member);
        var promoted := WUR.UpdateRole(demoted, input.workspaceId, input.newOwnerId, Owner);
        Step(Success(()), promoted)
  }

  method TransferOwnership(store: Store, input: TransferOwnershipInput) returns (r: Result<(), Fault>)
    requires store.Valid()
    modifies store
    ensures store.Valid()
    ensures Step(r, store.T()) == TransferOwnershipStep(old(store.T()), input)
  {
    var isMember := WUR.IsMember(store.T(), input.workspaceId, input.newOwnerId);
    if !isMember {
      return Failure(Rejected(AppError(NotWorkspaceMember, "New owner must be a workspace member")));
    }
    var moved := store.UpdateWorkspaceOwner(input.workspaceId, input.newOwnerId);
    if moved.Failure? {
      // The rollback cannot be reached: the new owner's member row refers to a user.
      assert false;
    }
    store.UpdateMemberRole(input.workspaceId, input.currentOwnerId, Member);
    store.UpdateMemberRole(input.workspaceId, input.newOwnerId, Owner);
    r := Success(());
  }

  /** A successful transfer leaves the new owner as `ownerId` with the owner
      role and the previous owner, if someone else, with the member role. */
  lemma TransferOwnershipOutcome(t: Tables, input: TransferOwnershipInput)
    requires ReferencesExist(t)
    requires TransferOwnershipStep(t, input).result.Success?
    ensures var t' := TransferOwnershipStep(t, input).after;
      input.workspaceId in t'.workspaces &&
      t'.workspaces[input.workspaceId].ownerId == input.newOwnerId &&
      IsOwnerRow(t', input.workspaceId, input.newOwnerId) &&
      (input.currentOwnerId != input.newOwnerId && (input.workspaceId, input.currentOwnerId) in t.members ==>
         t'.members[(input.workspaceId, input.currentOwnerId)].role == Member)
  {
  }

  /** What a transfer writes when the new owner has a member row: the
      workspace's `ownerId`, the current owner's role (member) and the new
      owner's role (owner, written last); every other row stays as it was. */
  lemma TransferOwnershipEffect(t: Tables, input: TransferOwnershipInput)
    requires ReferencesExist(t) && WUR.IsMember(t, input.workspaceId, input.newOwnerId)
    ensures var s := TransferOwnershipStep(t, input);
      var w0 := input.workspaceId;
      var nk := (w0, input.newOwnerId);
      var ck := (w0, input.currentOwnerId);
      && s.result.Success?
      && w0 in t.workspaces
      && s.after.users == t.users && s.after.invites == t.invites && s.after.waves == t.waves
      && s.after.workspaces == t.workspaces[w0 := t.workspaces[w0].(ownerId := input.newOwnerId)]
      && s.after.members.Keys == t.members.Keys
      && s.after.members[nk] == t.members[nk].(role := Owner)
      && (ck != nk && ck in t.members ==> s.after.members[ck] == t.members[ck].(role := Member))
      && (forall k :: k in t.members && k != nk && k != ck ==> s.after.members[k] == t.members[k])
  {
    var w0 := input.workspaceId;
    assert w0 in t.workspaces && input.newOwnerId in t.users;
  }

  /** Transferring to oneself keeps the owner role, because the promotion is
      written after the demotion: on owner-consistent tables nothing changes. */
  lemma TransferToSelfChangesNothing(t: Tables, workspaceId: Id, ownerId: Id)
    requires ReferencesExist(t) && OwnerConsistent(t)
    requires workspaceId in t.workspaces && t.workspaces[workspaceId].ownerId == ownerId
    ensures TransferOwnershipStep(t, TransferOwnershipInput(workspaceId, ownerId, ownerId)) == Step(Success(()), t)
  {
    var input := TransferOwnershipInput(workspaceId, ownerId, ownerId);
    assert IsOwnerRow(t, workspaceId, ownerId);
    TransferOwnershipEffect(t, input);
    var t' := TransferOwnershipStep(t, input).after;
    assert t'.workspaces == t.workspaces;
    assert t'.members == t.members;
  }

  /** When the caller supplies the real owner, a transfer keeps every
      workspace's owner row in step with its owner. */
  lemma TransferOwnershipKeepsOwners(t: Tables, input: TransferOwnershipInput)
    requires ReferencesExist(t) && OwnerConsistent(t)
    requires input.workspaceId in t.workspaces ==> t.workspaces[input.workspaceId].ownerId == input.currentOwnerId
    ensures OwnerConsistent(TransferOwnershipStep(t, input).after)
  {
    if WUR.IsMember(t, input.workspaceId, input.newOwnerId) {
      TransferOwnershipEffect(t, input);
      OwnerMoved(t, TransferOwnershipStep(t, input).after, input.workspaceId, input.currentOwnerId, input.newOwnerId);
    }
  }

  /** Moving a workspace's `ownerId` from `cur` to `next`, demoting `cur`'s row
      and promoting `next`'s row, keeps owner consistency. */
  lemma OwnerMoved(t: Tables, t': Tables, w0: Id, cur: Id, next: Id)
    requires OwnerConsistent(t) && w0 in t.workspaces && t.workspaces[w0].ownerId == cur
    requires (w0, next) in t.members
    requires t'.workspaces == t.workspaces[w0 := t.workspaces[w0].(ownerId := next)]
    requires t'.members.Keys == t.members.Keys
    requires t'.members[(w0, next)] == t.members[(w0, next)].(role := Owner)
    requires cur != next && (w0, cur) in t.members ==> t'.members[(w0, cur)] == t.members[(w0, cur)].(role := Member)
    requires forall k :: k in t.members && k != (w0, next) && k != (w0, cur) ==> t'.members[k] == t.members[k]
    ensures OwnerConsistent(t')
  {
    forall w | w in t'.workspaces ensures IsOwnerRow(t', w, t'.workspaces[w].ownerId) {
      if w != w0 {
        assert IsOwnerRow(t, w, t.workspaces[w].ownerId);
      }
    }
    forall k | k in t'.members && t'.members[k].role == Owner
      ensures k.0 in t'.workspaces && t'.workspaces[k.0].ownerId == k.1
    {
      if k != (w0, next) && k != (w0, cur) {
        assert t.members[k].role == Owner;
        assert k.0 != w0;
      }
    }
  }

  /** `getWorkspaceWithMembers`: NOT_FOUND, or the workspace with its members. */
  function GetWorkspaceWithMembers(t: Tables, workspaceId: Id): (r: Result<WR.WorkspaceWithMembers, AppError>)
    ensures r.Failure? <==> workspaceId !in t.workspaces
    ensures r.Failure? ==> r.error == AppError(NotFound, "Workspace not found")
    ensures r.Success? ==> Some(r.value) == WR.FindWithMembers(t, workspaceId)
  {
    match WR.FindWithMembers(t, workspaceId)
    case None => Failure(AppError(NotFound, "Workspace not found"))
    case Some(w) => Success(w)
  }

  /** `getWorkspacesByUserId` */
  function GetWorkspacesByUserId(t: Tables, userId: Id): (r: set<WorkspaceRecord>)
    ensures Consistent(t) ==> forall w :: w in r ==> (w.id, userId) in t.members
  {
    WR.FindByUserId(t, userId)
  }

  /** `removeMember`: deletes the pair's row unconditionally and always
      returns ok; the service itself does not protect the owner. */
  function RemoveMemberStep(t: Tables, workspaceId: Id, targetUserId: Id): (s: Step<(), Fault>)
    ensures s.result.Success?
    ensures (workspaceId, targetUserId) !in s.after.members
    ensures s.after == WUR.Remove(t, workspaceId, targetUserId)
  {
    Step(Success(()), WUR.Remove(t, workspaceId, targetUserId))
  }

  method RemoveMember(store: Store, workspaceId: Id, targetUserId: Id) returns (r: Result<(), Fault>)
    requires store.Valid()
    modifies store
    ensures store.Valid()
    ensures Step(r, store.T()) == RemoveMemberStep(old(store.T()), workspaceId, targetUserId)
  {
    store.RemoveMember(workspaceId, targetUserId);
    r := Success(());
  }

  /** Removing anyone but a workspace's owner keeps owner consistency. */
  lemma RemoveNonOwnerKeepsOwners(t: Tables, workspaceId: Id, targetUserId: Id)
    requires OwnerConsistent(t)
    requires workspaceId in t.workspaces ==> targetUserId != t.workspaces[workspaceId].ownerId
    ensures OwnerConsistent(RemoveMemberStep(t, workspaceId, targetUserId).after)
  {
    var t' := RemoveMemberStep(t, workspaceId, targetUserId).after;
    forall w | w in t'.workspaces ensures IsOwnerRow(t', w, t'.workspaces[w].ownerId) {
      assert IsOwnerRow(t, w, t.workspaces[w].ownerId);
    }
  }
}
