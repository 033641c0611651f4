/** Queries and writes on the `workspaces` table
    (server/src/repositories/workspace/workspace-repository.ts), as functions
    from the tables before to the result and the tables after. Result lists
    are sets: no query orders its rows. */
module WorkspaceRepository {
  import opened Results
  import opened Db

  /** A member row joined with its user (`with: { user: true }`). */
  datatype MemberWithUser = MemberWithUser(member: WorkspaceUserRecord, user: UserRecord)

  /** A workspace joined with its member rows (`with: { members: ... }`). */
  datatype WorkspaceWithMembers = WorkspaceWithMembers(
    workspace: WorkspaceRecord, members: set<MemberWithUser>)

  /** `findById`: the row whose id column is `id`, or null. */
  function FindById(t: Tables, id: Id): (r: Option<WorkspaceRecord>)
    ensures KeysMatch(t) ==>
      (r.Some? <==> exists w :: w in t.workspaces.Values && w.id == id)
    ensures r.Some? ==> r.value in t.workspaces.Values && (KeysMatch(t) ==> r.value.id == id)
  {
    if id in t.workspaces then Some(t.workspaces[id]) else None
  }

  /** `findByOwnerId`: every workspace row whose ownerId column is `ownerId`. */
  function FindByOwnerId(t: Tables, ownerId: Id): (r: set<WorkspaceRecord>)
    ensures forall w :: w in r <==> w in t.workspaces.Values && w.ownerId == ownerId
  {
    set w | w in t.workspaces.Values && w.ownerId == ownerId
  }

  /** `findByUserId`: the workspace of each member row of `userId`. */
  function FindByUserId(t: Tables, userId: Id): (r: set<WorkspaceRecord>)
    ensures forall w :: w in r ==> w in t.workspaces.Values
  {
    set k | k in t.members && k.1 == userId && k.0 in t.workspaces :: t.workspaces[k.0]
  }

  /** On consistent tables the user's workspaces are exactly the stored
      workspaces in which the user has a member row. */
  lemma FindByUserIdExactly(t: Tables, userId: Id, w: WorkspaceRecord)
    requires Consistent(t)
    ensures w in FindByUserId(t, userId) <==>
      w.id in t.workspaces && t.workspaces[w.id] == w && (w.id, userId) in t.members
  {
    if w.id in t.workspaces && t.workspaces[w.id] == w && (w.id, userId) in t.members {
      var k := (w.id, userId);
      assert k in t.members && k.1 == userId && k.0 in t.workspaces && t.workspaces[k.0] == w;
    }
  }

  function MembersOf(t: Tables, id: Id): set<MemberWithUser> {
    set k | k in t.members && k.0 == id && k.1 in t.users :: MemberWithUser(t.members[k], t.users[k.1])
  }

  /** `findWithMembers`: the workspace with all its member rows, each joined
      with its user, or null when there is no such workspace. */
  function FindWithMembers(t: Tables, id: Id): (r: Option<WorkspaceWithMembers>)
    ensures r.Some? <==> id in t.workspaces
    ensures r.Some? ==> r.value.workspace == t.workspaces[id]
  {
    if id in t.workspaces then Some(WorkspaceWithMembers(t.workspaces[id], MembersOf(t, id)))
    else None
  }

  /** On consistent tables every member row of the workspace appears, joined
      with the user it refers to. */
  lemma FindWithMembersComplete(t: Tables, id: Id, userId: Id)
    requires Consistent(t) && id in t.workspaces
    ensures (id, userId) in t.members <==>
      exists m :: m in FindWithMembers(t, id).value.members && m.member.userId == userId
    ensures (id, userId) in t.members ==>
      MemberWithUser(t.members[(id, userId)], t.users[userId]) in FindWithMembers(t, id).value.members
    ensures forall m :: m in FindWithMembers(t, id).value.members ==>
      m.member.workspaceId == id && m.member.userId in t.users &&
      m.user == t.users[m.member.userId] && t.members[(id, m.member.userId)] == m.member
  {
    if (id, userId) in t.members {
      var k := (id, userId);
      assert MemberWithUser(t.members[k], t.users[k.1]) in MembersOf(t, id);
    }
  }

  /** `create`: inserts one row with the given name and owner, a fresh id
      (`defaultRandom`) and `createdAt` now; the owner must be a user. */
  function Create(t: Tables, id: Id, name: string, ownerId: Id, now: Time): (s: Step<WorkspaceRecord, DbError>)
    requires id !in t.workspaces
    ensures s.result.Success? <==> ownerId in t.users
    ensures s.result.Failure? ==> s.result.error == ForeignKeyViolation && s.after == t
    ensures s.result.Success? ==>
      s.result.value == WorkspaceRecord(id, name, ownerId, now) &&
      s.after == t.(workspaces := t.workspaces[id := s.result.value])
    ensures Consistent(t) ==> Consistent(s.after)
  {
    if ownerId !in t.users then Step(Failure(ForeignKeyViolation), t)
    else
      var w := WorkspaceRecord(id, name, ownerId, now);
      Step(Success(w), t.(workspaces := t.workspaces[id := w]))
  }

  /** `delete`: removes the workspace row; its member rows, invites and waves
      go with it (`onDelete: "cascade"`). Deleting a missing id changes nothing. */
  function Delete(t: Tables, id: Id): (t': Tables)
    ensures t'.users == t.users
    ensures t'.workspaces == t.workspaces - {id}
    ensures forall k :: k in t'.members <==> k in t.members && k.0 != id
    ensures forall k :: k in t'.invites <==> k in t.invites && t.invites[k].workspaceId != id
    ensures forall k :: k in t'.waves <==> k in t.waves && t.waves[k].workspaceId != id
    ensures forall k :: k in t'.members ==> t'.members[k] == t.members[k]
    ensures forall k :: k in t'.invites ==> t'.invites[k] == t.invites[k]
    ensures forall k :: k in t'.waves ==> t'.waves[k] == t.waves[k]
  {
    Tables(
      t.users,
      t.workspaces - {id},
      map k | k in t.members && k.0 != id :: t.members[k],
      map k | k in t.invites && t.invites[k].workspaceId != id :: t.invites[k],
      map k | k in t.waves && t.waves[k].workspaceId != id :: t.waves[k])
  }

  /** The cascade leaves no dangling reference behind. */
  lemma DeleteConsistent(t: Tables, id: Id)
    requires Consistent(t)
    ensures Consistent(Delete(t, id))
  {
    var t' := Delete(t, id);
    assert RowsWithin(t', t);
    RowsWithinKeep(t', t);
    DeleteReferences(t, id);
  }

  lemma DeleteReferences(t: Tables, id: Id)
    requires ReferencesExist(t)
    ensures ReferencesExist(Delete(t, id))
  {
    var t' := Delete(t, id);
    forall k | k in t'.members ensures k.0 in t'.workspaces && k.1 in t'.users {
      assert k in t.members && k.0 != id;
    }
    forall k | k in t'.invites ensures t'.invites[k].workspaceId in t'.workspaces {
      assert k in t.invites && t.invites[k].workspaceId != id;
    }
    forall k | k in t'.waves
      ensures t'.waves[k].workspaceId in t'.workspaces
      ensures t'.waves[k].fromUserId in t'.users && t'.waves[k].toUserId in t'.users
    {
      assert k in t.waves && t.waves[k].workspaceId != id;
    }
  }

  /** `updateOwner`: sets `ownerId` of that one workspace; the new owner must
      be a user. An update that matches no row changes nothing. */
  function UpdateOwner(t: Tables, id: Id, newOwnerId: Id): (s: Step<(), DbError>)
    ensures s.result.Failure? <==> id in t.workspaces && newOwnerId !in t.users
    ensures s.result.Failure? ==> s.result.error == ForeignKeyViolation && s.after == t
    ensures s.result.Success? && id !in t.workspaces ==> s.after == t
    ensures s.result.Success? && id in t.workspaces ==>
      s.after == t.(workspaces := t.workspaces[id := t.workspaces[id].(ownerId := newOwnerId)])
    ensures Consistent(t) ==> Consistent(s.after)
  {
    if id !in t.workspaces then Step(Success(()), t)
    else if newOwnerId !in t.users then Step(Failure(ForeignKeyViolation), t)
    else Step(Success(()), t.(workspaces := t.workspaces[id := t.workspaces[id].(ownerId := newOwnerId)]))
  }
}
