/** Queries and writes on the `workspace_users` junction table
    (server/src/repositories/workspace-user/workspace-user-repository.ts). */
module WorkspaceUserRepository {
  import opened Results
  import opened Db

  /** `findByWorkspaceId`: the member rows of one workspace. */
  function FindByWorkspaceId(t: Tables, workspaceId: Id): (r: set<WorkspaceUserRecord>)
    ensures KeysMatch(t) ==>
      forall m :: m in r <==> m in t.members.Values && m.workspaceId == workspaceId
  {
    set k | k in t.members && k.0 == workspaceId :: t.members[k]
  }

  /** `findByUserId`: the member rows of one user, across workspaces. */
  function FindByUserId(t: Tables, userId: Id): (r: set<WorkspaceUserRecord>)
    ensures KeysMatch(t) ==>
      forall m :: m in r <==> m in t.members.Values && m.userId == userId
  {
    set k | k in t.members && k.1 == userId :: t.members[k]
  }

  /** `isMember`: whether a row exists for the pair. */
  function IsMember(t: Tables, workspaceId: Id, userId: Id): (b: bool)
    ensures KeysMatch(t) ==>
      (b <==> exists m :: m in t.members.Values && m.workspaceId == workspaceId && m.userId == userId)
  {
    (workspaceId, userId) in t.members
  }

  /** `countByWorkspaceId`: the length of `findByWorkspaceId`'s result; it
      is zero exactly when the workspace has no member row. */
  function CountByWorkspaceId(t: Tables, workspaceId: Id): (n: nat)
    ensures KeysMatch(t) ==>
      (n == 0 <==> forall m :: m in t.members.Values ==> m.workspaceId != workspaceId)
  {
    |FindByWorkspaceId(t, workspaceId)|
  }

  /** `add`: inserts one row with the given role and `joinedAt` now. The pair
      is the primary key, so a second row for it is refused; both sides must
      exist. */
  function Add(t: Tables, workspaceId: Id, userId: Id, role: MemberRole, now: Time)
    : (s: Step<WorkspaceUserRecord, DbError>)
    ensures s.result.Success? <==>
      (workspaceId, userId) !in t.members && workspaceId in t.workspaces && userId in t.users
    ensures s.result.Failure? ==> s.after == t
    ensures s.result.Failure? ==>
      s.result.error == (if (workspaceId, userId) in t.members then UniqueViolation else ForeignKeyViolation)
    ensures s.result.Success? ==>
      s.result.value == WorkspaceUserRecord(workspaceId, userId, role, now) &&
      s.after == t.(members := t.members[(workspaceId, userId) := s.result.value])
    ensures Consistent(t) ==> Consistent(s.after)
  {
    var key := (workspaceId, userId);
    if key in t.members then Step(Failure(UniqueViolation), t)
    else if workspaceId !in t.workspaces || userId !in t.users then Step(Failure(ForeignKeyViolation), t)
    else
      var m := WorkspaceUserRecord(workspaceId, userId, role, now);
      MemberRowWritten(t, key, m);
      Step(Success(m), t.(members := t.members[key := m]))
  }

  /** `remove`: deletes the row of the pair, if there is one. */
  function Remove(t: Tables, workspaceId: Id, userId: Id): (t': Tables)
    ensures (workspaceId, userId) !in t'.members
    ensures t' == t.(members := t'.members)
    ensures forall k :: k in t'.members <==> k in t.members && k != (workspaceId, userId)
    ensures forall k :: k in t'.members ==> t'.members[k] == t.members[k]
    ensures Consistent(t) ==> Consistent(t')
  {
    var t' := t.(members := t.members - {(workspaceId, userId)});
    assert RowsWithin(t', t);
    RowsWithinKeep(t', t);
    t'
  }

  /** `updateRole`: sets the role of that one pair; no other row or column
      changes, and a missing pair changes nothing. */
  function UpdateRole(t: Tables, workspaceId: Id, userId: Id, role: MemberRole): (t': Tables)
    ensures t' == t.(members := t'.members)
    ensures t'.members.Keys == t.members.Keys
    ensures forall k :: k in t.members && k != (workspaceId, userId) ==> t'.members[k] == t.members[k]
    ensures (workspaceId, userId) in t.members ==>
      t'.members[(workspaceId, userId)] == t.members[(workspaceId, userId)].(role := role)
    ensures Consistent(t) ==> Consistent(t')
  {
    var key := (workspaceId, userId);
    if key in t.members then
      var m := t.members[key].(role := role);
      MemberRowWritten(t, key, m);
      t.(members := t.members[key := m])
    else t
  }

  /** Adding a member counts once in its workspace and nowhere else. */
  lemma AddCounts(t: Tables, workspaceId: Id, userId: Id, role: MemberRole, now: Time, other: Id)
    requires MemberKeysMatch(t)
    requires Add(t, workspaceId, userId, role, now).result.Success?
    ensures CountByWorkspaceId(Add(t, workspaceId, userId, role, now).after, workspaceId) ==
      CountByWorkspaceId(t, workspaceId) + 1
    ensures other != workspaceId ==>
      CountByWorkspaceId(Add(t, workspaceId, userId, role, now).after, other) == CountByWorkspaceId(t, other)
  {
    var s := Add(t, workspaceId, userId, role, now);
    var m := s.result.value;
    assert FindByWorkspaceId(s.after, workspaceId) == FindByWorkspaceId(t, workspaceId) + {m} by {
      var key := (workspaceId, userId);
      assert key in s.after.members && key.0 == workspaceId && s.after.members[key] == m;
    }
    assert m !in FindByWorkspaceId(t, workspaceId);
    if other != workspaceId {
      assert FindByWorkspaceId(s.after, other) == FindByWorkspaceId(t, other);
    }
  }

  /** Removing an existing member uncounts it in its workspace only. */
  lemma RemoveCounts(t: Tables, workspaceId: Id, userId: Id, other: Id)
    requires MemberKeysMatch(t)
    ensures (workspaceId, userId) in t.members ==>
      CountByWorkspaceId(Remove(t, workspaceId, userId), workspaceId) + 1 == CountByWorkspaceId(t, workspaceId)
    ensures (workspaceId, userId) !in t.members ==> Remove(t, workspaceId, userId) == t
    ensures other != workspaceId ==>
      CountByWorkspaceId(Remove(t, workspaceId, userId), other) == CountByWorkspaceId(t, other)
  {
    var key := (workspaceId, userId);
    var t' := Remove(t, workspaceId, userId);
    if key in t.members {
      var m := t.members[key];
      var before, after := FindByWorkspaceId(t, workspaceId), FindByWorkspaceId(t', workspaceId);
      forall x ensures x in after <==> x in before && x != m {
        if x in before && x != m {
          var k :| k in t.members && k.0 == workspaceId && t.members[k] == x;
          assert k != key;
          assert k in t'.members;
        }
      }
      assert after == before - {m};
      assert m in before;
    } else {
      assert t'.members == t.members;
    }
    if other != workspaceId {
      assert FindByWorkspaceId(t', other) == FindByWorkspaceId(t, other);
    }
  }
}
