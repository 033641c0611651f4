/** The database as one mutable store: one map per table, changed in place
    by the repository writes. Each write is proved to leave the store as the
    matching repository function says, and to keep the database constraints. */
module Storage {
  import opened Results
  import opened Db
  import WorkspaceRepository
  import WorkspaceUserRepository
  import InviteRepository
  import WaveRepository
  import UserRepository

  class Store {
    var users: map<Id, UserRecord>
    var workspaces: map<Id, WorkspaceRecord>
    var members: map<(Id, Id), WorkspaceUserRecord>
    var invites: map<Id, InviteRecord>
    var waves: map<Id, WaveRecord>

    /** The current contents of the five tables. */
    function T(): Tables
      reads this
    {
      Tables(users, workspaces, members, invites, waves)
    }

    /** The store satisfies every constraint the schema declares. */
    ghost predicate Valid()
      reads this
    {
      Consistent(T())
    }

    /** An empty database. */
    constructor ()
      ensures T() == Empty && Valid()
    {
      users, workspaces, members, invites, waves := map[], map[], map[], map[], map[];
      EmptyConsistent();
    }

    /** Rolling a transaction back: every table returns to a snapshot. */
    method Restore(t: Tables)
      requires Consistent(t)
      modifies this
      ensures T() == t && Valid()
    {
      users, workspaces, members, invites, waves := t.users, t.workspaces, t.members, t.invites, t.waves;
    }

    /** `workspaceRepository.createWorkspace` */
    method CreateWorkspace(id: Id, name: string, ownerId: Id, now: Time)
      returns (r: Result<WorkspaceRecord, DbError>)
      requires Valid() && id !in workspaces
      modifies this
      ensures Valid()
      ensures Step(r, T()) == WorkspaceRepository.Create(old(T()), id, name, ownerId, now)
    {
      ghost var spec := WorkspaceRepository.Create(T(), id, name, ownerId, now);
      if ownerId !in users {
        return Failure(ForeignKeyViolation);
      }
      var w := WorkspaceRecord(id, name, ownerId, now);
      workspaces := workspaces[id := w];
      r := Success(w);
    }

    /** `workspaceRepository.deleteWorkspace`, with the cascades. */
    method DeleteWorkspace(id: Id)
      requires Valid()
      modifies this
      ensures Valid()
      ensures T() == WorkspaceRepository.Delete(old(T()), id)
    {
      ghost var before := T();
      var after := WorkspaceRepository.Delete(T(), id);
      workspaces, members, invites, waves := after.workspaces, after.members, after.invites, after.waves;
      WorkspaceRepository.DeleteConsistent(before, id);
    }

    /** `workspaceRepository.updateWorkspaceOwner` */
    method UpdateWorkspaceOwner(id: Id, newOwnerId: Id) returns (r: Result<(), DbError>)
      requires Valid()
      modifies this
      ensures Valid()
      ensures Step(r, T()) == WorkspaceRepository.UpdateOwner(old(T()), id, newOwnerId)
    {
      ghost var spec := WorkspaceRepository.UpdateOwner(T(), id, newOwnerId);
      if id !in workspaces {
        return Success(());
      }
      if newOwnerId !in users {
        return Failure(ForeignKeyViolation);
      }
      workspaces := workspaces[id := workspaces[id].(ownerId := newOwnerId)];
      r := Success(());
    }

    /** `workspaceUserRepository.addMember` */
    method AddMember(workspaceId: Id, userId: Id, role: MemberRole, now: Time)
      returns (r: Result<WorkspaceUserRecord, DbError>)
      requires Valid()
      modifies this
      ensures Valid()
      ensures Step(r, T()) == WorkspaceUserRepository.Add(old(T()), workspaceId, userId, role, now)
    {
      ghost var spec := WorkspaceUserRepository.Add(T(), workspaceId, userId, role, now);
      if (workspaceId, userId) in members {
        return Failure(UniqueViolation);
      }
      if workspaceId !in workspaces || userId !in users {
        return Failure(ForeignKeyViolation);
      }
      var m := WorkspaceUserRecord(workspaceId, userId, role, now);
      members := members[(workspaceId, userId) := m];
      r := Success(m);
    }

    /** `workspaceUserRepository.removeMember` */
    method RemoveMember(workspaceId: Id, userId: Id)
      requires Valid()
      modifies this
      ensures Valid()
      ensures T() == WorkspaceUserRepository.Remove(old(T()), workspaceId, userId)
    {
      ghost var spec := WorkspaceUserRepository.Remove(T(), workspaceId, userId);
      members := members - {(workspaceId, userId)};
    }

    /** `workspaceUserRepository.updateMemberRole` */
    method UpdateMemberRole(workspaceId: Id, userId: Id, role: MemberRole)
      requires Valid()
      modifies this
      ensures Valid()
      ensures T() == WorkspaceUserRepository.UpdateRole(old(T()), workspaceId, userId, role)
    {
      ghost var spec := WorkspaceUserRepository.UpdateRole(T(), workspaceId, userId, role);
      var key := (workspaceId, userId);
      if key in members {
        members := members[key := members[key].(role := role)];
      }
    }

    /** `inviteRepository.createInvite` */
    method CreateInvite(id: Id, workspaceId: Id, code: string, expiresAt: Time, maxUses: Option<int>, now: Time)
      returns (r: Result<InviteRecord, DbError>)
      requires Valid() && id !in invites
      modifies this
      ensures Valid()
      ensures Step(r, T()) == InviteRepository.CreateInvite(old(T()), id, workspaceId, code, expiresAt, maxUses, now)
    {
      ghost var spec := InviteRepository.CreateInvite(T(), id, workspaceId, code, expiresAt, maxUses, now);
      if maxUses.Some? && !InInt4(maxUses.value) {
        return Failure(OutOfRange);
      }
      if exists k :: k in invites && invites[k].code == code {
        return Failure(UniqueViolation);
      }
      if workspaceId !in workspaces {
        return Failure(ForeignKeyViolation);
      }
      var inv := InviteRecord(id, workspaceId, code, expiresAt, maxUses, 0, now);
      invites := invites[id := inv];
      r := Success(inv);
    }

    /** `inviteRepository.incrementInviteUsedCount` */
    method IncrementInviteUsedCount(id: Id) returns (r: Result<(), DbError>)
      requires Valid()
      modifies this
      ensures Valid()
      ensures Step(r, T()) == InviteRepository.IncrementInviteUsedCount(old(T()), id)
    {
      ghost var spec := InviteRepository.IncrementInviteUsedCount(T(), id);
      if id !in invites {
        return Success(());
      }
      var count := invites[id].usedCount + 1;
      if !InInt4(count) {
        return Failure(OutOfRange);
      }
      invites := invites[id := invites[id].(usedCount := count)];
      r := Success(());
    }

    /** `inviteRepository.deleteInvite` */
    method DeleteInvite(id: Id)
      requires Valid()
      modifies this
      ensures Valid()
      ensures T() == InviteRepository.DeleteInvite(old(T()), id)
    {
      ghost var spec := InviteRepository.DeleteInvite(T(), id);
      invites := invites - {id};
    }

    /** `waveRepository.findPendingWaveBetweenUsers`: one of the matching
        pending waves, or none when there is no match. */
    method FindPendingWaveBetweenUsers(workspaceId: Id, fromUserId: Id, toUserId: Id)
      returns (r: Option<WaveRecord>)
      ensures r.None? <==> WaveRepository.PendingWavesBetweenUsers(T(), workspaceId, fromUserId, toUserId) == {}
      ensures r.Some? ==> r.value in WaveRepository.PendingWavesBetweenUsers(T(), workspaceId, fromUserId, toUserId)
    {
      var candidates := WaveRepository.PendingWavesBetweenUsers(T(), workspaceId, fromUserId, toUserId);
      if candidates == {} {
        return None;
      }
      var w :| w in candidates;
      r := Some(w);
    }

    /** `waveRepository.createWave` */
    method CreateWave(id: Id, workspaceId: Id, fromUserId: Id, toUserId: Id, status: WaveStatus, now: Time)
      returns (r: Result<WaveRecord, DbError>)
      requires Valid() && id !in waves
      modifies this
      ensures Valid()
      ensures Step(r, T()) == WaveRepository.CreateWave(old(T()), id, workspaceId, fromUserId, toUserId, status, now)
    {
      ghost var spec := WaveRepository.CreateWave(T(), id, workspaceId, fromUserId, toUserId, status, now);
      if workspaceId !in workspaces || fromUserId !in users || toUserId !in users {
        return Failure(ForeignKeyViolation);
      }
      var w := WaveRecord(id, workspaceId, fromUserId, toUserId, status, now, None);
      waves := waves[id := w];
      r := Success(w);
    }

    /** `waveRepository.updateWaveStatus` */
    method UpdateWaveStatus(id: Id, status: WaveStatus, now: Time)
      requires Valid()
      modifies this
      ensures Valid()
      ensures T() == WaveRepository.UpdateWaveStatus(old(T()), id, status, now)
    {
      ghost var spec := WaveRepository.UpdateWaveStatus(T(), id, status, now);
      if id in waves {
        var respondedAt := if status != Pending then Some(now) else None;
        var w := waves[id].(status := status, respondedAt := respondedAt);
        assert T().(waves := waves[id := w]) == spec;
        waves := waves[id := w];
      }
    }

    /** `userRepository.createUser` */
    method CreateUser(id: Id, email: string, displayName: string, now: Time)
      returns (r: Result<UserRecord, DbError>)
      requires Valid()
      modifies this
      ensures Valid()
      ensures Step(r, T()) == UserRepository.CreateUser(old(T()), id, email, displayName, now)
    {
      ghost var spec := UserRepository.CreateUser(T(), id, email, displayName, now);
      if id in users || exists k :: k in users && users[k].email == email {
        return Failure(UniqueViolation);
      }
      var u := UserRecord(id, email, displayName, now, now);
      users := users[id := u];
      r := Success(u);
    }

    /** `userRepository.updateUser` */
    method UpdateUser(id: Id, displayName: Option<string>, now: Time) returns (r: Option<UserRecord>)
      requires Valid()
      modifies this
      ensures Valid()
      ensures (r, T()) == UserRepository.UpdateUser(old(T()), id, displayName, now)
    {
      ghost var spec := UserRepository.UpdateUser(T(), id, displayName, now);
      if id !in users {
        return None;
      }
      var u := users[id];
      var name := if displayName.Some? then displayName.value else u.displayName;
      var u' := u.(displayName := name, updatedAt := now);
      users := users[id := u'];
      r := Some(u');
    }
  }
}
