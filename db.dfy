/** The persisted tables (server/db/schema.ts): row shapes, enums, keys,
    defaults and references, plus the domain invariants the services are
    meant to keep on top of them. */
module Db {
  import opened Results
  import opened Errors

  /** A uuid column value. */
  type Id = string

  /** A timestamp column value, in milliseconds since the Unix epoch. */
  type Time = int

  datatype MemberRole = Owner | Member

  datatype WaveStatus = Pending | Accepted | Declined | Expired

  datatype UserRecord = UserRecord(
    id: Id, email: string, displayName: string, createdAt: Time, updatedAt: Time)

  datatype WorkspaceRecord = WorkspaceRecord(id: Id, name: string, ownerId: Id, createdAt: Time)

  /** A row of the workspace_users junction table. */
  datatype WorkspaceUserRecord = WorkspaceUserRecord(
    workspaceId: Id, userId: Id, role: MemberRole, joinedAt: Time)

  /** A row of workspace_invites; `maxUses == None` is the SQL null (unlimited). */
  datatype InviteRecord = InviteRecord(
    id: Id, workspaceId: Id, code: string, expiresAt: Time,
    maxUses: Option<int>, usedCount: int, createdAt: Time)

  datatype WaveRecord = WaveRecord(
    id: Id, workspaceId: Id, fromUserId: Id, toUserId: Id,
    status: WaveStatus, createdAt: Time, respondedAt: Option<Time>)

  /** The five tables, each keyed by its primary key. */
  datatype Tables = Tables(
    users: map<Id, UserRecord>,
    workspaces: map<Id, WorkspaceRecord>,
    members: map<(Id, Id), WorkspaceUserRecord>,
    invites: map<Id, InviteRecord>,
    waves: map<Id, WaveRecord>)

  const Empty: Tables := Tables(map[], map[], map[], map[], map[])

  /** Range of a Postgres `integer` column. */
  const Int4Min: int := -0x8000_0000
  const Int4Max: int := 0x7fff_ffff

  predicate InInt4(n: int) { Int4Min <= n <= Int4Max }

  /** What the database raises when a statement breaks a constraint. */
  datatype DbError = UniqueViolation | ForeignKeyViolation | OutOfRange

  /** The outcome of an operation on the tables: its result and the tables after it. */
  datatype Step<+T, +E> = Step(result: Result<T, E>, after: Tables)

  /** How a service call can end short of success: a business rule rejected it
      with an AppError result, or the database aborted it with an exception. */
  datatype Fault = Rejected(error: AppError) | Aborted(cause: DbError)

  // ---- Constraints the database enforces ----

  /** Every row is stored under its own primary key. */
  ghost predicate KeysMatch(t: Tables) {
    UserKeysMatch(t) && WorkspaceKeysMatch(t) && MemberKeysMatch(t) && InviteKeysMatch(t) && WaveKeysMatch(t)
  }

  ghost predicate UserKeysMatch(t: Tables) {
    forall k :: k in t.users ==> t.users[k].id == k
  }

  ghost predicate WorkspaceKeysMatch(t: Tables) {
    forall k :: k in t.workspaces ==> t.workspaces[k].id == k
  }

  ghost predicate MemberKeysMatch(t: Tables) {
    forall k :: k in t.members ==> t.members[k].workspaceId == k.0 && t.members[k].userId == k.1
  }

  ghost predicate InviteKeysMatch(t: Tables) {
    forall k :: k in t.invites ==> t.invites[k].id == k
  }

  ghost predicate WaveKeysMatch(t: Tables) {
    forall k :: k in t.waves ==> t.waves[k].id == k
  }

  /** `users.email` and `workspace_invites.code` are unique. */
  ghost predicate UniqueColumns(t: Tables) {
    UniqueEmails(t) && UniqueInviteCodes(t)
  }

  ghost predicate UniqueEmails(t: Tables) {
    forall a, b :: a in t.users && b in t.users && t.users[a].email == t.users[b].email ==> a == b
  }

  ghost predicate UniqueInviteCodes(t: Tables) {
    forall a, b :: a in t.invites && b in t.invites && t.invites[a].code == t.invites[b].code ==> a == b
  }

  /** Every foreign key refers to an existing row. */
  ghost predicate ReferencesExist(t: Tables) {
    && (forall k :: k in t.workspaces ==> t.workspaces[k].ownerId in t.users)
    && (forall k :: k in t.members ==> k.0 in t.workspaces && k.1 in t.users)
    && (forall k :: k in t.invites ==> t.invites[k].workspaceId in t.workspaces)
    && (forall k :: k in t.waves ==>
          t.waves[k].workspaceId in t.workspaces &&
          t.waves[k].fromUserId in t.users && t.waves[k].toUserId in t.users)
  }

  /** The integer columns of invites hold 32-bit values. */
  ghost predicate IntColumnsInRange(t: Tables) {
    forall k :: k in t.invites ==>
      InInt4(t.invites[k].usedCount) &&
      (t.invites[k].maxUses.Some? ==> InInt4(t.invites[k].maxUses.value))
  }

  ghost predicate Consistent(t: Tables) {
    KeysMatch(t) && UniqueColumns(t) && ReferencesExist(t) && IntColumnsInRange(t)
  }

  /** Every row of `t'` is a row of `t`, under the same key. */
  ghost predicate RowsWithin(t': Tables, t: Tables) {
    && (forall k :: k in t'.users ==> k in t.users && t'.users[k] == t.users[k])
    && (forall k :: k in t'.workspaces ==> k in t.workspaces && t'.workspaces[k] == t.workspaces[k])
    && (forall k :: k in t'.members ==> k in t.members && t'.members[k] == t.members[k])
    && (forall k :: k in t'.invites ==> k in t.invites && t'.invites[k] == t.invites[k])
    && (forall k :: k in t'.waves ==> k in t.waves && t'.waves[k] == t.waves[k])
  }

  /** Removing rows cannot break a key, a unique column or a range; only
      references need a separate argument. */
  lemma RowsWithinKeep(t': Tables, t: Tables)
    requires RowsWithin(t', t)
    ensures KeysMatch(t) ==> KeysMatch(t')
    ensures UniqueColumns(t) ==> UniqueColumns(t')
    ensures IntColumnsInRange(t) ==> IntColumnsInRange(t')
  {
  }

  /** Writing a member row whose columns match its key keeps the tables
      consistent when the row already existed or both its sides exist. */
  lemma MemberRowWritten(t: Tables, key: (Id, Id), m: WorkspaceUserRecord)
    ensures (Consistent(t) && m.workspaceId == key.0 && m.userId == key.1 &&
             (key in t.members || (key.0 in t.workspaces && key.1 in t.users))) ==>
      Consistent(t.(members := t.members[key := m]))
  {
    var t' := t.(members := t.members[key := m]);
    if Consistent(t) && m.workspaceId == key.0 && m.userId == key.1 &&
      (key in t.members || (key.0 in t.workspaces && key.1 in t.users))
    {
      assert MemberKeysMatch(t');
      assert ReferencesExist(t');
    }
  }

  /** Writing an invite row whose id is its key, whose workspace exists,
      whose code no other invite holds and whose integers fit. */
  lemma InviteRowWritten(t: Tables, inv: InviteRecord)
    ensures (Consistent(t) && inv.workspaceId in t.workspaces &&
             InInt4(inv.usedCount) && (inv.maxUses.Some? ==> InInt4(inv.maxUses.value)) &&
             (forall k :: k in t.invites && k != inv.id ==> t.invites[k].code != inv.code)) ==>
      Consistent(t.(invites := t.invites[inv.id := inv]))
  {
    var t' := t.(invites := t.invites[inv.id := inv]);
    if Consistent(t) && inv.workspaceId in t.workspaces &&
       InInt4(inv.usedCount) && (inv.maxUses.Some? ==> InInt4(inv.maxUses.value)) &&
       (forall k :: k in t.invites && k != inv.id ==> t.invites[k].code != inv.code)
    {
      assert InviteKeysMatch(t');
      assert UniqueInviteCodes(t');
      assert ReferencesExist(t');
      assert IntColumnsInRange(t');
    }
  }

  /** Writing a wave row whose id is its key and whose workspace and users exist. */
  lemma WaveRowWritten(t: Tables, w: WaveRecord)
    ensures (Consistent(t) && w.workspaceId in t.workspaces &&
             w.fromUserId in t.users && w.toUserId in t.users) ==>
      Consistent(t.(waves := t.waves[w.id := w]))
  {
    var t' := t.(waves := t.waves[w.id := w]);
    if Consistent(t) && w.workspaceId in t.workspaces && w.fromUserId in t.users && w.toUserId in t.users {
      assert WaveKeysMatch(t');
      forall k | k in t'.waves
        ensures t'.waves[k].workspaceId in t'.workspaces
        ensures t'.waves[k].fromUserId in t'.users && t'.waves[k].toUserId in t'.users
      {
        if k != w.id {
          assert t'.waves[k] == t.waves[k];
        }
      }
      assert ReferencesExist(t');
    }
  }

  /** Writing a user row whose id is its key and whose email no other user holds. */
  lemma UserRowWritten(t: Tables, u: UserRecord)
    ensures (Consistent(t) && (forall k :: k in t.users && k != u.id ==> t.users[k].email != u.email)) ==>
      Consistent(t.(users := t.users[u.id := u]))
  {
    var t' := t.(users := t.users[u.id := u]);
    if Consistent(t) && (forall k :: k in t.users && k != u.id ==> t.users[k].email != u.email) {
      assert UserKeysMatch(t');
      assert UniqueEmails(t');
      assert ReferencesExist(t');
    }
  }

  lemma EmptyConsistent()
    ensures Consistent(Empty)
  {
  }

  // ---- Domain invariants the services are meant to keep ----

  predicate IsOwnerRow(t: Tables, workspaceId: Id, userId: Id) {
    (workspaceId, userId) in t.members && t.members[(workspaceId, userId)].role == Owner
  }

  /** Every workspace has an owner-role member row for its `ownerId`, and no
      other row has the owner role. */
  ghost predicate OwnerConsistent(t: Tables) {
    && (forall w :: w in t.workspaces ==> IsOwnerRow(t, w, t.workspaces[w].ownerId))
    && (forall k :: k in t.members && t.members[k].role == Owner ==>
          k.0 in t.workspaces && t.workspaces[k.0].ownerId == k.1)
  }

  /** The users holding the owner role in a workspace. */
  function OwnerIds(t: Tables, workspaceId: Id): set<Id> {
    set k | k in t.members && k.0 == workspaceId && t.members[k].role == Owner :: k.1
  }

  /** Owner consistency means exactly one owner row per workspace, the one of `ownerId`. */
  lemma OwnerConsistentExactlyOne(t: Tables, workspaceId: Id)
    requires OwnerConsistent(t) && workspaceId in t.workspaces
    ensures OwnerIds(t, workspaceId) == {t.workspaces[workspaceId].ownerId}
  {
    var o := t.workspaces[workspaceId].ownerId;
    assert IsOwnerRow(t, workspaceId, o);
    assert (workspaceId, o) in t.members;
    assert o in OwnerIds(t, workspaceId);
  }

  /** `usedCount` is non-negative and, when `maxUses` is set, at most `maxUses`. */
  ghost predicate UsesWithinLimit(t: Tables) {
    forall k :: k in t.invites ==>
      0 <= t.invites[k].usedCount &&
      (t.invites[k].maxUses.Some? ==> t.invites[k].usedCount <= t.invites[k].maxUses.value)
  }

  predicate SameTriple(a: WaveRecord, b: WaveRecord) {
    a.workspaceId == b.workspaceId && a.fromUserId == b.fromUserId && a.toUserId == b.toUserId
  }

  /** At most one pending wave per (workspace, from, to). */
  ghost predicate PendingUnique(t: Tables) {
    forall a, b ::
      (a in t.waves && b in t.waves &&
       t.waves[a].status == Pending && t.waves[b].status == Pending &&
       SameTriple(t.waves[a], t.waves[b])) ==> a == b
  }

  /** `respondedAt` is set exactly when the status has left pending. */
  ghost predicate RespondedAtMatchesStatus(t: Tables) {
    forall k :: k in t.waves ==> (t.waves[k].respondedAt.Some? <==> t.waves[k].status != Pending)
  }

  /** Nobody waves at themself. */
  ghost predicate WavesNotSelf(t: Tables) {
    forall k :: k in t.waves ==> t.waves[k].fromUserId != t.waves[k].toUserId
  }

  ghost predicate WaveInvariants(t: Tables) {
    PendingUnique(t) && RespondedAtMatchesStatus(t) && WavesNotSelf(t)
  }

  /** A wave that has left pending is never rewritten (it may only disappear
      with its workspace). */
  ghost predicate TerminalWavesKept(t: Tables, t': Tables) {
    forall k :: k in t.waves && t.waves[k].status != Pending && k in t'.waves ==>
      t'.waves[k] == t.waves[k]
  }
}
