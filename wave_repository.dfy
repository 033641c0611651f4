/** Queries and writes on the `waves` table
    (server/src/repositories/wave/wave-repository.ts). */
module WaveRepository {
  import opened Results
  import opened Db

  /** `findWaveById`: the row whose id column is `id`, or null. */
  function FindWaveById(t: Tables, id: Id): (r: Option<WaveRecord>)
    ensures WaveKeysMatch(t) ==>
      (r.Some? <==> exists w :: w in t.waves.Values && w.id == id)
    ensures r.Some? ==> r.value in t.waves.Values && (WaveKeysMatch(t) ==> r.value.id == id)
  {
    if id in t.waves then Some(t.waves[id]) else None
  }

  /** `findWavesByWorkspaceId`: the waves of one workspace. */
  function FindWavesByWorkspaceId(t: Tables, workspaceId: Id): (r: set<WaveRecord>)
    ensures forall w :: w in r <==> w in t.waves.Values && w.workspaceId == workspaceId
  {
    set w | w in t.waves.Values && w.workspaceId == workspaceId
  }

  /** `findSentWavesByUserId`: the waves of the workspace sent by the user. */
  function FindSentWavesByUserId(t: Tables, workspaceId: Id, userId: Id): (r: set<WaveRecord>)
    ensures forall w :: w in r <==> w in FindWavesByWorkspaceId(t, workspaceId) && w.fromUserId == userId
  {
    set w | w in t.waves.Values && w.workspaceId == workspaceId && w.fromUserId == userId
  }

  /** `findReceivedWavesByUserId`: the waves of the workspace sent to the user. */
  function FindReceivedWavesByUserId(t: Tables, workspaceId: Id, userId: Id): (r: set<WaveRecord>)
    ensures forall w :: w in r <==> w in FindWavesByWorkspaceId(t, workspaceId) && w.toUserId == userId
  {
    set w | w in t.waves.Values && w.workspaceId == workspaceId && w.toUserId == userId
  }

  /** The rows `findPendingWaveBetweenUsers` may return: its filter has no
      unique key behind it and no order, so `findFirst` returns any one of
      these, or null when there is none. */
  function PendingWavesBetweenUsers(t: Tables, workspaceId: Id, fromUserId: Id, toUserId: Id)
    : (r: set<WaveRecord>)
    ensures forall w :: w in r <==>
      w in FindSentWavesByUserId(t, workspaceId, fromUserId) && w.toUserId == toUserId && w.status == Pending
  {
    set w | w in t.waves.Values && w.workspaceId == workspaceId && w.fromUserId == fromUserId &&
      w.toUserId == toUserId && w.status == Pending
  }

  /** With at most one pending wave per triple there is at most one candidate. */
  lemma PendingWaveUnique(t: Tables, workspaceId: Id, fromUserId: Id, toUserId: Id, a: WaveRecord, b: WaveRecord)
    requires WaveKeysMatch(t) && PendingUnique(t)
    requires a in PendingWavesBetweenUsers(t, workspaceId, fromUserId, toUserId)
    requires b in PendingWavesBetweenUsers(t, workspaceId, fromUserId, toUserId)
    ensures a == b
  {
    var ka :| ka in t.waves && t.waves[ka] == a;
    var kb :| kb in t.waves && t.waves[kb] == b;
    assert SameTriple(t.waves[ka], t.waves[kb]);
  }

  /** `createWave`: inserts one row with the given triple and status, a fresh
      id, `createdAt` now and a null `respondedAt`; the workspace and both
      users must exist. */
  function CreateWave(t: Tables, id: Id, workspaceId: Id, fromUserId: Id, toUserId: Id, status: WaveStatus, now: Time)
    : (s: Step<WaveRecord, DbError>)
    requires id !in t.waves
    ensures s.result.Success? <==>
      workspaceId in t.workspaces && fromUserId in t.users && toUserId in t.users
    ensures s.result.Failure? ==> s.result.error == ForeignKeyViolation && s.after == t
    ensures s.result.Success? ==>
      s.result.value == WaveRecord(id, workspaceId, fromUserId, toUserId, status, now, None) &&
      s.after == t.(waves := t.waves[id := s.result.value])
    ensures Consistent(t) ==> Consistent(s.after)
  {
    if workspaceId !in t.workspaces || fromUserId !in t.users || toUserId !in t.users then
      Step(Failure(ForeignKeyViolation), t)
    else
      var w := WaveRecord(id, workspaceId, fromUserId, toUserId, status, now, None);
      WaveRowWritten(t, w);
      Step(Success(w), t.(waves := t.waves[id := w]))
  }

  /** `updateWaveStatus`: sets the status of that one row, and `respondedAt`
      to now exactly when the new status is not pending; there is no guard on
      the old status. A missing id changes nothing. */
  function UpdateWaveStatus(t: Tables, id: Id, status: WaveStatus, now: Time): (t': Tables)
    ensures t' == t.(waves := t'.waves)
    ensures t'.waves.Keys == t.waves.Keys
    ensures forall k :: k in t.waves && k != id ==> t'.waves[k] == t.waves[k]
    ensures id in t.waves ==>
      t'.waves[id] == t.waves[id].(status := status, respondedAt := t'.waves[id].respondedAt) &&
      t'.waves[id].status == status &&
      (t'.waves[id].respondedAt.Some? <==> status != Pending) &&
      (status != Pending ==> t'.waves[id].respondedAt == Some(now))
    ensures Consistent(t) ==> Consistent(t')
  {
    if id in t.waves then
      var w := t.waves[id].(status := status, respondedAt := if status != Pending then Some(now) else None);
      WaveRowRewritten(t, id, w);
      t.(waves := t.waves[id := w])
    else t
  }

  lemma WaveRowRewritten(t: Tables, id: Id, w: WaveRecord)
    ensures (Consistent(t) && id in t.waves &&
             w == t.waves[id].(status := w.status, respondedAt := w.respondedAt)) ==>
      Consistent(t.(waves := t.waves[id := w]))
  {
    if Consistent(t) && id in t.waves && w == t.waves[id].(status := w.status, respondedAt := w.respondedAt) {
      WaveRowWritten(t, w);
    }
  }
}
