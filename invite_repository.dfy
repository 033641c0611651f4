/** Queries and writes on the `workspace_invites` table
    (server/src/repositories/invite/invite-repository.ts). */
module InviteRepository {
  import opened Results
  import opened Db

  /** `findInviteById`: the row whose id column is `id`, or null. */
  function FindInviteById(t: Tables, id: Id): (r: Option<InviteRecord>)
    ensures InviteKeysMatch(t) ==>
      (r.Some? <==> exists i :: i in t.invites.Values && i.id == id)
    ensures r.Some? ==> r.value in t.invites.Values && (InviteKeysMatch(t) ==> r.value.id == id)
  {
    if id in t.invites then Some(t.invites[id]) else None
  }

  /** `findInviteByCode`: the one row holding that code, or null. The unique
      constraint on the column is what makes the answer a single row. */
  function FindInviteByCode(t: Tables, code: string): (r: Option<InviteRecord>)
    requires UniqueInviteCodes(t)
    ensures r.Some? <==> exists i :: i in t.invites.Values && i.code == code
    ensures r.Some? ==> r.value in t.invites.Values && r.value.code == code
  {
    if exists k :: k in t.invites && t.invites[k].code == code then
      var k :| k in t.invites && t.invites[k].code == code;
      Some(t.invites[k])
    else None
  }

  /** `findInvitesByWorkspaceId`: the invites of one workspace. */
  function FindInvitesByWorkspaceId(t: Tables, workspaceId: Id): (r: set<InviteRecord>)
    ensures forall i :: i in r <==> i in t.invites.Values && i.workspaceId == workspaceId
  {
    set i | i in t.invites.Values && i.workspaceId == workspaceId
  }

  /** `createInvite`: inserts the given workspace, code, expiry and cap with
      `usedCount` at its default 0, a fresh id and `createdAt` now. The
      database refuses a cap outside the `integer` range, a code already in
      use and a missing workspace, in that order. */
  function CreateInvite(
    t: Tables, id: Id, workspaceId: Id, code: string, expiresAt: Time, maxUses: Option<int>, now: Time)
    : (s: Step<InviteRecord, DbError>)
    requires id !in t.invites
    ensures s.result.Failure? ==> s.after == t
    ensures s.result.Failure? && maxUses.Some? && !InInt4(maxUses.value) ==> s.result.error == OutOfRange
    ensures s.result.Success? <==>
      (maxUses.Some? ==> InInt4(maxUses.value)) &&
      (forall i :: i in t.invites.Values ==> i.code != code) &&
      workspaceId in t.workspaces
    ensures s.result.Success? ==>
      s.result.value == InviteRecord(id, workspaceId, code, expiresAt, maxUses, 0, now) &&
      s.after == t.(invites := t.invites[id := s.result.value])
    ensures Consistent(t) ==> Consistent(s.after)
  {
    if maxUses.Some? && !InInt4(maxUses.value) then Step(Failure(OutOfRange), t)
    else if exists k :: k in t.invites && t.invites[k].code == code then Step(Failure(UniqueViolation), t)
    else if workspaceId !in t.workspaces then Step(Failure(ForeignKeyViolation), t)
    else
      var inv := InviteRecord(id, workspaceId, code, expiresAt, maxUses, 0, now);
      InviteRowWritten(t, inv);
      Step(Success(inv), t.(invites := t.invites[id := inv]))
  }

  /** `incrementInviteUsedCount`: `usedCount + 1` on that one row, with no cap
      check; the sum must still fit the `integer` column. A missing id
      changes nothing. */
  function IncrementInviteUsedCount(t: Tables, id: Id): (s: Step<(), DbError>)
    ensures s.result.Failure? <==> id in t.invites && !InInt4(t.invites[id].usedCount + 1)
    ensures s.result.Failure? ==> s.result.error == OutOfRange && s.after == t
    ensures s.result.Success? && id !in t.invites ==> s.after == t
    ensures s.result.Success? && id in t.invites ==>
      s.after == t.(invites := t.invites[id := t.invites[id].(usedCount := t.invites[id].usedCount + 1)])
    ensures Consistent(t) ==> Consistent(s.after)
  {
    if id !in t.invites then Step(Success(()), t)
    else
      var inv := t.invites[id];
      if !InInt4(inv.usedCount + 1) then Step(Failure(OutOfRange), t)
      else
        var inv' := inv.(usedCount := inv.usedCount + 1);
        InviteRowWrittenAgain(t, id, inv');
        Step(Success(()), t.(invites := t.invites[id := inv']))
  }

  /** Rewriting an existing invite in place, keeping its id, workspace, code
      and cap, with a counter that fits. */
  lemma InviteRowWrittenAgain(t: Tables, id: Id, inv: InviteRecord)
    ensures (Consistent(t) && id in t.invites && InInt4(inv.usedCount) &&
             inv == t.invites[id].(usedCount := inv.usedCount)) ==>
      Consistent(t.(invites := t.invites[id := inv]))
  {
    if Consistent(t) && id in t.invites && InInt4(inv.usedCount) &&
       inv == t.invites[id].(usedCount := inv.usedCount)
    {
      InviteRowWritten(t, inv);
    }
  }

  /** `deleteInvite`: removes the row with that id, if there is one. */
  function DeleteInvite(t: Tables, id: Id): (t': Tables)
    ensures t' == t.(invites := t'.invites)
    ensures forall k :: k in t'.invites <==> k in t.invites && k != id
    ensures forall k :: k in t'.invites ==> t'.invites[k] == t.invites[k]
    ensures Consistent(t) ==> Consistent(t')
  {
    var t' := t.(invites := t.invites - {id});
    assert RowsWithin(t', t);
    RowsWithinKeep(t', t);
    t'
  }
}
