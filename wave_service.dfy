/** The wave service (server/src/services/wave/wave-service.ts): sending a
    wave with de-duplication of pending waves, the pending → accepted or
    declined transition of responding, and the read operations. */
module WaveService {
  import opened Results
  import opened Errors
  import opened Db
  import WR = WaveRepository
  import AS = AuthorizationService
  import opened Storage

  datatype SendWaveInput = SendWaveInput(workspaceId: Id, fromUserId: Id, toUserId: Id)

  datatype RespondWaveInput = RespondWaveInput(waveId: Id, userId: Id, status: WaveStatus)

  /** A database error ends the call as aborted. */
  function Lift<T>(r: Result<T, DbError>): (f: Result<T, Fault>)
    ensures f.Success? <==> r.Success?
    ensures f.Success? ==> f.value == r.value
    ensures f.Failure? ==> f.error == Aborted(r.error)
  {
    match r
    case Success(v) => Success(v)
    case Failure(e) => Failure(Aborted(e))
  }

  // ---- sendWave ----

  /** The checks `sendWave` makes before its lookup: CANNOT_WAVE_SELF before
      anything else, then the sender's membership failure as it comes, then
      NOT_WORKSPACE_MEMBER for a recipient without a member row. */
  function SendWaveCheck(t: Tables, input: SendWaveInput): (r: Result<(), AppError>)
    ensures input.fromUserId == input.toUserId ==>
      r == Failure(AppError(CannotWaveSelf, "You cannot wave to yourself"))
    ensures r.Success? <==>
      input.fromUserId != input.toUserId &&
      AS.Belongs(t, input.workspaceId, input.fromUserId) &&
      (input.workspaceId, input.toUserId) in t.members
    ensures (input.fromUserId != input.toUserId && AS.Belongs(t, input.workspaceId, input.fromUserId) &&
             (input.workspaceId, input.toUserId) !in t.members) ==>
      r == Failure(AppError(NotWorkspaceMember, "Target user is not a member of this workspace"))
  {
    if input.fromUserId == input.toUserId then
      Failure(AppError(CannotWaveSelf, "You cannot wave to yourself"))
    else
      match AS.RequireWorkspaceMember(t, input.workspaceId, input.fromUserId)
      case Failure(e) => Failure(e)
      case Success(_) =>
        if !AS.IsWorkspaceMember(t, input.workspaceId, input.toUserId) then
          Failure(AppError(NotWorkspaceMember, "Target user is not a member of this workspace"))
        else Success(())
  }

  /** What `sendWave` may do: reject, changing nothing; return one of the
      pending waves of the triple, changing nothing; or, when there is none,
      insert a pending wave. Which pending wave is returned is left open,
      because the lookup has no order. */
  ghost function SendWaveOutcome(
    t: Tables, input: SendWaveInput, id: Id, now: Time, r: Result<WaveRecord, Fault>, t': Tables): (b: bool)
    requires id !in t.waves
    ensures b && r.Success? ==>
      r.value.status == Pending && r.value.workspaceId == input.workspaceId &&
      r.value.fromUserId == input.fromUserId && r.value.toUserId == input.toUserId
    ensures b && r.Failure? && r.error.Rejected? ==> t' == t
  {
    var candidates := WR.PendingWavesBetweenUsers(t, input.workspaceId, input.fromUserId, input.toUserId);
    match SendWaveCheck(t, input)
    case Failure(e) => r == Failure(Rejected(e)) && t' == t
    case Success(_) =>
      if candidates != {} then r.Success? && r.value in candidates && t' == t
      else
        var created := WR.CreateWave(t, id, input.workspaceId, input.fromUserId, input.toUserId, Pending, now);
        r == Lift(created.result) && t' == created.after
  }

  method SendWave(store: Store, input: SendWaveInput, id: Id, now: Time) returns (r: Result<WaveRecord, Fault>)
    requires store.Valid() && id !in store.waves
    modifies store
    ensures store.Valid()
    ensures SendWaveOutcome(old(store.T()), input, id, now, r, store.T())
  {
    var check := SendWaveCheck(store.T(), input);
    if check.Failure? {
      return Failure(Rejected(check.error));
    }
    var existing := store.FindPendingWaveBetweenUsers(input.workspaceId, input.fromUserId, input.toUserId);
    if existing.Some? {
      return Success(existing.value);
    }
    var created := store.CreateWave(id, input.workspaceId, input.fromUserId, input.toUserId, Pending, now);
    r := Lift(created);
  }

  /** Under the pending-uniqueness invariant the outcome is a function of the
      input: two runs from the same tables agree. */
  lemma SendWaveDeterministic(
    t: Tables, input: SendWaveInput, id: Id, now: Time,
    r1: Result<WaveRecord, Fault>, t1: Tables, r2: Result<WaveRecord, Fault>, t2: Tables)
    requires WaveKeysMatch(t) && PendingUnique(t) && id !in t.waves
    requires SendWaveOutcome(t, input, id, now, r1, t1)
    requires SendWaveOutcome(t, input, id, now, r2, t2)
    ensures r1 == r2 && t1 == t2
  {
    if SendWaveCheck(t, input).Success? &&
       WR.PendingWavesBetweenUsers(t, input.workspaceId, input.fromUserId, input.toUserId) != {} {
      WR.PendingWaveUnique(t, input.workspaceId, input.fromUserId, input.toUserId, r1.value, r2.value);
    }
  }

  /** On consistent tables a send that passes the checks always ends with a
      pending wave of the triple, old or new. */
  lemma SendWaveSucceeds(t: Tables, input: SendWaveInput, id: Id, now: Time, r: Result<WaveRecord, Fault>, t': Tables)
    requires ReferencesExist(t) && id !in t.waves
    requires SendWaveOutcome(t, input, id, now, r, t')
    ensures r.Success? <==> SendWaveCheck(t, input).Success?
    ensures r.Success? ==>
      r.value in t'.waves.Values && r.value.status == Pending &&
      r.value.workspaceId == input.workspaceId &&
      r.value.fromUserId == input.fromUserId && r.value.toUserId == input.toUserId
  {
    if SendWaveCheck(t, input).Success? {
      var w := input.workspaceId;
      assert w in t.workspaces;
      if t.workspaces[w].ownerId != input.fromUserId {
        assert (w, input.fromUserId) in t.members;
      }
      assert input.fromUserId in t.users && input.toUserId in t.users;
      var candidates := WR.PendingWavesBetweenUsers(t, input.workspaceId, input.fromUserId, input.toUserId);
      if candidates == {} {
        assert t'.waves[id] == r.value;
      }
    }
  }

  /** Sending keeps every wave invariant: at most one pending wave per
      triple, `respondedAt` set exactly off pending, nobody waving at themself. */
  lemma SendWaveKeepsWaveInvariants(
    t: Tables, input: SendWaveInput, id: Id, now: Time, r: Result<WaveRecord, Fault>, t': Tables)
    requires WaveKeysMatch(t) && WaveInvariants(t) && id !in t.waves
    requires SendWaveOutcome(t, input, id, now, r, t')
    ensures WaveInvariants(t')
  {
    var candidates := WR.PendingWavesBetweenUsers(t, input.workspaceId, input.fromUserId, input.toUserId);
    if SendWaveCheck(t, input).Success? && candidates == {} {
      var created := WR.CreateWave(t, id, input.workspaceId, input.fromUserId, input.toUserId, Pending, now);
      if created.result.Success? {
        var nw := created.result.value;
        forall k | k in t.waves && t.waves[k].status == Pending ensures !SameTriple(t.waves[k], nw) {
          assert t.waves[k] in t.waves.Values;
          assert t.waves[k] !in candidates;
        }
      }
    }
  }

  /** A repeated send returns the same wave and changes nothing. */
  lemma SendWaveIdempotent(
    t: Tables, input: SendWaveInput, id: Id, now: Time, r: Result<WaveRecord, Fault>, t': Tables,
    id2: Id, now2: Time, r2: Result<WaveRecord, Fault>, t'': Tables)
    requires WaveKeysMatch(t) && WaveInvariants(t) && id !in t.waves
    requires SendWaveOutcome(t, input, id, now, r, t') && r.Success?
    requires id2 !in t'.waves && SendWaveOutcome(t', input, id2, now2, r2, t'')
    ensures r2 == r && t'' == t'
  {
    SendWaveKeepsWaveInvariants(t, input, id, now, r, t');
    assert SendWaveCheck(t', input) == SendWaveCheck(t, input) by {
      assert t'.workspaces == t.workspaces && t'.members == t.members;
    }
    var w := r.value;
    var k :| k in t'.waves && t'.waves[k] == w by {
      var candidates := WR.PendingWavesBetweenUsers(t, input.workspaceId, input.fromUserId, input.toUserId);
      if candidates == {} {
        assert t'.waves[id] == w;
      } else {
        assert w in t.waves.Values;
      }
    }
    assert WaveKeysMatch(t') by {
      if t' != t {
        assert t'.waves == t.waves[id := t'.waves[id]] && t'.waves[id].id == id;
      }
    }
    assert w in WR.PendingWavesBetweenUsers(t', input.workspaceId, input.fromUserId, input.toUserId);
    WR.PendingWaveUnique(t', input.workspaceId, input.fromUserId, input.toUserId, w, r2.value);
  }

  // ---- respondWave ----

  /** `respondWave`: NOT_FOUND, then FORBIDDEN unless the caller is the
      recipient, then WAVE_ALREADY_RESPONDED unless the wave is pending; then
      the new status is written with `respondedAt` now. */
  function RespondWaveStep(t: Tables, input: RespondWaveInput, now: Time): (s: Step<(), Fault>)
    requires input.status == Accepted || input.status == Declined
    ensures s.result.Failure? ==> s.after == t
    ensures input.waveId !in t.waves ==> s.result == Failure(Rejected(AppError(NotFound, "Wave not found")))
    ensures s.result.Success? <==>
      input.waveId in t.waves && t.waves[input.waveId].toUserId == input.userId &&
      t.waves[input.waveId].status == Pending
    ensures s.result.Success? ==> s.after == WR.UpdateWaveStatus(t, input.waveId, input.status, now)
  {
    match WR.FindWaveById(t, input.waveId)
    case None => Step(Failure(Rejected(AppError(NotFound, "Wave not found"))), t)
    case Some(wave) =>
      if wave.toUserId != input.userId then
        Step(Failure(Rejected(AppError(Forbidden, "You can only respond to waves sent to you"))), t)
      else if wave.status != Pending then
        Step(Failure(Rejected(AppError(WaveAlreadyResponded, "This wave has already been responded to"))), t)
      else Step(Success(()), WR.UpdateWaveStatus(t, input.waveId, input.status, now))
  }

  method RespondWave(store: Store, input: RespondWaveInput, now: Time) returns (r: Result<(), Fault>)
    requires store.Valid()
    requires input.status == Accepted || input.status == Declined
    modifies store
    ensures store.Valid()
    ensures Step(r, store.T()) == RespondWaveStep(old(store.T()), input, now)
  {
    var found := WR.FindWaveById(store.T(), input.waveId);
    if found.None? {
      return Failure(Rejected(AppError(NotFound, "Wave not found")));
    }
    var wave := found.value;
    if wave.toUserId != input.userId {
      return Failure(Rejected(AppError(Forbidden, "You can only respond to waves sent to you")));
    }
    if wave.status != Pending {
      return Failure(Rejected(AppError(WaveAlreadyResponded, "This wave has already been responded to")));
    }
    store.UpdateWaveStatus(input.waveId, input.status, now);
    r := Success(());
  }

  /** A wave that has left pending is never rewritten by `respondWave`, and
      the one it answers gets exactly the requested status and `respondedAt`. */
  lemma RespondWaveKeepsTerminal(t: Tables, input: RespondWaveInput, now: Time)
    requires input.status == Accepted || input.status == Declined
    ensures TerminalWavesKept(t, RespondWaveStep(t, input, now).after)
    ensures RespondWaveStep(t, input, now).result.Success? ==>
      RespondWaveStep(t, input, now).after.waves[input.waveId] ==
        t.waves[input.waveId].(status := input.status, respondedAt := Some(now))
  {
  }

  /** Responding keeps every wave invariant. */
  lemma RespondWaveKeepsWaveInvariants(t: Tables, input: RespondWaveInput, now: Time)
    requires input.status == Accepted || input.status == Declined
    requires WaveInvariants(t)
    ensures WaveInvariants(RespondWaveStep(t, input, now).after)
  {
    var s := RespondWaveStep(t, input, now);
    if s.result.Success? {
      var t' := s.after;
      forall a, b | a in t'.waves && b in t'.waves && t'.waves[a].status == Pending &&
          t'.waves[b].status == Pending && SameTriple(t'.waves[a], t'.waves[b])
        ensures a == b
      {
        assert a != input.waveId && b != input.waveId;
        assert t'.waves[a] == t.waves[a] && t'.waves[b] == t.waves[b];
      }
    }
  }

  // ---- reads ----

  /** `getReceivedWaves`: the membership failure, or the waves sent to the
      user in the workspace. */
  function GetReceivedWaves(t: Tables, workspaceId: Id, userId: Id): (r: Result<set<WaveRecord>, AppError>)
    ensures r.Success? <==> AS.Belongs(t, workspaceId, userId)
    ensures r.Failure? ==> r.error == AS.RequireWorkspaceMember(t, workspaceId, userId).error
    ensures r.Success? ==> forall w :: w in r.value <==>
      w in t.waves.Values && w.workspaceId == workspaceId && w.toUserId == userId
  {
    match AS.RequireWorkspaceMember(t, workspaceId, userId)
    case Failure(e) => Failure(e)
    case Success(_) => Success(WR.FindReceivedWavesByUserId(t, workspaceId, userId))
  }

  /** `getSentWaves`: the membership failure, or the waves the user sent in
      the workspace. */
  function GetSentWaves(t: Tables, workspaceId: Id, userId: Id): (r: Result<set<WaveRecord>, AppError>)
    ensures r.Success? <==> AS.Belongs(t, workspaceId, userId)
    ensures r.Failure? ==> r.error == AS.RequireWorkspaceMember(t, workspaceId, userId).error
    ensures r.Success? ==> forall w :: w in r.value <==>
      w in t.waves.Values && w.workspaceId == workspaceId && w.fromUserId == userId
  {
    match AS.RequireWorkspaceMember(t, workspaceId, userId)
    case Failure(e) => Failure(e)
    case Success(_) => Success(WR.FindSentWavesByUserId(t, workspaceId, userId))
  }

  /** `getWaveById`: NOT_FOUND, then FORBIDDEN unless the caller sent or
      received the wave; there is no membership check. */
  function GetWaveById(t: Tables, waveId: Id, userId: Id): (r: Result<WaveRecord, AppError>)
    ensures waveId !in t.waves ==> r == Failure(AppError(NotFound, "Wave not found"))
    ensures r.Success? <==>
      waveId in t.waves && (t.waves[waveId].fromUserId == userId || t.waves[waveId].toUserId == userId)
    ensures r.Success? ==> r.value == t.waves[waveId]
    ensures waveId in t.waves && !r.Success? ==>
      r == Failure(AppError(Forbidden, "You can only view your own waves"))
  {
    match WR.FindWaveById(t, waveId)
    case None => Failure(AppError(NotFound, "Wave not found"))
    case Some(wave) =>
      if wave.fromUserId != userId && wave.toUserId != userId then
        Failure(AppError(Forbidden, "You can only view your own waves"))
      else Success(wave)
  }
}
