/** The incoming-wave queue both `useWaveReceiver` hooks keep: waves are
    appended at the tail, shown from the head, and removed by id. */
module WaveQueue {
  import opened Results

  datatype IncomingWave = IncomingWave(
    id: string, fromId: string, fromName: string, timestamp: int, gifUrl: Option<string>)

  /** `queue.find(w => w.id === id)`: the first wave with that id. */
  function Find(q: seq<IncomingWave>, id: string): (r: Option<IncomingWave>)
    ensures r.Some? <==> exists i :: 0 <= i < |q| && q[i].id == id
    ensures r.Some? ==> exists i :: (0 <= i < |q| && q[i] == r.value && r.value.id == id &&
      forall j :: 0 <= j < i ==> q[j].id != id)
  {
    if |q| == 0 then None
    else if q[0].id == id then (assert q[0] == q[0]; Some(q[0]))
    else
      var r := Find(q[1..], id);
      assert forall i :: 1 <= i < |q| ==> q[i] == q[1..][i - 1];
      if r.Some? then
        var k :| 0 <= k < |q[1..]| && q[1..][k] == r.value && r.value.id == id &&
          forall j :: 0 <= j < k ==> q[1..][j].id != id;
        assert q[k + 1] == r.value;
        r
      else
        r
  }

  /** `queue.filter(w => w.id !== id)`. */
  function Without(q: seq<IncomingWave>, id: string): (r: seq<IncomingWave>)
    ensures |r| <= |q|
    ensures forall w :: w in r <==> w in q && w.id != id
  {
    if |q| == 0 then []
    else if q[0].id == id then Without(q[1..], id)
    else [q[0]] + Without(q[1..], id)
  }

  /** Removal distributes over concatenation, so the waves that stay keep
      their relative order. */
  lemma {:induction false} WithoutAppend(a: seq<IncomingWave>, b: seq<IncomingWave>, id: string)
    ensures Without(a + b, id) == Without(a, id) + Without(b, id)
    decreases |a|
  {
    if |a| > 0 {
      assert (a + b)[1..] == a[1..] + b;
      WithoutAppend(a[1..], b, id);
    } else {
      assert a + b == b;
    }
  }

  /** Removing an id that is not queued changes nothing. */
  lemma {:induction false} WithoutAbsent(q: seq<IncomingWave>, id: string)
    requires Find(q, id).None?
    ensures Without(q, id) == q
    decreases |q|
  {
    if |q| > 0 {
      assert q[0].id != id;
      assert forall i :: 0 <= i < |q[1..]| ==> q[1..][i] == q[i + 1];
      WithoutAbsent(q[1..], id);
      assert [q[0]] + q[1..] == q;
    }
  }

  /** Receiving a wave with a new id and then removing it restores the queue. */
  lemma ReceiveThenRemove(q: seq<IncomingWave>, w: IncomingWave)
    requires Find(q, w.id).None?
    ensures Without(q + [w], w.id) == q
  {
    WithoutAppend(q, [w], w.id);
    WithoutAbsent(q, w.id);
    assert Without([w], w.id) == [];
  }

  /** The head shown as the current wave: the oldest queued one. */
  function Head(q: seq<IncomingWave>): (r: Option<IncomingWave>)
    ensures r.Some? <==> |q| > 0
    ensures r.Some? ==> r.value == q[0]
  {
    if |q| == 0 then None else Some(q[0])
  }
}

/** The mock hook (src/hooks/useWaveReceiver.ts): a wave is received from
    outside, and its id is the clock reading in milliseconds. The callbacks
    are recorded as the list of waves each was called with. */
module WaveReceiver {
  import opened Results
  import opened Strings
  import opened WaveQueue

  class Receiver {
    var incoming: seq<IncomingWave>
    /** The waves `onAccept` and `onDecline` were called with, in order. */
    var accepted: seq<IncomingWave>
    var declined: seq<IncomingWave>

    constructor()
      ensures incoming == [] && accepted == [] && declined == []
    {
      incoming, accepted, declined := [], [], [];
    }

    /** `currentWave`: the oldest queued wave, absent exactly when nothing is queued. */
    function CurrentWave(): (r: Option<IncomingWave>)
      reads this
      ensures r.None? <==> WaveCount() == 0
      ensures r.Some? ==> r.value == incoming[0] && r.value in incoming
    {
      Head(incoming)
    }

    function WaveCount(): (n: nat)
      reads this
      ensures n == |incoming|
    {
      |incoming|
    }

    /** `receiveWave`: the wave gets the clock reading as id and timestamp
        and goes to the tail; the current wave stays unless the queue was empty. */
    method ReceiveWave(fromId: string, fromName: string, gifUrl: Option<string>, now: int)
      returns (w: IncomingWave)
      modifies this
      ensures w == IncomingWave(IntToString(now), fromId, fromName, now, gifUrl)
      ensures incoming == old(incoming) + [w]
      ensures accepted == old(accepted) && declined == old(declined)
      ensures old(|incoming|) > 0 ==> CurrentWave() == old(CurrentWave())
    {
      w := IncomingWave(IntToString(now), fromId, fromName, now, gifUrl);
      incoming := incoming + [w];
    }

    /** `acceptWave`: a queued id calls `onAccept` once with its first wave
        and removes every wave with that id; any other id does nothing. */
    method AcceptWave(waveId: string)
      modifies this
      ensures Find(old(incoming), waveId).None? ==>
        incoming == old(incoming) && accepted == old(accepted)
      ensures Find(old(incoming), waveId).Some? ==>
        accepted == old(accepted) + [Find(old(incoming), waveId).value] &&
        incoming == Without(old(incoming), waveId)
      ensures declined == old(declined)
    {
      var wave := Find(incoming, waveId);
      if wave.Some? {
        accepted := accepted + [wave.value];
        incoming := Without(incoming, waveId);
      }
    }

    /** `declineWave`: as `acceptWave`, with `onDecline`. */
    method DeclineWave(waveId: string)
      modifies this
      ensures Find(old(incoming), waveId).None? ==>
        incoming == old(incoming) && declined == old(declined)
      ensures Find(old(incoming), waveId).Some? ==>
        declined == old(declined) + [Find(old(incoming), waveId).value] &&
        incoming == Without(old(incoming), waveId)
      ensures accepted == old(accepted)
    {
      var wave := Find(incoming, waveId);
      if wave.Some? {
        declined := declined + [wave.value];
        incoming := Without(incoming, waveId);
      }
    }

    method ClearAll()
      modifies this
      ensures incoming == [] && CurrentWave().None? && WaveCount() == 0
      ensures accepted == old(accepted) && declined == old(declined)
    {
      incoming := [];
    }
  }
}

/** The realtime hook (hooks/useWaveReceiver.ts): waves arrive as broadcast
    events of the workspace channel, and accepting or declining sends the
    answer to the server before the wave leaves the queue. The channel, the
    session lookup and `fetch` are outside the model: an event is a method
    call, and the outcome of the request is a parameter. */
module RealtimeWaveReceiver {
  import opened Results
  import opened Strings
  import opened WaveQueue

  datatype WaveSentPayload = WaveSentPayload(
    waveId: string, workspaceId: string, fromUserId: string, toUserId: string)

  /** How the answer to a wave ends: the session lookup throws before any
      request is sent, the `fetch` throws, or it completes (whatever its
      HTTP status). */
  datatype RequestOutcome = Completed | SessionThrew | FetchThrew

  /** A `PUT /api/waves/{id}` request with its body's status. */
  datatype ResponseRequest = ResponseRequest(waveId: string, status: string)

  /** The wave queued for an event; without a name lookup the sender's
      name is the first 8 characters of their id. */
  function Enqueued(p: WaveSentPayload, lookedUp: Option<string>, now: int): (w: IncomingWave)
    ensures w.id == p.waveId && w.fromId == p.fromUserId && w.timestamp == now && w.gifUrl.None?
    ensures lookedUp.None? ==> StartsWith(p.fromUserId, w.fromName) && |w.fromName| == if |p.fromUserId| < 8 then |p.fromUserId| else 8
    ensures lookedUp.Some? ==> w.fromName == lookedUp.value
  {
    IncomingWave(p.waveId, p.fromUserId, if lookedUp.Some? then lookedUp.value else Prefix(p.fromUserId, 8), now, None)
  }

  class RealtimeReceiver {
    const workspaceId: Option<string>
    const currentUserId: Option<string>
    var incoming: seq<IncomingWave>
    var accepted: seq<IncomingWave>
    var declined: seq<IncomingWave>
    /** The answers sent to the server, in order: one per `fetch` that was
        issued, whether or not it then threw. */
    var requests: seq<ResponseRequest>

    constructor(workspaceId: Option<string>, currentUserId: Option<string>)
      ensures this.workspaceId == workspaceId && this.currentUserId == currentUserId
      ensures incoming == [] && accepted == [] && declined == [] && requests == []
    {
      this.workspaceId := workspaceId;
      this.currentUserId := currentUserId;
      incoming, accepted, declined, requests := [], [], [], [];
    }

    /** The subscription exists only with a workspace and a user, neither
        of them empty. */
    predicate Subscribed()
    {
      workspaceId.Some? && workspaceId.value != "" && currentUserId.Some? && currentUserId.value != ""
    }

    /** The broadcast handler: only a wave addressed to the current user is
        queued, at the tail; without a subscription no event arrives. */
    method OnWaveSent(p: WaveSentPayload, lookedUp: Option<string>, now: int)
      modifies this
      ensures Subscribed() && p.toUserId == currentUserId.value ==>
        incoming == old(incoming) + [Enqueued(p, lookedUp, now)]
      ensures !(Subscribed() && p.toUserId == currentUserId.value) ==> incoming == old(incoming)
      ensures accepted == old(accepted) && declined == old(declined) && requests == old(requests)
    {
      if !Subscribed() || p.toUserId != currentUserId.value {
        return;
      }
      incoming := incoming + [Enqueued(p, lookedUp, now)];
    }

    /** `acceptWave`: an unknown id sends nothing and changes nothing; a
        queued one sends "accepted" once the session has been read, calls
        `onAccept` only if the request completed, and leaves the queue
        whatever happened. */
    method AcceptWave(waveId: string, outcome: RequestOutcome)
      modifies this
      ensures Find(old(incoming), waveId).None? ==>
        incoming == old(incoming) && accepted == old(accepted) && requests == old(requests)
      ensures Find(old(incoming), waveId).Some? ==>
        requests == old(requests) + (if outcome.SessionThrew? then [] else [ResponseRequest(waveId, "accepted")]) &&
        incoming == Without(old(incoming), waveId) &&
        accepted == old(accepted) + (if outcome.Completed? then [Find(old(incoming), waveId).value] else [])
      ensures declined == old(declined)
    {
      var wave := Find(incoming, waveId);
      if wave.None? {
        return;
      }
      if !outcome.SessionThrew? {
        requests := requests + [ResponseRequest(waveId, "accepted")];
      }
      if outcome.Completed? {
        accepted := accepted + [wave.value];
      }
      incoming := Without(incoming, waveId);
    }

    /** `declineWave`: as `acceptWave`, sending "declined" and calling `onDecline`. */
    method DeclineWave(waveId: string, outcome: RequestOutcome)
      modifies this
      ensures Find(old(incoming), waveId).None? ==>
        incoming == old(incoming) && declined == old(declined) && requests == old(requests)
      ensures Find(old(incoming), waveId).Some? ==>
        requests == old(requests) + (if outcome.SessionThrew? then [] else [ResponseRequest(waveId, "declined")]) &&
        incoming == Without(old(incoming), waveId) &&
        declined == old(declined) + (if outcome.Completed? then [Find(old(incoming), waveId).value] else [])
      ensures accepted == old(accepted)
    {
      var wave := Find(incoming, waveId);
      if wave.None? {
        return;
      }
      if !outcome.SessionThrew? {
        requests := requests + [ResponseRequest(waveId, "declined")];
      }
      if outcome.Completed? {
        declined := declined + [wave.value];
      }
      incoming := Without(incoming, waveId);
    }

    method ClearAll()
      modifies this
      ensures incoming == [] && Head(incoming).None?
      ensures accepted == old(accepted) && declined == old(declined) && requests == old(requests)
    {
      incoming := [];
    }
  }
}
