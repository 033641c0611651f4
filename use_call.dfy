/** The call state machine of `useCall` (src/hooks/useCall.ts). The timers
    are events: the one-second connect timer of `startCall`, the 500 ms
    reset timer of `endCall`, and the one-second interval that runs while
    the call is connected. Each pending timer is counted, and its firing is
    a method that needs one to be pending. The callbacks are recorded. */
module UseCall {
  import opened Results

  datatype CallState = Idle | Connecting | Connected | Ended

  datatype CallParticipant = CallParticipant(id: string, name: string)

  class Call {
    var state: CallState
    var participant: Option<CallParticipant>
    var isMuted: bool
    var duration: nat
    /** Connect timers set by `startCall` that have not fired yet; `endCall`
        never clears them. */
    var pendingConnects: nat
    /** Reset timers set by `endCall` that have not fired yet. */
    var pendingResets: nat
    /** How often `onCallStart` ran, and the durations `onCallEnd` got. */
    var starts: nat
    var ends: seq<nat>

    constructor()
      ensures state == Idle && participant.None? && !isMuted && duration == 0
      ensures pendingConnects == 0 && pendingResets == 0 && starts == 0 && ends == []
    {
      state, participant, isMuted, duration := Idle, None, false, 0;
      pendingConnects, pendingResets, starts, ends := 0, 0, 0, [];
    }

    /** The duration interval exists exactly while the state is connected:
        the effect keyed on the state sets it on entering that state and
        clears it on leaving. */
    predicate Ticking()
      reads this
    {
      state == Connected
    }

    function IsActive(): (active: bool)
      reads this
      ensures active <==> state in {Connecting, Connected}
    {
      state == Connecting || state == Connected
    }

    /** `startCall`: connecting, with the participant, duration 0, unmuted,
        and one more connect timer pending. */
    method StartCall(target: CallParticipant)
      modifies this
      ensures state == Connecting && participant == Some(target) && duration == 0 && !isMuted
      ensures pendingConnects == old(pendingConnects) + 1
      ensures pendingResets == old(pendingResets) && starts == old(starts) && ends == old(ends)
    {
      state, participant, duration, isMuted := Connecting, Some(target), 0, false;
      pendingConnects := pendingConnects + 1;
    }

    /** A connect timer fires: connected, and `onCallStart` runs, whatever
        happened since the call was started. */
    method ConnectTimerFires()
      requires pendingConnects > 0
      modifies this
      ensures state == Connected && Ticking() && starts == old(starts) + 1
      ensures pendingConnects == old(pendingConnects) - 1
      ensures participant == old(participant) && isMuted == old(isMuted) && duration == old(duration)
      ensures pendingResets == old(pendingResets) && ends == old(ends)
    {
      state := Connected;
      starts := starts + 1;
      pendingConnects := pendingConnects - 1;
    }

    /** The interval fires: one more second, only while connected. */
    method Tick()
      requires Ticking()
      modifies this
      ensures duration == old(duration) + 1
      ensures state == old(state) && participant == old(participant) && isMuted == old(isMuted)
      ensures pendingConnects == old(pendingConnects) && pendingResets == old(pendingResets)
      ensures starts == old(starts) && ends == old(ends)
    {
      duration := duration + 1;
    }

    /** `endCall`: ended, the interval cleared, `onCallEnd` told the current
        duration, and a reset timer pending. */
    method EndCall()
      modifies this
      ensures state == Ended && !Ticking() && ends == old(ends) + [old(duration)]
      ensures pendingResets == old(pendingResets) + 1
      ensures participant == old(participant) && isMuted == old(isMuted) && duration == old(duration)
      ensures pendingConnects == old(pendingConnects) && starts == old(starts)
    {
      ends := ends + [duration];
      state := Ended;
      pendingResets := pendingResets + 1;
    }

    /** A reset timer fires: idle, no participant, duration 0. */
    method ResetTimerFires()
      requires pendingResets > 0
      modifies this
      ensures state == Idle && participant.None? && duration == 0
      ensures pendingResets == old(pendingResets) - 1
      ensures isMuted == old(isMuted) && pendingConnects == old(pendingConnects)
      ensures starts == old(starts) && ends == old(ends)
    {
      state, participant, duration := Idle, None, 0;
      pendingResets := pendingResets - 1;
    }

    method ToggleMute()
      modifies this
      ensures isMuted == !old(isMuted)
      ensures state == old(state) && participant == old(participant) && duration == old(duration)
      ensures pendingConnects == old(pendingConnects) && pendingResets == old(pendingResets)
      ensures starts == old(starts) && ends == old(ends)
    {
      isMuted := !isMuted;
    }
  }

  /** A call ended within half a second of being started: the reset fires
      first and the connect timer afterwards, so the hook ends up connected,
      ticking, with no participant, after reporting a zero-length call. */
  method EndWhileConnecting(target: CallParticipant) returns (c: Call)
    ensures c.state == Connected && c.Ticking() && c.IsActive() && c.participant.None?
    ensures c.ends == [0] && c.starts == 1
  {
    c := new Call();
    c.StartCall(target);
    c.EndCall();
    c.ResetTimerFires();
    c.ConnectTimerFires();
  }
}
