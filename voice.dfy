/**
 * The voice-presence controller: a four-valued state, the time the current
 * connection was made, the voice client's connection and its silent keep-alive
 * playback, driven by presence notifications and by the steps of the control
 * loop `run`.
 *
 * The loop `run` suspends at each `await`; the model splits one iteration of it
 * at those points into atomic steps (`Tick`, `JoinResult`, `StayCheck`,
 * `Fault`), and `phase` records where the loop is suspended. The presence
 * callback `OnVoiceStateUpdate` may run between any two steps. Every
 * observation of the environment (the clock, the target channel, the result of
 * joining, the random jitter) is a parameter of the step that makes it.
 */
module Voice {
  import opened Opt
  import opened Clock

  type UserId = int
  type ChannelId = int

  datatype PresenceState = Idle | Connected | BusyWait | ManualSleep

  /** The stay chosen once per successful join: until the night window closes,
      or a fixed number of seconds. */
  datatype Stay = Night | Fixed(seconds: nat)

  /** Where the control loop is suspended: at the head of `while self.running`,
      inside the call to `join_vc`, or inside one of the two stay loops. */
  datatype Phase = AtTop | AwaitingJoin | Staying(stay: Stay)

  /** What the control loop does after a step: return from `run`, sleep and then
      go on, call `join_vc`, or go on at once. */
  datatype Next = Exit | Sleep(seconds: nat) | Join | Proceed

  /** A presence notification: the member it is about and the channel that
      member is in afterwards (`None` when they left voice altogether). */
  datatype VoiceEvent = VoiceEvent(member: UserId, after: Option<ChannelId>)

  const ManualSleepPoll: nat := 10
  const MissingTargetPoll: nat := 60
  const ClientPresentPoll: nat := 15
  const StayPoll: nat := 30
  const FaultBackoff: nat := 60
  /** The pause `leave_voice` takes after disconnecting, before it clears
      `connected_since`. */
  const LeaveSettle: nat := 2

  const DefaultBaseStay: nat := 3600
  const DefaultJitter: nat := 3600
  const DefaultCooldown: nat := 900
  const DefaultBusyRetry: nat := 60

  class VoiceModule {
    const selfId: UserId
    const vcId: ChannelId
    const baseStay: nat
    const jitter: nat
    const cooldown: nat
    const busyRetry: nat

    var running: bool
    var state: PresenceState
    var connectedSince: Option<nat>
    /** Some voice client of the account is connected (`active_voice_client()`). */
    var voiceConnected: bool
    /** That client is playing the silent keep-alive (`vc.is_playing()`). */
    var audioPlaying: bool
    var phase: Phase

    /** What every step keeps: the keep-alive plays and `connected_since` is set
        exactly while a client is connected; a client is connected only in
        `CONNECTED`; no client is connected while a join is in flight; inside a
        stay loop that is still running in `CONNECTED` the client is there; a
        fixed stay lies between the base stay and the base stay plus the jitter. */
    ghost predicate Valid()
      reads this
    {
      (audioPlaying <==> voiceConnected)
      && (connectedSince.Some? <==> voiceConnected)
      && (voiceConnected ==> state == Connected)
      && (phase == AwaitingJoin ==> !voiceConnected)
      && (phase.Staying? && running && state == Connected ==> voiceConnected)
      && (phase.Staying? && phase.stay.Fixed? ==> baseStay <= phase.stay.seconds <= baseStay + jitter)
    }

    /** A session is held exactly in `CONNECTED`. Every step keeps this except
        `Stop`, which releases the session and leaves the state as it was. */
    ghost predicate SessionMatchesState()
      reads this
    {
      voiceConnected <==> state == Connected
    }

    /** No client, no keep-alive, no connection time: what `leave_voice` leaves. */
    ghost predicate Released()
      reads this
    {
      !voiceConnected && !audioPlaying && connectedSince == None
    }

    constructor (selfId: UserId, vcId: ChannelId, baseStay: nat, jitter: nat, cooldown: nat, busyRetry: nat)
      ensures Valid() && SessionMatchesState()
      ensures this.selfId == selfId && this.vcId == vcId && this.baseStay == baseStay
      ensures this.jitter == jitter && this.cooldown == cooldown && this.busyRetry == busyRetry
      ensures !running && state == Idle && Released() && phase == AtTop
    {
      this.selfId, this.vcId := selfId, vcId;
      this.baseStay, this.jitter, this.cooldown, this.busyRetry := baseStay, jitter, cooldown, busyRetry;
      running := false;
      state := Idle;
      connectedSince := None;
      voiceConnected, audioPlaying := false, false;
      phase := AtTop;
    }

    /** The module with the timing configuration left at its defaults. */
    constructor Defaults(selfId: UserId, vcId: ChannelId)
      ensures Valid() && SessionMatchesState()
      ensures this.selfId == selfId && this.vcId == vcId
      ensures baseStay == 3600 && jitter == 3600 && cooldown == 900 && busyRetry == 60
      ensures !running && state == Idle && Released() && phase == AtTop
    {
      this.selfId, this.vcId := selfId, vcId;
      baseStay, jitter, cooldown, busyRetry := DefaultBaseStay, DefaultJitter, DefaultCooldown, DefaultBusyRetry;
      running := false;
      state := Idle;
      connectedSince := None;
      voiceConnected, audioPlaying := false, false;
      phase := AtTop;
    }

    /** `start_audio`: play the keep-alive on the connected client; nothing when
        no client is connected or it is already playing. */
    method StartAudio()
      modifies this`audioPlaying
      ensures audioPlaying == (old(audioPlaying) || voiceConnected)
      ensures !voiceConnected || old(audioPlaying) ==> unchanged(this)
    {
      if !voiceConnected {
        return;
      }
      if audioPlaying {
        return;
      }
      audioPlaying := true;
    }

    /** `stop_audio`: stop the keep-alive; nothing unless a connected client is playing. */
    method StopAudio()
      modifies this`audioPlaying
      ensures audioPlaying == (old(audioPlaying) && !voiceConnected)
      ensures !old(audioPlaying) || !voiceConnected ==> unchanged(this)
    {
      if voiceConnected && audioPlaying {
        audioPlaying := false;
      }
    }

    /** `leave_voice`: stop the keep-alive, disconnect every voice client (errors
        swallowed) and forget the connection time. */
    method LeaveVoice()
      modifies this`audioPlaying, this`voiceConnected, this`connectedSince
      ensures Released()
    {
      StopAudio();
      voiceConnected := false;
      // a client that has been disconnected plays nothing
      audioPlaying := false;
      connectedSince := None;
    }

    /** `on_voice_state_update`: manual override and eviction. */
    method OnVoiceStateUpdate(ev: VoiceEvent)
      requires Valid()
      modifies this`state, this`audioPlaying, this`voiceConnected, this`connectedSince
      ensures Valid()
      ensures old(SessionMatchesState()) ==> SessionMatchesState()
      // the account itself moved to another channel: sleep, unless already asleep
      ensures ev.member == selfId && ev.after.Some? && ev.after.value != vcId ==>
        if old(state) == ManualSleep then unchanged(this) else state == ManualSleep && Released()
      // the account itself joined the target: nothing
      ensures ev.member == selfId && ev.after == Some(vcId) ==> unchanged(this)
      // the account itself left voice: wake up, if asleep
      ensures ev.member == selfId && ev.after == None ==>
        if old(state) == ManualSleep then state == Idle && Released() else unchanged(this)
      // someone else entered the target while connected: leave and wait
      ensures ev.member != selfId ==>
        if ev.after == Some(vcId) && old(state) == Connected then state == BusyWait && Released()
        else unchanged(this)
      // only the account's own disconnect ends a manual sleep
      ensures old(state) == ManualSleep && state != ManualSleep ==>
        ev.member == selfId && ev.after == None && state == Idle
      ensures state == ManualSleep ==> Released()
    {
      if ev.member == selfId {
        if ev.after.Some? && ev.after.value != vcId {
          if state != ManualSleep {
            state := ManualSleep;
            LeaveVoice();
          }
        } else if ev.after.None? && state == ManualSleep {
          state := Idle;
        }
      }
      if ev.member != selfId && ev.after.Some? && ev.after.value == vcId && state == Connected {
        LeaveVoice();
        state := BusyWait;
      }
    }

    /** `run`, lines 134-136: the loop starts. */
    method Start()
      requires Valid()
      modifies this`running, this`phase
      ensures Valid() && running && phase == AtTop
    {
      running := true;
      phase := AtTop;
    }

    /** One pass from the head of the loop up to the call of `join_vc`:
        `targetFound` says whether the target channel resolved, `members` is the
        number of members in it. */
    method Tick(targetFound: bool, members: nat) returns (next: Next)
      requires Valid() && phase == AtTop
      modifies this`state, this`phase
      ensures Valid()
      ensures old(SessionMatchesState()) ==> SessionMatchesState()
      ensures !running ==> next == Exit && unchanged(this)
      ensures running && old(state) == ManualSleep ==> next == Sleep(ManualSleepPoll) && unchanged(this)
      ensures running && old(state) != ManualSleep && !targetFound ==>
        next == Sleep(MissingTargetPoll) && unchanged(this)
      ensures running && old(state) == BusyWait && targetFound && members > 0 ==>
        next == Sleep(busyRetry) && unchanged(this)
      ensures running && targetFound && old(state) != ManualSleep && (old(state) == BusyWait ==> members == 0) ==>
        state == (if old(state) == BusyWait then Idle else old(state))
        && (if voiceConnected then next == Sleep(ClientPresentPoll) && phase == AtTop
            else next == Join && phase == AwaitingJoin)
      // a join happens only for an empty target when coming from BUSY_WAIT ...
      ensures next == Join ==>
        running && targetFound && !voiceConnected && old(state) != ManualSleep
        && (old(state) == BusyWait ==> members == 0)
      // ... and from IDLE whatever the target's occupancy
      ensures running && targetFound && old(state) == Idle ==> next == Join
    {
      if !running {
        return Exit;
      }
      if state == ManualSleep {
        return Sleep(ManualSleepPoll);
      }
      if !targetFound {
        return Sleep(MissingTargetPoll);
      }
      if state == BusyWait {
        if members == 0 {
          state := Idle;
        } else {
          return Sleep(busyRetry);
        }
      }
      if voiceConnected {
        return Sleep(ClientPresentPoll);
      }
      phase := AwaitingJoin;
      next := Join;
    }

    /** `join_vc` has returned: `joined` says whether a voice client is connected
        now, `now` is `time.time()`, `tod` the local time of day and `drawn` the
        value of `random.randint(0, jitter)`. On success the loop enters a stay
        loop, whose guard is evaluated next. */
    method JoinResult(joined: bool, now: nat, tod: Time, drawn: nat) returns (next: Next)
      requires Valid() && phase == AwaitingJoin
      requires drawn <= jitter
      modifies this`state, this`phase, this`connectedSince, this`voiceConnected, this`audioPlaying
      ensures Valid() && SessionMatchesState()
      ensures !joined ==> state == BusyWait && Released() && phase == AtTop && next == Sleep(busyRetry)
      ensures joined ==>
        state == Connected && voiceConnected && audioPlaying && connectedSince == Some(now)
        && phase == Staying(if InNightWindow(tod) then Night else Fixed(baseStay + drawn))
        && next == Proceed
      ensures joined && !InNightWindow(tod) ==>
        phase.stay.Fixed? && baseStay <= phase.stay.seconds <= baseStay + jitter
    {
      voiceConnected := joined;
      if !voiceConnected {
        state := BusyWait;
        phase := AtTop;
        return Sleep(busyRetry);
      }
      connectedSince := Some(now);
      state := Connected;
      StartAudio();
      if InNightWindow(tod) {
        phase := Staying(Night);
      } else {
        phase := Staying(Fixed(baseStay + drawn));
      }
      next := Proceed;
    }

    /** The guard of the stay loop the control loop is in: still running and
        `CONNECTED`, and the night window still open or fewer seconds elapsed
        since the connection than the chosen stay. */
    predicate StayGoesOn(now: nat, tod: Time)
      reads this
      requires phase.Staying?
      requires running && state == Connected ==> connectedSince.Some?
    {
      running && state == Connected
      && match phase.stay
         case Night => InNightWindow(tod)
         case Fixed(seconds) => now - connectedSince.value < seconds
    }

    /** One evaluation of the stay loop's guard at time `now` (local time of day
        `tod`): sleep and stay, or leave the stay loop, releasing the session and
        cooling down if still `CONNECTED`. The sleep returned on that path is
        the settle pause inside `leave_voice` followed by the cooldown. */
    method StayCheck(now: nat, tod: Time) returns (next: Next)
      requires Valid() && phase.Staying?
      modifies this`state, this`phase, this`connectedSince, this`voiceConnected, this`audioPlaying
      ensures Valid()
      ensures old(SessionMatchesState()) ==> SessionMatchesState()
      ensures old(StayGoesOn(now, tod)) ==> next == Sleep(StayPoll) && unchanged(this)
      ensures !old(StayGoesOn(now, tod)) && old(state) == Connected ==>
        state == Idle && Released() && phase == AtTop && next == Sleep(LeaveSettle + cooldown)
      ensures !old(StayGoesOn(now, tod)) && old(state) != Connected ==>
        state == old(state) && Released() && phase == AtTop && next == Proceed
      // a night stay ends, while running and connected, exactly when the window closes
      ensures old(phase) == Staying(Night) && old(running) && old(state) == Connected ==>
        (state == Connected <==> InNightWindow(tod))
      // a fixed stay ends, while running and connected, exactly when it has elapsed
      ensures old(phase).stay.Fixed? && old(running) && old(state) == Connected ==>
        (state == Connected <==> now - old(connectedSince).value < old(phase).stay.seconds)
    {
      if StayGoesOn(now, tod) {
        return Sleep(StayPoll);
      }
      phase := AtTop;
      if state == Connected {
        LeaveVoice();
        state := Idle;
        return Sleep(LeaveSettle + cooldown);
      }
      next := Proceed;
    }

    /** The `except Exception` branch of the loop: whatever the loop was doing
        is abandoned, the fields stay as they are, and the loop sleeps. */
    method Fault() returns (next: Next)
      requires Valid()
      modifies this`phase
      ensures Valid() && phase == AtTop && next == Sleep(FaultBackoff)
    {
      phase := AtTop;
      next := Sleep(FaultBackoff);
    }

    /** `stop`: clear the running flag and leave voice; the state is not reset. */
    method Stop()
      requires Valid()
      modifies this`running, this`audioPlaying, this`voiceConnected, this`connectedSince
      ensures Valid() && !running && Released() && state == old(state)
    {
      running := false;
      LeaveVoice();
    }
  }

  const Noon: Time := TimeOfDay(12, 0, 0, 0)

  /** Base stay 3600 s, no jitter, cooldown 900 s, outside the night window: a
      join at t = 0 is still held at t = 3599, released at t = 3600, and the
      loop then waits 2 s in `leave_voice` and the cooldown before its next pass. */
  method CycleScenario() returns (held: PresenceState, afterCycle: PresenceState, pause: nat)
    ensures held == Connected && afterCycle == Idle && pause == 902
  {
    var m := new VoiceModule(1, 42, 3600, 0, 900, 60);
    m.Start();
    var next := m.Tick(true, 0);
    next := m.JoinResult(true, 0, Noon, 0);
    next := m.StayCheck(0, Noon);
    next := m.StayCheck(3599, Noon);
    held := m.state;
    next := m.StayCheck(3600, Noon);
    afterCycle, pause := m.state, next.seconds;
  }

  /** A join at 03:00 is held through 06:59:59 whatever the elapsed time, and
      released at 07:00. */
  method NightScenario() returns (held: PresenceState, afterWindow: PresenceState)
    ensures held == Connected && afterWindow == Idle
  {
    var m := new VoiceModule.Defaults(1, 42);
    m.Start();
    var next := m.Tick(true, 0);
    next := m.JoinResult(true, 0, TimeOfDay(3, 0, 0, 0), 0);
    next := m.StayCheck(14399, TimeOfDay(6, 59, 59, 999999));
    held := m.state;
    next := m.StayCheck(14400, TimeOfDay(7, 0, 0, 0));
    afterWindow := m.state;
  }

  /** After an eviction the loop waits while the target is occupied and, once it
      is empty, joins again in the same pass. */
  method BusyWaitScenario() returns (evicted: PresenceState, occupied: Next, emptied: Next)
    ensures evicted == BusyWait && occupied == Sleep(60) && emptied == Join
  {
    var m := new VoiceModule.Defaults(1, 42);
    m.Start();
    var next := m.Tick(true, 0);
    next := m.JoinResult(true, 0, Noon, 0);
    m.OnVoiceStateUpdate(VoiceEvent(7, Some(42)));
    evicted := m.state;
    next := m.StayCheck(30, Noon);
    occupied := m.Tick(true, 1);
    emptied := m.Tick(true, 0);
  }

  /** A manual move that arrives while `join_vc` is in flight is overwritten
      when the join succeeds: the module ends `CONNECTED`, not asleep. */
  method OverrideDuringJoinScenario() returns (during: PresenceState, afterJoin: PresenceState)
    ensures during == ManualSleep && afterJoin == Connected
  {
    var m := new VoiceModule.Defaults(1, 42);
    m.Start();
    var next := m.Tick(true, 0);
    m.OnVoiceStateUpdate(VoiceEvent(1, Some(99)));
    during := m.state;
    next := m.JoinResult(true, 0, Noon, 0);
    afterJoin := m.state;
  }
}
