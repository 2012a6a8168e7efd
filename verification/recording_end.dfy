/** Which recordings go on and which end, over whole runs: what is left on the stop timer decides. */
module RecordingEnd {
  import opened Counting
  import opened SteadyTimers
  import opened RecordingClock

  // ---------------------------------------------------------------- whether a start lasts

  ghost predicate OnlyStops(events: seq<Event>) {
    forall e :: e in events ==> e.EvDeliverStop?
  }

  /** However the completions of the stop timer that are on their way are run, and those that this causes, the recording
      goes on, in this file or in a next one. */
  ghost predicate Lasts(s: State) {
    forall events :: OnlyStops(events) ==> Run(s, events).recording
  }

  /** No wait for the end of a file is outstanding, and no completion of one is still to be run. */
  ghost predicate StopTimerIdle(s: State) {
    s.stopTimer.waits == [] && s.stopTimer.completions == []
  }

  lemma {:induction false} NothingToRun(s: State, events: seq<Event>)
    requires s.stopTimer.completions == [] && OnlyStops(events)
    ensures Run(s, events) == s
    decreases |events|
  {
    if events != [] {
      assert events[0] in events && forall e :: e in events[1..] ==> e in events;
      NothingToRun(s, events[1..]);
    }
  }

  lemma OneStop(s: State, i: nat)
    ensures OnlyStops([EvDeliverStop(i)]) && Run(s, [EvDeliverStop(i)]) == Step(s, EvDeliverStop(i))
  {
    assert [EvDeliverStop(i)][1..] == [];
  }

  /** Any completion that is on its way ends the recording: one of a cancelled wait at once, one of an expired wait by
      starting a next file, which cancels the wait of this one. */
  lemma CompletionEnds(s: State, i: nat) returns (events: seq<Event>)
    requires s.recording && s.stopTimer.waits == [()] && i < |s.stopTimer.completions| && s.duration > 0
    ensures OnlyStops(events) && !Run(s, events).recording
  {
    if s.stopTimer.completions[i].aborted {
      events := [EvDeliverStop(i)];
      OneStop(s, i);
    } else {
      var t, last := DeliverStop(s, i, true), |s.stopTimer.completions| - 1;
      assert t.stopTimer.completions == s.stopTimer.Take(i).completions + [Completion((), true)];
      assert t.stopTimer.completions[last].aborted;
      events := [EvDeliverStop(i), EvDeliverStop(last)];
      RunTwo(s, events[0], events[1]);
    }
  }

  /** A recording that has been started lasts exactly when nothing was left on the stop timer: neither a wait, which
      starting cancels, nor a completion of an earlier wait, cancelled or expired. */
  lemma StartLastsIff(s: State)
    requires s.duration > 0
    ensures Start(s, true).recording && (Lasts(Start(s, true)) <==> StopTimerIdle(s))
  {
    var t, cs := Start(s, true), s.stopTimer.completions;
    assert t.stopTimer.waits == [()] && |t.stopTimer.completions| == |cs| + |s.stopTimer.waits|;
    if StopTimerIdle(s) {
      forall events | OnlyStops(events)
        ensures Run(t, events).recording
      {
        NothingToRun(t, events);
      }
    } else {
      var events := CompletionEnds(t, 0);
    }
  }

  /** New settings that restart a running recording. */
  lemma SettingsRestartLastsIff(s: State, duration: nat, interval: nat, captureChanged: bool)
    requires s.recording && duration > 0 && s.stopTimer.expiry - s.now < duration
    ensures Lasts(SetSettings(s, duration, interval, captureChanged, true)) <==> StopTimerIdle(s)
  {
    StartLastsIff(s.(duration := duration, interval := interval));
  }

  /** A restart because the keyframe table is full. */
  lemma FullTableRestartLastsIff(s: State, i: nat)
    requires s.duration > 0 && TableExhausted(s, EvDeliverKeyframe(i))
    ensures Lasts(DeliverKeyframe(s, i, true)) <==> StopTimerIdle(s)
  {
    StartLastsIff(s.(keyframeTimer := s.keyframeTimer.Take(i)));
  }

  /** The next file after the end of one: the expired wait has been used up, so that only others can be left. */
  lemma NextFileLastsIff(s: State, i: nat)
    requires s.duration > 0 && i < |s.stopTimer.completions| && !s.stopTimer.completions[i].aborted
    ensures Lasts(DeliverStop(s, i, true)) <==> StopTimerIdle(s.(stopTimer := s.stopTimer.Take(i)))
  {
    StartLastsIff(s.(stopTimer := s.stopTimer.Take(i)));
  }

  // ---------------------------------------------------------------- a running recording is never idle

  /** While something is being recorded, its end is being waited for or on its way. */
  ghost predicate EndIsComing(s: State) {
    s.recording ==> !StopTimerIdle(s)
  }

  /** The last completion of the stop timer is an expiry, and the duration has been set to zero meanwhile. */
  ghost predicate ExpiresUnbounded(s: State, a: Action) {
    && s.recording && s.duration == 0
    && a.Happens? && a.event.EvDeliverStop? && a.event.index == 0
    && s.stopTimer.waits == [] && |s.stopTimer.completions| == 1 && !s.stopTimer.completions[0].aborted
  }

  /** That is lost by one step alone: with a duration of zero an expiry starts no file and stops none either, so that the
      recording runs on without an end. */
  lemma EndIsLostIff(s: State, a: Action)
    requires EndIsComing(s)
    ensures !EndIsComing(Act(s, a)) <==> ExpiresUnbounded(s, a)
  {
    match a
    case Happens(EvDeliverStop(i), created) =>
      if i < |s.stopTimer.completions| {
        DeliveryKeepsEnd(s, i, created);
      }
    case Happens(EvDeliverKeyframe(i), created) =>
    case Happens(EvFireStop, _) => assert |s.stopTimer.Fire(s.now).completions| + |s.stopTimer.Fire(s.now).waits|
                                       == |s.stopTimer.completions| + |s.stopTimer.waits|;
    case Happens(_, _) =>
    case Starts(_) =>
    case Stops =>
    case Sets(_, _, _, _) =>
  }

  lemma DeliveryKeepsEnd(s: State, i: nat, created: bool)
    requires EndIsComing(s) && i < |s.stopTimer.completions|
    ensures !EndIsComing(DeliverStop(s, i, created)) <==> ExpiresUnbounded(s, Happens(EvDeliverStop(i), created))
  {
    assert |s.stopTimer.Take(i).completions| == |s.stopTimer.completions| - 1;
  }

  ghost predicate KeepsDuration(a: Action) {
    a.Sets? ==> a.duration > 0
  }

  lemma {:induction false} RunKeepsEnd(s: State, actions: seq<Action>)
    requires EndIsComing(s) && s.duration > 0 && forall a :: a in actions ==> KeepsDuration(a)
    ensures EndIsComing(ActAll(s, actions)) && ActAll(s, actions).duration > 0
    decreases |actions|
  {
    if actions != [] {
      assert actions[0] in actions && forall a :: a in actions[1..] ==> a in actions;
      EndIsLostIff(s, actions[0]);
      RunKeepsEnd(Act(s, actions[0]), actions[1..]);
    }
  }

  /** So whatever has been called and has happened before, as long as no call sets the duration to zero, no restart of a
      running recording lasts, neither by settings nor for a full table. */
  lemma RestartsNeverLast(s: State, actions: seq<Action>, duration: nat, interval: nat, captureChanged: bool, i: nat)
    requires EndIsComing(s) && s.duration > 0 && forall a :: a in actions ==> KeepsDuration(a)
    requires ActAll(s, actions).recording
    ensures var t := ActAll(s, actions);
            && (duration > 0 && t.stopTimer.expiry - t.now < duration ==>
                  !Lasts(SetSettings(t, duration, interval, captureChanged, true)))
            && (TableExhausted(t, EvDeliverKeyframe(i)) ==> !Lasts(DeliverKeyframe(t, i, true)))
  {
    var t := ActAll(s, actions);
    RunKeepsEnd(s, actions);
    if duration > 0 && t.stopTimer.expiry - t.now < duration {
      SettingsRestartLastsIff(t, duration, interval, captureChanged);
    }
    if TableExhausted(t, EvDeliverKeyframe(i)) {
      FullTableRestartLastsIff(t, i);
    }
  }

  /** As soon as time has passed in a file, a call with settings, changed or not, restarts the recording and does not let it
      last, unless the duration shrinks to what is left of the file. */
  lemma LaterSettingsEndTheRecording(s: State, passed: nat, duration: nat, interval: nat, captureChanged: bool)
    requires s.duration > 0 && 0 < passed <= s.duration && duration > s.duration - passed
    ensures var t := Start(s, true); !Lasts(SetSettings(t.(now := t.now + passed), duration, interval, captureChanged, true))
  {
    var t := Start(s, true);
    SettingsRestartLastsIff(t.(now := t.now + passed), duration, interval, captureChanged);
  }

  // ---------------------------------------------------------------- whether a stop is final

  ghost predicate HasLive(t: Timer<()>) {
    exists i :: 0 <= i < |t.completions| && !t.completions[i].aborted
  }

  /** Nothing is recorded, and nothing on either timer can change that. */
  ghost predicate Silent(s: State) {
    && !s.recording
    && s.stopTimer.waits == [] && !HasLive(s.stopTimer) && s.keyframeTimer.waits == [] && !HasLive(s.keyframeTimer)
  }

  lemma StepKeepsSilent(s: State, e: Event)
    requires Silent(s)
    ensures Silent(Step(s, e))
  {
  }

  lemma {:induction false} SilentForGood(s: State, events: seq<Event>)
    requires Silent(s)
    ensures !Run(s, events).recording
    decreases |events|
  {
    if events != [] {
      StepKeepsSilent(s, events[0]);
      SilentForGood(Step(s, events[0]), events[1..]);
    }
  }

  /** A keyframe that is on its way restarts a stopped recording in the end: it arms the keyframe timer again, as every one
      after it does, until the table of the closed file is full. */
  lemma {:induction false} KeyframeRevives(s: State, i: nat) returns (events: seq<Event>)
    requires s.duration > 0 && s.interval > 0 && s.keyframes <= s.capacity
    requires i < |s.keyframeTimer.completions| && !s.keyframeTimer.completions[i].aborted
    ensures Run(s, events).recording
    decreases s.capacity - s.keyframes
  {
    var first := EvDeliverKeyframe(i);
    assert [first][1..] == [];
    var t := Step(s, first);
    if s.keyframes == s.capacity {
      return [first];
    }
    assert t.keyframeTimer.waits == [()] && t.keyframeTimer.expiry == t.now + t.interval;
    TicksPass(t, t.interval);
    var f := Step(t.(now := t.now + t.interval), EvFireKeyframe);
    var n := |t.keyframeTimer.completions|;
    assert f.keyframeTimer.completions[n] == Completion((), false);
    var rest := KeyframeRevives(f, n);
    events := [first] + (Ticks(t.interval) + ([EvFireKeyframe] + rest));
    assert ([EvFireKeyframe] + rest)[1..] == rest;
    RunAppend(t, Ticks(t.interval), [EvFireKeyframe] + rest);
    assert events[1..] == Ticks(t.interval) + ([EvFireKeyframe] + rest);
  }

  /** How many completions have expired and not been cancelled. */
  function Live(cs: seq<Completion<()>>): nat {
    if cs == [] then 0 else Bit(!cs[0].aborted) + Live(cs[1..])
  }

  lemma {:induction false} LiveTaken(cs: seq<Completion<()>>, i: nat)
    requires i < |cs|
    ensures Live(cs[..i] + cs[i + 1..]) + Bit(!cs[i].aborted) == Live(cs)
  {
    if i == 0 {
      assert cs[..0] + cs[1..] == cs[1..];
    } else {
      LiveTaken(cs[1..], i - 1);
      assert (cs[..i] + cs[i + 1..])[1..] == cs[1..][..i - 1] + cs[1..][i..];
    }
  }

  lemma {:induction false} LiveIsThere(cs: seq<Completion<()>>) returns (i: nat)
    requires Live(cs) > 0
    ensures i < |cs| && !cs[i].aborted
  {
    if !cs[0].aborted {
      return 0;
    }
    i := LiveIsThere(cs[1..]);
    i := i + 1;
  }

  lemma {:induction false} AbortedAreNotLive(cs: seq<Completion<()>>, more: seq<Completion<()>>)
    requires forall c :: c in more ==> c.aborted
    ensures Live(cs + more) == Live(cs)
  {
    if cs != [] {
      assert (cs + more)[1..] == cs[1..] + more;
      AbortedAreNotLive(cs[1..], more);
    } else {
      assert cs + more == more;
      if more != [] {
        assert more[0] in more && forall c :: c in more[1..] ==> c in more;
        AbortedAreNotLive([], more[1..]);
        assert [] + more[1..] == more[1..];
      }
    }
  }

  /** Without an interval the keyframes on their way are only counted, and fit into the table. */
  ghost predicate OnlyCounting(s: State) {
    && !s.recording && s.interval == 0
    && s.stopTimer.waits == [] && !HasLive(s.stopTimer) && s.keyframeTimer.waits == []
    && s.keyframes + Live(s.keyframeTimer.completions) <= s.capacity
  }

  lemma NothingToCancel(t: Timer<()>, now: int)
    requires t.waits == []
    ensures t.Cancel() == t && t.Fire(now) == t
  {
  }

  lemma StepKeepsCounting(s: State, e: Event)
    requires OnlyCounting(s)
    ensures OnlyCounting(Step(s, e))
  {
    match e
    case EvDeliverKeyframe(i) =>
      if i < |s.keyframeTimer.completions| {
        LiveTaken(s.keyframeTimer.completions, i);
        NothingToCancel(s.keyframeTimer.Take(i), s.now);
      }
    case _ => NothingToCancel(s.keyframeTimer, s.now);
  }

  lemma {:induction false} CountingForGood(s: State, events: seq<Event>)
    requires OnlyCounting(s)
    ensures !Run(s, events).recording
    decreases |events|
  {
    if events != [] {
      StepKeepsCounting(s, events[0]);
      CountingForGood(Step(s, events[0]), events[1..]);
    }
  }

  /** More keyframes on their way than the table has room for find it full. */
  lemma {:induction false} KeyframesOverflow(s: State) returns (events: seq<Event>)
    requires s.duration > 0 && s.interval == 0 && s.keyframes <= s.capacity && s.keyframeTimer.waits == []
    requires s.keyframes + Live(s.keyframeTimer.completions) > s.capacity
    ensures Run(s, events).recording
    decreases s.capacity - s.keyframes
  {
    var i := LiveIsThere(s.keyframeTimer.completions);
    var first := EvDeliverKeyframe(i);
    assert [first][1..] == [];
    if s.keyframes == s.capacity {
      return [first];
    }
    LiveTaken(s.keyframeTimer.completions, i);
    NothingToCancel(s.keyframeTimer.Take(i), s.now);
    var rest := KeyframesOverflow(Step(s, first));
    events := [first] + rest;
    assert events[1..] == rest;
  }

  lemma {:induction false} NoDurationForGood(s: State, events: seq<Event>)
    requires !s.recording && s.duration == 0
    ensures !Run(s, events).recording
    decreases |events|
  {
    if events != [] {
      NoDurationForGood(Step(s, events[0]), events[1..]);
    }
  }

  /** No expiry on its way can start a recording again. */
  ghost predicate NothingRevives(s: State) {
    || s.duration == 0
    || (!HasLive(s.stopTimer)
        && if s.interval > 0 then !HasLive(s.keyframeTimer) else Live(s.keyframeTimer.completions) <= s.capacity - s.keyframes)
  }

  lemma Revived(s: State) returns (events: seq<Event>)
    requires s.recording && s.keyframes <= s.capacity && !NothingRevives(s)
    ensures Run(Stop(s), events).recording
  {
    var t := Stop(s);
    SameLive(s.stopTimer);
    SameLive(s.keyframeTimer);
    if HasLive(s.stopTimer) {
      var i :| 0 <= i < |t.stopTimer.completions| && !t.stopTimer.completions[i].aborted;
      OneStop(t, i);
      events := [EvDeliverStop(i)];
    } else if s.interval > 0 {
      var i :| 0 <= i < |t.keyframeTimer.completions| && !t.keyframeTimer.completions[i].aborted;
      events := KeyframeRevives(t, i);
    } else {
      events := KeyframesOverflow(t);
    }
  }

  /** A recording that has been stopped stays stopped, as long as nobody starts it, exactly when nothing revives it: stopping
      cancels the waits but does not call back what has expired. */
  lemma StopIsFinalIff(s: State)
    requires s.recording && s.keyframes <= s.capacity
    ensures (forall events :: !Run(Stop(s), events).recording) <==> NothingRevives(s)
  {
    var t := Stop(s);
    SameLive(s.stopTimer);
    SameLive(s.keyframeTimer);
    if NothingRevives(s) {
      forall events
        ensures !Run(t, events).recording
      {
        if s.duration == 0 {
          NoDurationForGood(t, events);
        } else if s.interval > 0 {
          SilentForGood(t, events);
        } else {
          CountingForGood(t, events);
        }
      }
    } else {
      var events := Revived(s);
    }
  }

  lemma SameLive(t: Timer<()>)
    ensures HasLive(t.Cancel()) <==> HasLive(t)
    ensures Live(t.Cancel().completions) == Live(t.completions)
  {
    var c := t.Cancel();
    AbortedAreNotLive(t.completions, c.completions[|t.completions|..]);
    assert c.completions == t.completions + c.completions[|t.completions|..];
    if i :| 0 <= i < |t.completions| && !t.completions[i].aborted {
      assert !c.completions[i].aborted;
    }
    if i :| 0 <= i < |c.completions| && !c.completions[i].aborted {
      assert i < |t.completions| && !t.completions[i].aborted;
    }
  }
}
