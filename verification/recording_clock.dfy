/** When a recording starts, takes keyframes and stops, apart from what is written to its file. */
module RecordingClock {
  import opened SteadyTimers

  datatype State = State(
    recording: bool,
    keyframes: nat,              // entries of the keyframe table in use
    capacity: nat,               // entries the table has
    stopTimer: Timer<()>, keyframeTimer: Timer<()>,
    duration: nat, interval: nat, now: int)

  function Stop(s: State): State {
    if !s.recording then s
    else s.(recording := false, keyframeTimer := s.keyframeTimer.Cancel(), stopTimer := s.stopTimer.Cancel())
  }

  function StartKeyframeTimer(s: State): State {
    if s.interval == 0 then s.(keyframeTimer := s.keyframeTimer.Cancel())
    else s.(keyframeTimer := s.keyframeTimer.ExpiresAfter(s.now, s.interval).AsyncWait(()))
  }

  function TableSize(duration: nat, interval: nat): nat {
    if interval == 0 then 0 else duration / interval
  }

  /** `created` tells whether the new file could be created. */
  function Start(s: State, created: bool): State {
    if s.duration == 0 then s
    else if !created then Stop(s)
    else
      var t := Stop(s);
      StartKeyframeTimer(t.(recording := true, keyframes := 0, capacity := TableSize(s.duration, s.interval),
                            stopTimer := t.stopTimer.ExpiresAfter(s.now, s.duration).AsyncWait(())))
  }

  function OnKeyframe(s: State, aborted: bool, created: bool): State {
    if aborted then s
    else if s.keyframes == s.capacity then Start(s, created)
    else StartKeyframeTimer(s.(keyframes := s.keyframes + 1))
  }

  function OnStopTimer(s: State, aborted: bool, created: bool): State {
    if aborted then Stop(s) else Start(s, created)
  }

  function SetSettings(s: State, duration: nat, interval: nat, captureChanged: bool, created: bool): State {
    var t := s.(duration := duration, interval := interval);
    if !s.recording then t
    else if s.stopTimer.expiry - s.now < duration then Start(t, created)
    else if s.interval != interval || captureChanged then StartKeyframeTimer(t)
    else t
  }

  function DeliverKeyframe(s: State, i: nat, created: bool): State
    requires i < |s.keyframeTimer.completions|
  {
    OnKeyframe(s.(keyframeTimer := s.keyframeTimer.Take(i)), s.keyframeTimer.completions[i].aborted, created)
  }

  function DeliverStop(s: State, i: nat, created: bool): State
    requires i < |s.stopTimer.completions|
  {
    OnStopTimer(s.(stopTimer := s.stopTimer.Take(i)), s.stopTimer.completions[i].aborted, created)
  }

  datatype Event = EvTick | EvFireStop | EvFireKeyframe | EvDeliverStop(index: nat) | EvDeliverKeyframe(index: nat)

  function Step(s: State, e: Event): State {
    match e
    case EvTick => s.(now := s.now + 1)
    case EvFireStop => s.(stopTimer := s.stopTimer.Fire(s.now))
    case EvFireKeyframe => s.(keyframeTimer := s.keyframeTimer.Fire(s.now))
    case EvDeliverStop(i) => if i < |s.stopTimer.completions| then DeliverStop(s, i, true) else s
    case EvDeliverKeyframe(i) => if i < |s.keyframeTimer.completions| then DeliverKeyframe(s, i, true) else s
  }

  function Run(s: State, events: seq<Event>): State
    decreases |events|
  {
    if events == [] then s else Run(Step(s, events[0]), events[1..])
  }

  lemma {:induction false} RunAppend(s: State, first: seq<Event>, second: seq<Event>)
    ensures Run(s, first + second) == Run(Run(s, first), second)
    decreases |first|
  {
    if first == [] {
      assert first + second == second;
    } else {
      assert (first + second)[1..] == first[1..] + second;
      RunAppend(Step(s, first[0]), first[1..], second);
    }
  }

  lemma RunTwo(s: State, a: Event, b: Event)
    ensures Run(s, [a, b]) == Step(Step(s, a), b)
  {
    assert [a, b][1..] == [b] && [b][1..] == [];
    assert Run(Step(s, a), [b]) == Step(Step(s, a), b);
  }

  function Ticks(n: nat): seq<Event> {
    if n == 0 then [] else [EvTick] + Ticks(n - 1)
  }

  lemma {:induction false} TicksPass(s: State, n: nat)
    ensures Run(s, Ticks(n)) == s.(now := s.now + n)
    decreases n
  {
    if n > 0 {
      assert Ticks(n)[1..] == Ticks(n - 1);
      TicksPass(s.(now := s.now + 1), n - 1);
    }
  }

  // ---------------------------------------------------------------- calls

  /** What drives a recording: the event loop, whose handlers may fail to create a file, and calls. */
  datatype Action =
    | Happens(event: Event, created: bool)
    | Starts(created: bool)
    | Stops
    | Sets(duration: nat, interval: nat, captureChanged: bool, created: bool)

  function Act(s: State, a: Action): State {
    match a
    case Happens(EvDeliverStop(i), created) => if i < |s.stopTimer.completions| then DeliverStop(s, i, created) else s
    case Happens(EvDeliverKeyframe(i), created) =>
      if i < |s.keyframeTimer.completions| then DeliverKeyframe(s, i, created) else s
    case Happens(e, _) => Step(s, e)
    case Starts(created) => Start(s, created)
    case Stops => Stop(s)
    case Sets(duration, interval, captureChanged, created) => SetSettings(s, duration, interval, captureChanged, created)
  }

  function ActAll(s: State, actions: seq<Action>): State
    decreases |actions|
  {
    if actions == [] then s else ActAll(Act(s, actions[0]), actions[1..])
  }

  // ---------------------------------------------------------------- the keyframe table is large enough

  function Intervals(count: int, interval: nat): int {
    count * interval
  }

  ghost predicate KeyframeIsQueued(s: State) {
    exists i :: 0 <= i < |s.keyframeTimer.completions| && !s.keyframeTimer.completions[i].aborted
  }

  /** Timers are delivered on time: the clock does not run past an expiry, and a keyframe that is due together with the
      end of the file is not taken after it. */
  ghost predicate OnTime(s: State, e: Event) {
    match e
    case EvTick => s.now < s.stopTimer.expiry && s.now < s.keyframeTimer.expiry
    case EvDeliverStop(_) => !KeyframeIsQueued(s)
    case _ => true
  }

  /** The table-full branch of the keyframe handler is about to be taken. */
  ghost predicate TableExhausted(s: State, e: Event) {
    && e.EvDeliverKeyframe? && e.index < |s.keyframeTimer.completions|
    && !s.keyframeTimer.completions[e.index].aborted && s.keyframes == s.capacity
  }

  ghost predicate OnSchedule(s: State) {
    && s.recording && s.duration > 0 && s.interval > 0 && s.capacity == s.duration / s.interval
    && 0 <= Intervals(s.keyframes, s.interval) <= s.duration
    && s.keyframeTimer.expiry == s.stopTimer.expiry - s.duration + Intervals(s.keyframes + 1, s.interval)
    && s.now <= s.stopTimer.expiry && s.now <= s.keyframeTimer.expiry
  }

  ghost predicate StopPending(s: State) {
    || (s.stopTimer.waits == [()] && s.stopTimer.completions == [])
    || (s.stopTimer.waits == [] && s.stopTimer.completions == [Completion((), false)] && s.now == s.stopTimer.expiry)
  }

  ghost predicate KeyframePending(s: State) {
    || (s.keyframeTimer.waits == [()] && !KeyframeIsQueued(s))
    || (s.keyframeTimer.waits == [] && s.now == s.keyframeTimer.expiry
        && forall i, j :: 0 <= i < j < |s.keyframeTimer.completions| ==>
             s.keyframeTimer.completions[i].aborted || s.keyframeTimer.completions[j].aborted)
  }

  ghost predicate Inv(s: State) {
    OnSchedule(s) && StopPending(s) && KeyframePending(s)
  }

  lemma IntervalsPlusOne(count: int, interval: nat)
    ensures Intervals(count + 1, interval) == Intervals(count, interval) + interval
    ensures Intervals(0, interval) == 0
  {
  }

  lemma ProductOrder(a: int, b: int, factor: nat)
    requires a * factor < b * factor
    ensures a < b
  {
    assert (b - a) * factor > 0;
  }

  lemma FitsTable(count: nat, interval: nat, duration: nat)
    requires interval > 0 && Intervals(count, interval) <= duration
    ensures count <= duration / interval
  {
    var most := duration / interval;
    assert duration < most * interval + interval == (most + 1) * interval;
    ProductOrder(count, most + 1, interval);
  }

  lemma StartIsOnSchedule(s: State)
    requires s.duration > 0 && s.interval > 0
    requires s.stopTimer.waits == [] && s.stopTimer.completions == [] && !KeyframeIsQueued(s)
    ensures Inv(Start(s, true))
  {
    IntervalsPlusOne(0, s.interval);
  }

  lemma KeyframeFits(s: State, i: nat)
    requires Inv(s) && i < |s.keyframeTimer.completions| && !s.keyframeTimer.completions[i].aborted
    ensures s.keyframes < s.capacity && Inv(DeliverKeyframe(s, i, true))
  {
    FitsTable(s.keyframes + 1, s.interval, s.duration);
    IntervalsPlusOne(s.keyframes + 1, s.interval);
    IntervalsPlusOne(s.keyframes, s.interval);
  }

  lemma StepKeepsInv(s: State, e: Event)
    requires Inv(s) && OnTime(s, e)
    ensures Inv(Step(s, e)) && !TableExhausted(s, e)
  {
    match e
    case EvDeliverStop(i) =>
      if i < |s.stopTimer.completions| { StartIsOnSchedule(s.(stopTimer := s.stopTimer.Take(i))); }
    case EvDeliverKeyframe(i) =>
      if i < |s.keyframeTimer.completions| && !s.keyframeTimer.completions[i].aborted { KeyframeFits(s, i); }
    case _ =>
  }

  ghost predicate AllOnTime(s: State, events: seq<Event>)
    decreases |events|
  {
    events != [] ==> OnTime(s, events[0]) && AllOnTime(Step(s, events[0]), events[1..])
  }

  /** With settings unchanged and timers delivered on time, through any number of files, the keyframe table is never
      found full: the restart it would cause is unreachable. */
  lemma {:induction false} TableIsNeverExhausted(s: State, events: seq<Event>, e: Event)
    requires Inv(s) && AllOnTime(s, events) && OnTime(Run(s, events), e)
    ensures Inv(Run(s, events)) && !TableExhausted(Run(s, events), e)
    decreases |events|
  {
    if events == [] {
      StepKeepsInv(s, e);
    } else {
      StepKeepsInv(s, events[0]);
      TableIsNeverExhausted(Step(s, events[0]), events[1..], e);
    }
  }
}
