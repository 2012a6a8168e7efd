/** When the keyframe table is found full. The tick and the timers are on time, but nothing is said about the order in which
    completions that are due together are run. */
module KeyframeCapacity {
  import opened SteadyTimers
  import opened RecordingClock
  import opened RecordingEnd

  /** The clock does not run past an expiry. */
  ghost predicate TickOnTime(s: State, e: Event) {
    e.EvTick? ==> s.now < s.stopTimer.expiry && s.now < s.keyframeTimer.expiry
  }

  ghost predicate TicksOnTime(s: State, events: seq<Event>)
    decreases |events|
  {
    events != [] ==> TickOnTime(s, events[0]) && TicksOnTime(Step(s, events[0]), events[1..])
  }

  /** A file has just been started, with nothing left over from before. */
  ghost predicate Fresh(s: State) {
    && s.recording && s.duration > 0 && s.interval > 0
    && s.keyframes == 0 && s.capacity == s.duration / s.interval
    && s.stopTimer == Timer(s.now + s.duration, [()], []) && s.keyframeTimer == Timer(s.now + s.interval, [()], [])
  }

  // ---------------------------------------------------------------- the end of the file is never a keyframe's time

  lemma MultipleLeavesNothing(count: nat, interval: nat)
    requires interval > 0
    ensures Intervals(count, interval) % interval == 0
    decreases count
  {
    if count == 0 {
      assert Intervals(count, interval) == 0;
    } else {
      MultipleLeavesNothing(count - 1, interval);
      IntervalsPlusOne(count - 1, interval);
      AddingTheDivisor(Intervals(count - 1, interval), interval);
    }
  }

  lemma AddingTheDivisor(n: int, d: nat)
    requires d > 0
    ensures (n + d) % d == n % d && (n + d) / d == n / d + 1
  {
    var q, r := n / d, n % d;
    assert n == q * d + r;
    assert n + d == (q + 1) * d + r;
    RemainderIs(n + d, d, q + 1, r);
  }

  lemma RemainderIs(n: int, d: nat, q: int, r: nat)
    requires d > 0 && n == q * d + r && r < d
    ensures n % d == r && n / d == q
  {
    var q', r' := n / d, n % d;
    assert n == q' * d + r';
    assert (q - q') * d == r' - r && (q' - q) * d == r - r';
    if q - q' >= 1 {
      ProductAtLeast(q - q', d);
    } else if q' - q >= 1 {
      ProductAtLeast(q' - q, d);
    }
  }

  lemma ProductAtLeast(n: int, d: nat)
    requires n >= 1
    ensures n * d >= d
  {
    assert n * d == (n - 1) * d + d;
  }

  lemma NeverDueTogether(s: State)
    requires Inv(s) && s.duration % s.interval != 0 && s.stopTimer.completions != []
    ensures !KeyframeIsQueued(s)
  {
    if KeyframeIsQueued(s) {
      assert Intervals(s.keyframes + 1, s.interval) == s.duration;
      MultipleLeavesNothing(s.keyframes + 1, s.interval);
    }
  }

  lemma {:induction false} UnevenIsNeverExhausted(s: State, events: seq<Event>, e: Event)
    requires Inv(s) && s.duration % s.interval != 0
    ensures TicksOnTime(s, events) ==> !TableExhausted(Run(s, events), e)
    decreases |events|
  {
    if events == [] {
      UnevenStep(s, e);
    } else if TickOnTime(s, events[0]) {
      UnevenStep(s, events[0]);
      UnevenIsNeverExhausted(Step(s, events[0]), events[1..], e);
    }
  }

  lemma UnevenStep(s: State, e: Event)
    requires Inv(s) && s.duration % s.interval != 0
    ensures !TableExhausted(s, e)
    ensures TickOnTime(s, e) ==>
              Inv(Step(s, e)) && Step(s, e).duration == s.duration && Step(s, e).interval == s.interval
  {
    if e.EvDeliverStop? {
      if s.stopTimer.completions != [] {
        NeverDueTogether(s);
        StepKeepsInv(s, e);
      }
    } else if TickOnTime(s, e) {
      StepKeepsInv(s, e);
    }
  }

  // ---------------------------------------------------------------- the run that finds the table full

  /** Time passes until the keyframe is due, and it is taken. */
  function Period(interval: nat): seq<Event> {
    Ticks(interval) + [EvFireKeyframe, EvDeliverKeyframe(0)]
  }

  function Periods(n: nat, interval: nat): seq<Event> {
    if n == 0 then [] else Period(interval) + Periods(n - 1, interval)
  }

  lemma {:induction false} AppendOnTime(s: State, first: seq<Event>, second: seq<Event>)
    ensures Run(s, first + second) == Run(Run(s, first), second)
    ensures TicksOnTime(s, first) && TicksOnTime(Run(s, first), second) ==> TicksOnTime(s, first + second)
    decreases |first|
  {
    RunAppend(s, first, second);
    if first == [] {
      assert first + second == second;
    } else {
      assert (first + second)[1..] == first[1..] + second;
      AppendOnTime(Step(s, first[0]), first[1..], second);
    }
  }

  lemma {:induction false} TicksRun(s: State, n: nat)
    requires s.now + n <= s.stopTimer.expiry && s.now + n <= s.keyframeTimer.expiry
    ensures Run(s, Ticks(n)) == s.(now := s.now + n) && TicksOnTime(s, Ticks(n))
    decreases n
  {
    if n > 0 {
      TicksRun(s.(now := s.now + 1), n - 1);
      assert Ticks(n)[1..] == Ticks(n - 1);
    }
  }

  lemma TwoEvents(s: State, a: Event, b: Event)
    ensures Run(s, [a, b]) == Step(Step(s, a), b)
    ensures !a.EvTick? && !b.EvTick? ==> TicksOnTime(s, [a, b])
  {
    RunTwo(s, a, b);
    assert [a, b][1..] == [b] && [b][1..] == [];
  }

  /** A state between keyframes: one wait on each timer and nothing queued. */
  ghost predicate Steady(s: State) {
    && s.recording && s.interval > 0
    && s.keyframeTimer == Timer(s.now + s.interval, [()], []) && s.stopTimer.waits == [()] && s.stopTimer.completions == []
  }

  function Later(s: State, keyframes: nat, time: int): State {
    s.(keyframes := s.keyframes + keyframes, now := s.now + time,
       keyframeTimer := Timer(s.now + time + s.interval, [()], []))
  }

  lemma PeriodRun(s: State)
    requires Steady(s) && s.keyframes < s.capacity && s.now + s.interval <= s.stopTimer.expiry
    ensures Run(s, Period(s.interval)) == Later(s, 1, s.interval) && TicksOnTime(s, Period(s.interval))
  {
    TicksRun(s, s.interval);
    var t := s.(now := s.now + s.interval);
    TwoEvents(t, EvFireKeyframe, EvDeliverKeyframe(0));
    AppendOnTime(s, Ticks(s.interval), [EvFireKeyframe, EvDeliverKeyframe(0)]);
    var f := Step(t, EvFireKeyframe);
    assert f.keyframeTimer == Timer(t.now, [], [Completion((), false)]);
    assert f.keyframeTimer.Take(0).completions == [];
  }

  lemma {:induction false} PeriodsRun(s: State, n: nat)
    requires Steady(s) && s.keyframes + n <= s.capacity && s.now + Intervals(n, s.interval) <= s.stopTimer.expiry
    ensures Run(s, Periods(n, s.interval)) == Later(s, n, Intervals(n, s.interval))
    ensures TicksOnTime(s, Periods(n, s.interval))
    decreases n
  {
    if n > 0 {
      IntervalsPlusOne(n - 1, s.interval);
      IntervalsNotNegative(n - 1, s.interval);
      PeriodRun(s);
      PeriodsRun(Later(s, 1, s.interval), n - 1);
      AppendOnTime(s, Period(s.interval), Periods(n - 1, s.interval));
    } else {
      IntervalsPlusOne(0, s.interval);
    }
  }

  lemma IntervalsNotNegative(n: nat, interval: nat)
    ensures Intervals(n, interval) >= 0
  {
  }

  /** The end of the file and a keyframe are due together; the end is handled first, then the keyframe, then what starting
      the next file has cancelled. */
  const TIE := [EvFireStop, EvFireKeyframe, EvDeliverStop(0), EvDeliverKeyframe(0), EvDeliverKeyframe(0)]

  lemma TieStarts(s: State)
    requires s.recording && s.stopTimer == Timer(s.now, [()], []) && s.keyframeTimer == Timer(s.now, [()], [])
    ensures var due := Timer(s.now, [], [Completion((), false)]);
            Run(s, TIE[..2]) == s.(stopTimer := due, keyframeTimer := due)
  {
    assert TIE[..2] == [EvFireStop, EvFireKeyframe];
    TwoEvents(s, EvFireStop, EvFireKeyframe);
  }

  lemma EndThenKeyframe(s: State)
    requires s.recording && s.duration > 0 && s.interval > 0 && s.duration / s.interval > 0
    requires s.stopTimer == Timer(s.now, [], [Completion((), false)]) == s.keyframeTimer
    ensures Run(s, TIE[2..]) == s.(keyframes := 1, capacity := s.duration / s.interval,
                                   stopTimer := Timer(s.now + s.duration, [()], []),
                                   keyframeTimer := Timer(s.now + s.interval, [()], []))
  {
    var n := Step(s, EvDeliverStop(0));
    assert s.stopTimer.Take(0).completions == [];
    assert n.stopTimer == Timer(s.now + s.duration, [()], []);
    assert n.keyframeTimer == Timer(s.now + s.interval, [()], [Completion((), false)]);
    var k := Step(n, EvDeliverKeyframe(0));
    assert n.keyframeTimer.Take(0).completions == [];
    assert k.keyframeTimer == Timer(s.now + s.interval, [()], [Completion((), true)]);
    assert k.keyframeTimer.Take(0).completions == [];
    assert TIE[2..] == [EvDeliverStop(0)] + [EvDeliverKeyframe(0), EvDeliverKeyframe(0)];
    TwoEvents(n, EvDeliverKeyframe(0), EvDeliverKeyframe(0));
    assert TIE[2..][1..] == [EvDeliverKeyframe(0), EvDeliverKeyframe(0)];
  }

  lemma {:induction false} NoTicksAreOnTime(s: State, events: seq<Event>)
    requires forall e :: e in events ==> !e.EvTick?
    ensures TicksOnTime(s, events)
    decreases |events|
  {
    if events != [] {
      assert events[0] in events && forall e :: e in events[1..] ==> e in events;
      NoTicksAreOnTime(Step(s, events[0]), events[1..]);
    }
  }

  lemma TieRun(s: State)
    requires s.recording && s.duration > 0 && s.interval > 0 && s.duration / s.interval > 0
    requires s.stopTimer == Timer(s.now, [()], []) && s.keyframeTimer == Timer(s.now, [()], [])
    ensures Run(s, TIE) == s.(keyframes := 1, capacity := s.duration / s.interval,
                              stopTimer := Timer(s.now + s.duration, [()], []),
                              keyframeTimer := Timer(s.now + s.interval, [()], []))
    ensures TicksOnTime(s, TIE)
  {
    NoTicksAreOnTime(s, TIE);
    TieStarts(s);
    EndThenKeyframe(Run(s, TIE[..2]));
    AppendOnTime(s, TIE[..2], TIE[2..]);
    assert TIE[..2] + TIE[2..] == TIE;
  }

  /** One file with all its keyframes but the last, and the tie at its end. */
  function FirstFile(n: nat, interval: nat): seq<Event>
    requires n > 0
  {
    Periods(n - 1, interval) + Ticks(interval) + TIE
  }

  /** The next file with one keyframe more than there are intervals, up to the keyframe at its end. */
  function SecondFile(n: nat, interval: nat): seq<Event>
    requires n > 0
  {
    Periods(n - 1, interval) + Ticks(interval) + [EvFireKeyframe]
  }

  /** A file that has just begun, all of whose keyframes but the last have been taken, and the time of the last. */
  lemma AllButOnePeriod(s: State, n: nat)
    requires Steady(s) && n > 0 && s.keyframes + (n - 1) <= s.capacity && s.duration == Intervals(n, s.interval)
    requires s.stopTimer == Timer(s.now + s.duration, [()], [])
    ensures var events := Periods(n - 1, s.interval) + Ticks(s.interval);
            && TicksOnTime(s, events)
            && Run(s, events) == s.(keyframes := s.keyframes + (n - 1), now := s.now + s.duration,
                                    keyframeTimer := Timer(s.now + s.duration, [()], []))
  {
    var passed := Intervals(n - 1, s.interval);
    IntervalsPlusOne(n - 1, s.interval);
    IntervalsNotNegative(n - 1, s.interval);
    PeriodsRun(s, n - 1);
    TicksRun(Later(s, n - 1, passed), s.interval);
    AppendOnTime(s, Periods(n - 1, s.interval), Ticks(s.interval));
  }

  lemma FirstFileRun(s: State, n: nat)
    requires Fresh(s) && n > 0 && s.duration == Intervals(n, s.interval) && s.capacity == n
    ensures var t := Run(s, FirstFile(n, s.interval));
            && t == s.(keyframes := 1, now := s.now + s.duration,
                       stopTimer := Timer(s.now + 2 * s.duration, [()], []),
                       keyframeTimer := Timer(s.now + s.duration + s.interval, [()], []))
            && TicksOnTime(s, FirstFile(n, s.interval))
  {
    AllButOnePeriod(s, n);
    var events := Periods(n - 1, s.interval) + Ticks(s.interval);
    TieRun(Run(s, events));
    AppendOnTime(s, events, TIE);
  }

  lemma SecondFileRun(s: State, n: nat)
    requires Steady(s) && s.keyframes == 1 && s.capacity == n > 0 && s.duration == Intervals(n, s.interval)
    requires s.stopTimer == Timer(s.now + s.duration, [()], [])
    ensures var t := Run(s, SecondFile(n, s.interval));
            && TableExhausted(t, EvDeliverKeyframe(0)) && t.stopTimer.waits == [()] && t.duration == s.duration
            && TicksOnTime(s, SecondFile(n, s.interval))
  {
    AllButOnePeriod(s, n);
    var events := Periods(n - 1, s.interval) + Ticks(s.interval);
    var d := Run(s, events);
    AppendOnTime(s, events, [EvFireKeyframe]);
    assert [EvFireKeyframe][1..] == [];
    assert Run(d, [EvFireKeyframe]) == Step(d, EvFireKeyframe);
  }

  function ExhaustingRun(n: nat, interval: nat): seq<Event>
    requires n > 0
  {
    FirstFile(n, interval) + SecondFile(n, interval)
  }

  lemma EvenMeansIntervals(duration: nat, interval: nat)
    requires duration > 0 && interval > 0 && duration % interval == 0
    ensures duration / interval > 0 && duration == Intervals(duration / interval, interval)
  {
    assert duration == duration / interval * interval;
  }

  /** When the intervals fill the duration evenly, there is a run, for a table of any size, that finds the table full; the
      restart this causes does not last. */
  lemma EvenIsExhausted(s: State)
    requires Fresh(s) && s.duration % s.interval == 0
    ensures s.capacity > 0
    ensures var events := ExhaustingRun(s.capacity, s.interval);
            && TicksOnTime(s, events) && TableExhausted(Run(s, events), EvDeliverKeyframe(0))
            && !Lasts(Step(Run(s, events), EvDeliverKeyframe(0)))
  {
    var n := s.capacity;
    EvenMeansIntervals(s.duration, s.interval);
    FirstFileRun(s, n);
    var t := Run(s, FirstFile(n, s.interval));
    SecondFileRun(t, n);
    AppendOnTime(s, FirstFile(n, s.interval), SecondFile(n, s.interval));
    FullTableRestartLastsIff(Run(t, SecondFile(n, s.interval)), 0);
  }

  /** With settings unchanged and timers on time, the keyframe table is never found full exactly when the keyframe interval
      does not divide the duration of a file. */
  lemma NeverExhaustedIff(s: State)
    requires Fresh(s)
    ensures (forall events, e :: TicksOnTime(s, events) ==> !TableExhausted(Run(s, events), e))
       <==> s.duration % s.interval != 0
  {
    if s.duration % s.interval == 0 {
      EvenIsExhausted(s);
    } else {
      FreshIsOnSchedule(s);
      forall events, e | TicksOnTime(s, events)
        ensures !TableExhausted(Run(s, events), e)
      {
        UnevenIsNeverExhausted(s, events, e);
      }
    }
  }

  lemma FreshIsOnSchedule(s: State)
    requires Fresh(s)
    ensures Inv(s)
  {
    IntervalsPlusOne(0, s.interval);
  }

  lemma {:induction false} UnevenGoesOn(s: State, events: seq<Event>)
    requires Inv(s) && s.duration % s.interval != 0
    ensures TicksOnTime(s, events) ==> Run(s, events).recording
    decreases |events|
  {
    if events != [] && TickOnTime(s, events[0]) {
      UnevenStep(s, events[0]);
      UnevenGoesOn(Step(s, events[0]), events[1..]);
    }
  }

  /** When the intervals fill the duration evenly, there is a run that ends the recording. */
  lemma EvenEnds(s: State) returns (events: seq<Event>)
    requires Fresh(s) && s.duration % s.interval == 0
    ensures TicksOnTime(s, events) && !Run(s, events).recording
  {
    EvenIsExhausted(s);
    var run := ExhaustingRun(s.capacity, s.interval);
    var full, restart := Run(s, run), [EvDeliverKeyframe(0)];
    var t := Step(full, EvDeliverKeyframe(0));
    assert restart[1..] == [];
    var stops :| OnlyStops(stops) && !Run(t, stops).recording;
    NoTicksAreOnTime(full, restart);
    NoTicksAreOnTime(t, stops);
    AppendOnTime(full, restart, stops);
    AppendOnTime(s, run, restart + stops);
    events := run + (restart + stops);
  }

  /** A recording that nobody touches goes on, file after file, in every run with the clock on time exactly when the keyframe
      interval does not divide the duration of a file. */
  lemma UntouchedGoesOnIff(s: State)
    requires Fresh(s)
    ensures (forall events :: TicksOnTime(s, events) ==> Run(s, events).recording) <==> s.duration % s.interval != 0
  {
    if s.duration % s.interval == 0 {
      var events := EvenEnds(s);
    } else {
      FreshIsOnSchedule(s);
      forall events | TicksOnTime(s, events)
        ensures Run(s, events).recording
      {
        UnevenGoesOn(s, events);
      }
    }
  }
}
