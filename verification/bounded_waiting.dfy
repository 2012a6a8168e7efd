/** How long a queued user can be kept waiting, whatever the other users do. */
module BoundedWaiting {
  import opened Options
  import opened SteadyTimers
  import opened TurnQueue

  function IndexIn<T(==)>(s: seq<T>, x: T): (i: nat)
    requires x in s
    ensures i < |s| && s[i] == x
  {
    if s[0] == x then 0 else 1 + IndexIn(s[1..], x)
  }

  ghost predicate Waiting<U>(s: State<U>, u: U) {
    u in s.queue && s.queue[0] != u
  }

  /** What is left of the current turn, running or paused. */
  function TimeLeft<U>(s: State<U>): int {
    if s.paused.Some? then s.paused.value else s.timer.expiry - s.now
  }

  function Turns(count: int, turnTime: nat): int {
    count * turnTime
  }

  /** The unpaused time after which `u` is sure to have been the head or to have left. */
  ghost function Potential<U>(s: State<U>, u: U): int
    requires u in s.queue
  {
    TimeLeft(s) + Turns(IndexIn(s.queue, u) - 1, s.turnTime)
  }

  /** Expiries are delivered on time: the clock never runs past the expiry of a running turn. */
  ghost predicate OnTime<U>(s: State<U>) {
    s.paused.None? && s.queue != [] ==> s.now <= s.timer.expiry
  }

  ghost predicate Allowed<U>(s: State<U>, e: Event<U>) {
    match e
    case EvSetTurnTime(time) => time == s.turnTime
    case EvClear => false
    case EvPause => s.paused.None? && TimeRemaining(s) > 0
    case EvTick => s.paused.None? && s.queue != [] ==> s.now < s.timer.expiry
    case _ => true
  }

  function UnpausedTick<U>(s: State<U>, e: Event<U>): nat {
    if e.EvTick? && s.paused.None? then 1 else 0
  }

  lemma TurnsMinusOne(count: int, turnTime: nat)
    ensures Turns(count, turnTime) == Turns(count - 1, turnTime) + turnTime
    ensures count >= 0 ==> Turns(count, turnTime) >= 0
  {
    if count >= 0 {
      assert count * turnTime >= 0;
    }
  }

  lemma {:induction false} IndexIsUnique<T>(s: seq<T>, i: nat)
    requires NoDuplicates(s) && i < |s|
    ensures IndexIn(s, s[i]) == i
  {
  }

  /** Removing another user moves `u` up by one place or leaves it where it is. */
  lemma {:induction false} IndexAfterRemoval<T>(s: seq<T>, x: T, u: T)
    requires NoDuplicates(s) && x in s && u in s && x != u
    ensures u in Without(s, x)
    ensures IndexIn(Without(s, x), u) ==
            if IndexIn(s, x) < IndexIn(s, u) then IndexIn(s, u) - 1 else IndexIn(s, u)
  {
    if s[0] != x && s[0] != u {
      IndexAfterRemoval(s[1..], x, u);
      assert Without(s, x)[1..] == Without(s[1..], x);
    }
  }

  lemma RemoveHeadKeepsPotential<U>(s: State<U>, u: U)
    requires Inv(s) && OnTime(s) && Waiting(s, u)
    ensures OnTime(Remove(s, s.queue[0]))
    ensures Waiting(Remove(s, s.queue[0]), u) ==> Potential(Remove(s, s.queue[0]), u) <= Potential(s, u)
  {
    var x := s.queue[0];
    IndexAfterRemoval(s.queue, x, u);
    IndexIsUnique(s.queue, 0);
    TurnsMinusOne(IndexIn(s.queue, u) - 1, s.turnTime);
  }

  lemma RemoveOtherKeepsPotential<U>(s: State<U>, x: U, u: U)
    requires Inv(s) && OnTime(s) && Waiting(s, u) && x in s.queue && x != s.queue[0] && x != u
    ensures OnTime(Remove(s, x)) && Waiting(Remove(s, x), u)
    ensures Potential(Remove(s, x), u) <= Potential(s, u)
  {
    var r := Remove(s, x);
    WithoutKeepsOthers(s.queue, x);
    IndexAfterRemoval(s.queue, x, u);
    assert TimeLeft(r) == TimeLeft(s);
    TurnsMinusOne(IndexIn(s.queue, u) - 1, s.turnTime);
  }

  lemma RemoveKeepsPotential<U>(s: State<U>, x: U, u: U)
    requires Inv(s) && OnTime(s) && Waiting(s, u)
    ensures OnTime(Remove(s, x))
    ensures Waiting(Remove(s, x), u) ==> Potential(Remove(s, x), u) <= Potential(s, u)
  {
    if x == s.queue[0] {
      RemoveHeadKeepsPotential(s, u);
    } else if x == u {
      WithoutKeepsOthers(s.queue, x);
    } else if x in s.queue {
      RemoveOtherKeepsPotential(s, x, u);
    }
  }

  lemma RequestKeepsPotential<U>(s: State<U>, x: U, u: U)
    requires Inv(s) && OnTime(s) && Waiting(s, u)
    ensures OnTime(Request(s, x)) && Waiting(Request(s, x), u)
    ensures Potential(Request(s, x), u) == Potential(s, u)
  {
    RunKeepsInv(s, [EvRequest(x)]);
    if x !in s.queue {
      assert NoDuplicates(s.queue + [x]);
      IndexIsUnique(s.queue + [x], IndexIn(s.queue, u));
    }
  }

  /** No step raises the potential, and each tick of unpaused time lowers it. */
  lemma StepLowersPotential<U>(s: State<U>, e: Event<U>, u: U)
    requires Inv(s) && OnTime(s) && Waiting(s, u) && Allowed(s, e)
    ensures OnTime(Step(s, e))
    ensures Waiting(Step(s, e), u) ==> Potential(Step(s, e), u) + UnpausedTick(s, e) <= Potential(s, u)
  {
    match e
    case EvRequest(x) => RequestKeepsPotential(s, x, u);
    case EvRemove(x) => RemoveKeepsPotential(s, x, u);
    case EvEndCurrent => RemoveKeepsPotential(s, s.queue[0], u);
    case EvDeliver(i) =>
      if i < |s.timer.completions| && !s.timer.completions[i].aborted {
        DeliverKeepsInv(s, i);
        DeliverLowersPotential(s, i, u);
      }
    case EvPause => assert s.timer.waits == [s.queue[0]];
    case _ =>
  }

  lemma DeliverLowersPotential<U>(s: State<U>, i: nat, u: U)
    requires Inv(s) && OnTime(s) && Waiting(s, u) && i < |s.timer.completions| && !s.timer.completions[i].aborted
    ensures OnTime(Deliver(s, i))
    ensures Waiting(Deliver(s, i), u) ==> Potential(Deliver(s, i), u) <= Potential(s, u)
  {
    var x := s.timer.completions[i].handler;
    RemoveKeepsPotential(s, x, u);
    var d, r := Deliver(s, i), Remove(s, x);
    assert d.queue == r.queue && d.paused == r.paused && d.turnTime == r.turnTime && d.now == r.now;
    assert d.timer.expiry == r.timer.expiry;
  }

  // ---------------------------------------------------------------- whole runs

  /** Every step of the run is allowed, and `u` waits, neither head nor gone, from its start to its end. */
  ghost predicate WaitsThroughout<U>(s: State<U>, events: seq<Event<U>>, u: U)
    decreases |events|
  {
    && Waiting(s, u)
    && (events != [] ==> Allowed(s, events[0]) && WaitsThroughout(Step(s, events[0]), events[1..], u))
  }

  ghost function UnpausedTime<U>(s: State<U>, events: seq<Event<U>>): nat
    decreases |events|
  {
    if events == [] then 0 else UnpausedTick(s, events[0]) + UnpausedTime(Step(s, events[0]), events[1..])
  }

  /** A user at position k > 0 waits, before becoming the head or leaving, for at most the rest of the current turn and
      k - 1 more turns of unpaused time. */
  lemma {:induction false} WaitingIsBounded<U>(s: State<U>, events: seq<Event<U>>, u: U)
    requires Inv(s) && OnTime(s) && WaitsThroughout(s, events, u)
    ensures UnpausedTime(s, events) <= TimeLeft(s) + Turns(IndexIn(s.queue, u) - 1, s.turnTime)
    decreases |events|
  {
    if events == [] {
      TurnsMinusOne(IndexIn(s.queue, u) - 1, s.turnTime);
    } else {
      StepKeepsInv(s, events[0]);
      StepLowersPotential(s, events[0], u);
      WaitingIsBounded(Step(s, events[0]), events[1..], u);
    }
  }

  /** The bound is not reached by time standing still: when the clock may not advance, the turn of the head can be
      ended there and then by the event loop. */
  lemma HeadCanBeReplaced<U>(s: State<U>) returns (i: nat)
    requires Inv(s) && OnTime(s) && s.queue != [] && !Allowed(s, EvTick)
    ensures i < |Step(s, EvFire).timer.completions|
    ensures Step(Step(s, EvFire), EvDeliver(i)).queue == s.queue[1..]
  {
    var f := Step(s, EvFire);
    var due := Completion(s.queue[0], false);
    if s.timer.waits == [s.queue[0]] {
      assert f.timer.completions[|s.timer.completions|] == due;
    }
    assert due in f.timer.completions;
    i :| 0 <= i < |f.timer.completions| && f.timer.completions[i] == due;
  }

  // ---------------------------------------------------------------- why pauses are restricted

  /** A pause never delays anyone exactly when the turn was running with time left, or had a full turn left anyway. */
  lemma PauseKeepsPotentialIff<U>(s: State<U>, u: U)
    requires Inv(s) && Waiting(s, u)
    ensures Potential(Pause(s), u) <= Potential(s, u) <==>
            (s.timer.waits != [] && TimeRemaining(s) > 0) || TimeLeft(s) >= s.turnTime
  {
  }

  /** A turn of ten with one unit left is given back its whole length by pausing twice and resuming. */
  lemma PausingTwiceRestartsTheTurn()
    ensures var s := State([1, 2], 10, None, Timer(10, [1], []), 9);
            Inv(s) && OnTime(s) && TimeLeft(s) == 1 &&
            TimeLeft(Run(s, [EvPause, EvPause, EvResume])) == 10
  {
    var s: State<nat> := State([1, 2], 10, None, Timer(10, [1], []), 9);
    var events: seq<Event<nat>> := [EvPause, EvPause, EvResume];
    var p := Step(s, EvPause);
    var q := Step(p, EvPause);
    assert events[1..][1..] == events[2..] && events[2..][1..] == [];
    assert Run(s, events) == Run(p, events[1..]) == Run(q, events[2..]) == Step(q, EvResume);
  }
}
