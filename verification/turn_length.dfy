/** How long a turn lasts and in which order turns are served, said of the queue and the clock alone. */
module TurnLength {
  import opened Options
  import opened SteadyTimers
  import opened TurnQueue
  import opened BoundedWaiting

  /** Somebody stands at the head who did not stand there before. */
  ghost predicate NewHead<U>(before: State<U>, after: State<U>) {
    after.queue != [] && (before.queue == [] || after.queue[0] != before.queue[0])
  }

  /** A turn is running and has time left. */
  ghost predicate Runs<U>(s: State<U>) {
    s.paused.None? && s.queue != [] && s.timer.waits != [] && s.now < s.timer.expiry
  }

  /** There is a turn whose remaining time means something: somebody is queued, or a pause has saved a time. */
  ghost predicate Timed<U>(s: State<U>) {
    s.queue != [] || s.paused.Some?
  }

  lemma RemovalRenewsHead<U>(s: State<U>, u: U)
    requires Inv(s)
    ensures NewHead(s, Remove(s, u)) && s.paused.None? ==>
              Remove(s, u).timer.expiry == s.now + s.turnTime && Remove(s, u).timer.waits == [Remove(s, u).queue[0]]
    ensures !NewHead(s, Remove(s, u)) && Remove(s, u).queue != [] ==> Remove(s, u).timer == s.timer
    ensures s.paused.Some? ==> Remove(s, u).timer == s.timer
  {
    if u in s.queue {
      WithoutKeepsOthers(s.queue, u);
      assert s.queue[0] == u && Without(s.queue, u) != [] ==> Without(s.queue, u)[0] in s.queue;
    }
  }

  lemma DeliveryIsRemoval<U>(s: State<U>, i: nat)
    requires Inv(s) && i < |s.timer.completions| && !s.timer.completions[i].aborted
    ensures var d, r := Deliver(s, i), Remove(s, s.timer.completions[i].handler);
            && d.queue == r.queue && d.paused == r.paused == s.paused && d.now == r.now == s.now
            && d.turnTime == r.turnTime == s.turnTime && d.timer.expiry == r.timer.expiry && d.timer.waits == r.timer.waits
  {
  }

  /** Whoever becomes the head of a queue that is not paused has the whole turn time ahead, and the timer is waiting for
      nobody else. */
  lemma NewHeadHasAFullTurn<U>(s: State<U>, e: Event<U>)
    requires Inv(s) && NewHead(s, Step(s, e)) && Step(s, e).paused.None?
    ensures Step(s, e).timer.expiry == Step(s, e).now + Step(s, e).turnTime
    ensures Step(s, e).timer.waits == [Step(s, e).queue[0]]
  {
    match e
    case EvRemove(u) => RemovalRenewsHead(s, u);
    case EvEndCurrent => RemovalRenewsHead(s, s.queue[0]);
    case EvDeliver(i) =>
      if i < |s.timer.completions| && !s.timer.completions[i].aborted {
        DeliveryIsRemoval(s, i);
        RemovalRenewsHead(s, s.timer.completions[i].handler);
      }
    case _ =>
  }

  /** What is left of the turn after a step, from what was left before it: a new head and a pause of anything but a
      running turn give the whole turn time, a tick takes one unit of a turn that is not paused, and nothing else counts. */
  ghost function LeftAfter<U>(s: State<U>, e: Event<U>, left: int): int {
    var t := Step(s, e);
    if t.paused.None? && NewHead(s, t) then t.turnTime
    else if e.EvPause? && !Runs(s) then t.turnTime
    else left - UnpausedTick(s, e)
  }

  lemma TurnTimeIsAccounted<U>(s: State<U>, e: Event<U>, left: int)
    requires Inv(s) && (Timed(s) ==> left == TimeLeft(s)) && Timed(Step(s, e))
    ensures TimeLeft(Step(s, e)) == LeftAfter(s, e, left)
  {
    if Step(s, e).paused.None? && NewHead(s, Step(s, e)) {
      NewHeadHasAFullTurn(s, e);
    } else if e.EvDeliver? || e.EvRemove? || e.EvEndCurrent? {
      match e
      case EvRemove(u) => RemovalRenewsHead(s, u);
      case EvEndCurrent => if s.queue != [] { RemovalRenewsHead(s, s.queue[0]); }
      case EvDeliver(i) =>
        if i < |s.timer.completions| && !s.timer.completions[i].aborted {
          DeliveryIsRemoval(s, i);
          RemovalRenewsHead(s, s.timer.completions[i].handler);
        }
    }
  }

  /** Only a pause pauses, only a resume resumes, only a settings change alters the turn time, only ticks move the clock. */
  lemma OnlyTheirCallsChange<U>(s: State<U>, e: Event<U>)
    requires Inv(s)
    ensures Step(s, e).paused.Some? <==> e.EvPause? || (s.paused.Some? && !e.EvResume?)
    ensures Step(s, e).turnTime == if e.EvSetTurnTime? then e.time else s.turnTime
    ensures Step(s, e).now == if e.EvTick? then s.now + 1 else s.now
  {
    if e.EvDeliver? && e.index < |s.timer.completions| && !s.timer.completions[e.index].aborted {
      DeliveryIsRemoval(s, e.index);
    }
  }

  ghost function Ledger<U>(s: State<U>, events: seq<Event<U>>, left: int): int
    decreases |events|
  {
    if events == [] then left else Ledger(Step(s, events[0]), events[1..], LeftAfter(s, events[0], left))
  }

  /** In every run what is left of the turn is what the ledger says: full turns at each change of the head and at each
      pause of a turn that does not run, less the unpaused time since. */
  lemma {:induction false} RunIsAccounted<U>(s: State<U>, events: seq<Event<U>>, left: int)
    requires Inv(s) && (Timed(s) ==> left == TimeLeft(s))
    ensures Timed(Run(s, events)) ==> TimeLeft(Run(s, events)) == Ledger(s, events, left)
    decreases |events|
  {
    if events != [] {
      StepKeepsInv(s, events[0]);
      if Timed(Step(s, events[0])) {
        TurnTimeIsAccounted(s, events[0], left);
      }
      RunIsAccounted(Step(s, events[0]), events[1..], LeftAfter(s, events[0], left));
    }
  }

  /** A pause and a clearing of the queue call the outstanding wait back: what they add to the strand is aborted, and what
      was there before stays. */
  lemma CalledBackIsAborted<U>(s: State<U>, e: Event<U>)
    requires Inv(s) && (e.EvPause? || e.EvClear?)
    ensures var before, after := s.timer.completions, Step(s, e).timer.completions;
            && Step(s, e).timer.waits == [] && before <= after && |after| == |before| + |s.timer.waits|
            && forall i :: |before| <= i < |after| ==> after[i].aborted
  {
    assert Step(s, e).timer.completions[..|s.timer.completions|] == s.timer.completions;
  }

  // ---------------------------------------------------------------- nobody's turn is cut short

  /** The turn of `u` runs and no expiry of `u` is on its way. */
  ghost predicate HasTurn<U>(s: State<U>, u: U) {
    && s.paused.None? && s.queue != [] && s.queue[0] == u && s.timer.waits == [u]
    && Completion(u, false) !in s.timer.completions
  }

  /** The event takes the turn from `u`, or stops its clock. */
  predicate Interrupts<U(==)>(e: Event<U>, u: U) {
    e == EvRemove(u) || e.EvEndCurrent? || e.EvClear? || e.EvPause?
  }

  lemma OthersDoNotEndTurn<U>(s: State<U>, e: Event<U>, u: U)
    requires Inv(s) && HasTurn(s, u) && s.now < s.timer.expiry && !Interrupts(e, u)
    ensures HasTurn(Step(s, e), u) && Step(s, e).timer.expiry == s.timer.expiry
  {
    match e
    case EvRemove(x) => if x in s.queue { WithoutKeepsOthers(s.queue, x); }
    case EvDeliver(i) =>
      if i < |s.timer.completions| {
        var c := s.timer.completions[i];
        assert c in s.timer.completions;
        if !c.aborted && c.handler in s.queue { WithoutKeepsOthers(s.queue, c.handler); }
      }
    case _ =>
  }

  /** While nobody pauses, clears or ends turns and `u` does not leave, `u` stays at the head for as many ticks as its turn
      has left, whatever the others do and whichever completions are run. */
  lemma {:induction false} TurnIsNotCutShort<U>(s: State<U>, events: seq<Event<U>>, u: U)
    requires Inv(s) && HasTurn(s, u) && UnpausedTime(s, events) < s.timer.expiry - s.now
    requires forall e :: e in events ==> !Interrupts(e, u)
    ensures HasTurn(Run(s, events), u) && Run(s, events).timer.expiry == s.timer.expiry
    ensures Run(s, events).now == s.now + UnpausedTime(s, events)
    decreases |events|
  {
    if events != [] {
      assert events[0] in events && forall e :: e in events[1..] ==> e in events;
      StepKeepsInv(s, events[0]);
      OthersDoNotEndTurn(s, events[0], u);
      OnlyTheirCallsChange(s, events[0]);
      TurnIsNotCutShort(Step(s, events[0]), events[1..], u);
    }
  }

  /** So a user who becomes the head while no expiry of an earlier turn of theirs is on its way keeps the turn for the turn
      time that is set at that moment. */
  lemma EveryTurnLastsTheTurnTime<U>(s: State<U>, e: Event<U>, events: seq<Event<U>>, u: U)
    requires Inv(s) && NewHead(s, Step(s, e)) && Step(s, e).paused.None? && Step(s, e).queue[0] == u
    requires Completion(u, false) !in Step(s, e).timer.completions
    requires UnpausedTime(Step(s, e), events) < Step(s, e).turnTime
    requires forall x :: x in events ==> !Interrupts(x, u)
    ensures Run(Step(s, e), events).queue != [] && Run(Step(s, e), events).queue[0] == u
  {
    StepKeepsInv(s, e);
    NewHeadHasAFullTurn(s, e);
    TurnIsNotCutShort(Step(s, e), events, u);
  }

  // ---------------------------------------------------------------- who is queued, and in which order

  ghost predicate Ahead<U>(queue: seq<U>, x: U, y: U) {
    exists i, j :: 0 <= i < j < |queue| && queue[i] == x && queue[j] == y
  }

  /** What takes `x` out of the queue: leaving, being the head when the turn is ended, a clearing of the queue, and the
      delivery of an expiry of its turn. */
  ghost predicate TakesOut<U>(s: State<U>, e: Event<U>, x: U) {
    || e == EvRemove(x)
    || e.EvClear?
    || (e.EvEndCurrent? && s.queue != [] && s.queue[0] == x)
    || (e.EvDeliver? && e.index < |s.timer.completions| && s.timer.completions[e.index] == Completion(x, false))
  }

  lemma RemovalTakesOutOne<U>(s: State<U>, u: U, x: U)
    requires Inv(s)
    ensures x in Remove(s, u).queue <==> x in s.queue && x != u
  {
    if u in s.queue {
      WithoutKeepsOthers(s.queue, u);
    }
  }

  /** Exactly the users who were queued and are not taken out are queued after a step, and the one who asks. */
  lemma WhoIsQueued<U>(s: State<U>, e: Event<U>, x: U)
    requires Inv(s)
    ensures x in Step(s, e).queue <==> (x in s.queue && !TakesOut(s, e, x)) || e == EvRequest(x)
  {
    match e
    case EvRemove(u) => RemovalTakesOutOne(s, u, x);
    case EvEndCurrent => if s.queue != [] { RemovalTakesOutOne(s, s.queue[0], x); }
    case EvDeliver(i) =>
      if i < |s.timer.completions| && !s.timer.completions[i].aborted {
        DeliveryIsRemoval(s, i);
        RemovalTakesOutOne(s, s.timer.completions[i].handler, x);
        assert s.timer.completions[i].handler == x <==> s.timer.completions[i] == Completion(x, false);
      }
    case _ =>
  }

  lemma RemovalKeepsOrder<U>(s: State<U>, u: U, x: U, y: U)
    requires Inv(s) && Ahead(s.queue, x, y) && x != u && y != u
    ensures Ahead(Remove(s, u).queue, x, y)
  {
    if u in s.queue {
      var i, j :| 0 <= i < j < |s.queue| && s.queue[i] == x && s.queue[j] == y;
      var k :| 0 <= k < |s.queue| && s.queue[k] == u;
      WithoutMovesUp(s.queue, k);
      var i', j' := if i < k then i else i - 1, if j < k then j else j - 1;
      assert Remove(s, u).queue[i'] == x && Remove(s, u).queue[j'] == y;
    }
  }

  /** Users who stay keep their order, and a user who joins stands behind everybody. */
  lemma OrderIsKept<U>(s: State<U>, e: Event<U>, x: U, y: U)
    requires Inv(s) && x in s.queue && x in Step(s, e).queue && y in Step(s, e).queue
    requires y !in s.queue || Ahead(s.queue, x, y)
    ensures Ahead(Step(s, e).queue, x, y)
  {
    WhoIsQueued(s, e, x);
    WhoIsQueued(s, e, y);
    match e
    case EvRequest(u) =>
      var i :| 0 <= i < |s.queue| && s.queue[i] == x;
      if y !in s.queue {
        assert Step(s, e).queue[i] == x && Step(s, e).queue[|s.queue|] == y;
      } else {
        var a, b :| 0 <= a < b < |s.queue| && s.queue[a] == x && s.queue[b] == y;
        assert Step(s, e).queue[a] == x && Step(s, e).queue[b] == y;
      }
    case EvRemove(u) => RemovalKeepsOrder(s, u, x, y);
    case EvEndCurrent => if s.queue != [] { RemovalKeepsOrder(s, s.queue[0], x, y); }
    case EvDeliver(i) =>
      if i < |s.timer.completions| && !s.timer.completions[i].aborted {
        DeliveryIsRemoval(s, i);
        RemovalKeepsOrder(s, s.timer.completions[i].handler, x, y);
      }
    case _ =>
  }

  ghost predicate StaysQueued<U>(s: State<U>, events: seq<Event<U>>, x: U)
    decreases |events|
  {
    x in s.queue && (events != [] ==> StaysQueued(Step(s, events[0]), events[1..], x))
  }

  /** First come, first served: as long as `x` stays queued, nobody who stood behind `x` or joins later becomes the head. */
  lemma {:induction false} FirstComeFirstServed<U>(s: State<U>, events: seq<Event<U>>, x: U, y: U)
    requires Inv(s) && StaysQueued(s, events, x) && x != y && (y !in s.queue || Ahead(s.queue, x, y))
    ensures Run(s, events).queue != [] && Run(s, events).queue[0] != y
    ensures y in Run(s, events).queue ==> Ahead(Run(s, events).queue, x, y)
    decreases |events|
  {
    if events == [] {
      if y in s.queue {
        var i, j :| 0 <= i < j < |s.queue| && s.queue[i] == x && s.queue[j] == y;
        assert s.queue[0] != s.queue[j];
      }
    } else {
      var t := Step(s, events[0]);
      StepKeepsInv(s, events[0]);
      if y in t.queue {
        OrderIsKept(s, events[0], x, y);
      }
      FirstComeFirstServed(t, events[1..], x, y);
    }
  }
}
