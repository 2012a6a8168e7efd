/** What the calls of a machine's users and its settings mean for the turn queue, and which settings are in force. */
module RoomTurns {
  import opened Options
  import opened SteadyTimers
  import opened VmRooms
  import opened VoteTally
  import TurnQueue
  import TurnLength
  import VoteRights

  // ---------------------------------------------------------------- who may end a turn

  /** Turns are enabled, and `u` has the turn or is an administrator in the channel. */
  ghost predicate MayEndTurn<U>(r: Room<U>, u: U) {
    && r.settings.turnsEnabled
    && ((r.turns.queue != [] && r.turns.queue[0] == u) || (u in r.users && r.users[u].admin))
  }

  /** Asking for the end of the current turn ends it exactly when the one who asks has it or is an administrator. */
  lemma TurnIsEndedIff<U>(r: Room<U>, u: U)
    requires Inv(r)
    ensures var after := Step(r, EvEndTurn(u));
            && (after.turns.queue != r.turns.queue <==> MayEndTurn(r, u) && r.turns.queue != [])
            && (after.turns.queue != r.turns.queue ==> after.turns.queue == r.turns.queue[1..])
            && (!MayEndTurn(r, u) ==> after == r)
  {
    if r.turns.queue != [] {
      TurnQueue.WithoutAt(r.turns.queue, 0);
    }
  }

  // ---------------------------------------------------------------- a room's turns are a run of the queue

  /** The steps of the turn queue that an event of the room stands for. */
  ghost function TurnEvents<U>(r: Room<U>, e: Event<U>): seq<TurnQueue.Event<U>> {
    match e
    case EvRemoveUser(u) => if u in r.users then [TurnQueue.EvRemove(u)] else []
    case EvRequestTurn(u) => if r.settings.turnsEnabled then [TurnQueue.EvRequest(u)] else []
    case EvPauseTurn => if r.settings.turnsEnabled then [TurnQueue.EvPause] else []
    case EvResumeTurn => if r.settings.turnsEnabled then [TurnQueue.EvResume] else []
    case EvEndTurn(u) => if MayEndTurn(r, u) then [TurnQueue.EvEndCurrent] else []
    case EvTick => [TurnQueue.EvTick]
    case EvFireTurn => [TurnQueue.EvFire]
    case EvDeliverTurn(i) => [TurnQueue.EvDeliver(i)]
    case EvApplySettings(settings) =>
      if settings.turnsEnabled || !r.settings.turnsEnabled then [TurnQueue.EvSetTurnTime(settings.turnTime)]
      else [TurnQueue.EvSetTurnTime(settings.turnTime), TurnQueue.EvClear]
    case _ => []
  }

  lemma StepIsTurnRun<U>(r: Room<U>, e: Event<U>)
    requires Inv(r)
    ensures Step(r, e).turns == TurnQueue.Run(r.turns, TurnEvents(r, e))
  {
    VoteRights.VoteIsTimedMeans(r);
    if e.EvVote? {
      VoteRights.VoteIsCountedIff(r, e.u, e.votedYes);
    }
    if |TurnEvents(r, e)| == 2 {
      var s := TurnQueue.Step(r.turns, TurnEvents(r, e)[0]);
      assert TurnEvents(r, e)[1..] == [TurnQueue.EvClear];
      assert TurnQueue.Run(s, [TurnQueue.EvClear]) == TurnQueue.Step(s, TurnQueue.EvClear);
    }
  }

  lemma {:induction false} TurnRunAppend<U>(s: TurnQueue.State<U>, a: seq<TurnQueue.Event<U>>, b: seq<TurnQueue.Event<U>>)
    ensures TurnQueue.Run(s, a + b) == TurnQueue.Run(TurnQueue.Run(s, a), b)
    decreases |a|
  {
    if a == [] {
      assert a + b == b;
    } else {
      assert (a + b)[1..] == a[1..] + b;
      TurnRunAppend(TurnQueue.Step(s, a[0]), a[1..], b);
    }
  }

  ghost function AllTurnEvents<U>(r: Room<U>, events: seq<Event<U>>): seq<TurnQueue.Event<U>>
    decreases |events|
  {
    if events == [] then [] else TurnEvents(r, events[0]) + AllTurnEvents(Step(r, events[0]), events[1..])
  }

  /** The turns of a room go through a run of the turn queue, so that everything said of such runs - the invariant, the
      bound on waiting, the length of turns and their order - is said of rooms. */
  lemma {:induction false} RunIsTurnRun<U>(r: Room<U>, events: seq<Event<U>>)
    requires Inv(r) && FreshJoins(r, events)
    ensures Run(r, events).turns == TurnQueue.Run(r.turns, AllTurnEvents(r, events))
    decreases |events|
  {
    if events != [] {
      StepIsTurnRun(r, events[0]);
      StepKeepsInv(r, events[0]);
      RunIsTurnRun(Step(r, events[0]), events[1..]);
      TurnRunAppend(r.turns, TurnEvents(r, events[0]), AllTurnEvents(Step(r, events[0]), events[1..]));
    }
  }

  /** What takes `x` out of the queue of a room: leaving the channel, the end of its turn asked for by someone who may,
      turns being disabled, and the expiry of its turn. */
  ghost predicate LosesPlace<U>(r: Room<U>, e: Event<U>, x: U) {
    || (e == EvRemoveUser(x) && x in r.users)
    || (e.EvEndTurn? && MayEndTurn(r, e.u) && r.turns.queue != [] && r.turns.queue[0] == x)
    || (e.EvApplySettings? && !e.settings.turnsEnabled)
    || (e.EvDeliverTurn? && e.index < |r.turns.timer.completions|
        && r.turns.timer.completions[e.index] == Completion(x, false))
  }

  lemma OneTurnStep<U>(r: Room<U>, e: Event<U>)
    requires Inv(r) && |TurnEvents(r, e)| == 1
    ensures Step(r, e).turns == TurnQueue.Step(r.turns, TurnEvents(r, e)[0])
  {
    StepIsTurnRun(r, e);
    var steps := TurnEvents(r, e);
    assert steps[1..] == [];
    assert TurnQueue.Run(r.turns, steps) == TurnQueue.Step(r.turns, steps[0]);
  }

  /** A user is queued from asking for a turn while turns are enabled until losing the place. */
  lemma WhoIsQueued<U>(r: Room<U>, e: Event<U>, x: U)
    requires Inv(r)
    ensures x in Step(r, e).turns.queue <==>
            (x in r.turns.queue && !LosesPlace(r, e, x)) || (e == EvRequestTurn(x) && r.settings.turnsEnabled)
  {
    if |TurnEvents(r, e)| == 1 {
      OneTurnStep(r, e);
      TurnLength.WhoIsQueued(r.turns, TurnEvents(r, e)[0], x);
    } else {
      StepIsTurnRun(r, e);
      assert e.EvApplySettings? ==> Step(r, e).turns.queue == [];
    }
  }

  // ---------------------------------------------------------------- which settings are in force

  /** The turn time is the one set, and no wait for a vote is outstanding while votes are disabled. */
  ghost predicate SettingsHold<U>(r: Room<U>) {
    && r.turns.turnTime == r.settings.turnTime
    && (!r.settings.votesEnabled ==> r.voteTimer.waits == [])
  }

  lemma StepKeepsSettings<U>(r: Room<U>, e: Event<U>)
    requires Inv(r) && FreshJoin(r, e) && SettingsHold(r)
    ensures SettingsHold(Step(r, e))
  {
    VoteRights.SettingsInForce(r, e);
    TurnTimeIsSet(r, e);
    VoteTimerChanges(r, e);
  }

  lemma TurnTimeIsSet<U>(r: Room<U>, e: Event<U>)
    requires Inv(r)
    ensures Step(r, e).turns.turnTime == if e.EvApplySettings? then e.settings.turnTime else r.turns.turnTime
  {
    StepIsTurnRun(r, e);
    if TurnEvents(r, e) != [] && !e.EvApplySettings? {
      OneTurnStep(r, e);
      TurnLength.OnlyTheirCallsChange(r.turns, TurnEvents(r, e)[0]);
    }
  }

  lemma VoteTimerChanges<U>(r: Room<U>, e: Event<U>)
    requires Inv(r) && SettingsHold(r)
    ensures !Step(r, e).settings.votesEnabled ==> Step(r, e).voteTimer.waits == []
  {
    VoteRights.VoteIsTimedMeans(r);
    if e.EvVote? {
      VoteRights.FirstVoteSetsTheTime(r, e.u, e.votedYes);
      VoteRights.VoteIsCountedIff(r, e.u, e.votedYes);
    }
  }

  /** In every run the turn time last set is the one the next turn gets, and a vote under way when votes are disabled is
      cancelled, whichever settings came before. */
  lemma {:induction false} RunKeepsSettings<U>(r: Room<U>, events: seq<Event<U>>)
    requires Inv(r) && FreshJoins(r, events) && SettingsHold(r)
    ensures SettingsHold(Run(r, events))
    decreases |events|
  {
    if events != [] {
      StepKeepsInv(r, events[0]);
      StepKeepsSettings(r, events[0]);
      RunKeepsSettings(Step(r, events[0]), events[1..]);
    }
  }

  lemma EmptyRoomHoldsSettings<U>(settings: Settings, voteLimit: int)
    ensures SettingsHold(EmptyRoom<U>(settings, voteLimit))
  {
  }

  ghost predicate VotesStayDisabled<U>(r: Room<U>, events: seq<Event<U>>) {
    && !r.settings.votesEnabled
    && forall e :: e in events && e.EvApplySettings? ==> !e.settings.votesEnabled
  }

  /** While votes are disabled no round begins, nothing is announced, and whatever was under way can only end. */
  lemma {:induction false} DisabledVotesDoNothing<U>(r: Room<U>, events: seq<Event<U>>)
    requires Inv(r) && FreshJoins(r, events) && VotesStayDisabled(r, events)
    ensures Run(r, events).results == r.results
    ensures Run(r, events).phase == r.phase || Run(r, events).phase == Idle
    decreases |events|
  {
    if events != [] {
      assert events[0] in events && forall e :: e in events[1..] ==> e in events;
      StepKeepsInv(r, events[0]);
      VoteRights.SettingsInForce(r, events[0]);
      VoteRights.PhasesFollow(r, events[0]);
      VoteRights.ResultsAreAnnounced(r, events[0]);
      if events[0].EvVote? {
        VoteRights.VoteIsCountedIff(r, events[0].u, events[0].votedYes);
      }
      DisabledVotesDoNothing(Step(r, events[0]), events[1..]);
    }
  }
}
