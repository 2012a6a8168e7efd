/** Whose votes are counted, what a counted vote does, and how long votes and the pauses between them last. */
module VoteRights {
  import opened Options
  import opened SteadyTimers
  import opened VmRooms
  import opened VoteTally
  import TurnQueue

  // ---------------------------------------------------------------- whose votes are counted

  /** The address of `u` loses its unused vote. */
  ghost predicate UsesUp<U>(r: Room<U>, after: Room<U>, u: U) {
    && u in r.users && r.users[u].ip in r.ips && r.users[u].ip in after.ips
    && !r.ips[r.users[u].ip].voted && after.ips[r.users[u].ip].voted
  }

  /** `u` is in the channel, may vote there, and comes from an address that has not voted. */
  ghost predicate Entitled<U>(r: Room<U>, u: U) {
    && u in r.users && r.users[u].ip in r.ips && !r.ips[r.users[u].ip].voted
    && r.settings.votesEnabled && (r.users[u].registered || !r.settings.disallowGuestVotes)
  }

  /** A vote for a restart begins a round; while a round runs, attempts below the limit are counted either way. */
  ghost predicate Admitted<U>(r: Room<U>, u: U, votedYes: bool)
    requires u in r.users
  {
    || (r.phase == Idle && votedYes)
    || (r.phase == Voting && !r.users[u].vote.limited && r.users[u].vote.amount + 1 < r.voteLimit)
  }

  /** The rooms differ in nothing but the vote: counters, phase, timer, vote data and flags. */
  ghost predicate OnlyVoteDiffers<U>(r: Room<U>, after: Room<U>) {
    && after.turns == r.turns && after.settings == r.settings && after.active == r.active
    && after.voteLimit == r.voteLimit && after.results == r.results
  }

  ghost predicate OthersKept<U>(r: Room<U>, after: Room<U>, u: U)
    requires u in r.users && u in after.users && r.users[u].ip in r.ips && r.users[u].ip in after.ips
  {
    && after.users == r.users[u := after.users[u]]
    && after.users[u] == r.users[u].(vote := after.users[u].vote)
    && after.ips == r.ips[r.users[u].ip := after.ips[r.users[u].ip]]
    && after.ips[r.users[u].ip].references == r.ips[r.users[u].ip].references
  }

  lemma EntitledIsUndecided<U>(r: Room<U>, u: U)
    requires Inv(r) && Entitled(r, u)
    ensures r.users[u].vote.last == Undecided
  {
  }

  /** A vote uses up the vote of an address exactly when its user is entitled to vote and the round admits it.  It then
      counts once, for what was chosen, and is noted with the user alone. */
  lemma VoteIsCountedIff<U>(r: Room<U>, u: U, votedYes: bool)
    requires Inv(r)
    ensures var after := Vote(r, u, votedYes);
            && (UsesUp(r, after, u) <==> Entitled(r, u) && Admitted(r, u, votedYes))
            && OnlyVoteDiffers(r, after)
            && (UsesUp(r, after, u) ==>
                 && u in after.users && OthersKept(r, after, u)
                 && after.users[u].vote.last == (if votedYes then Yes else No)
                 && after.phase == Voting
                 && (r.phase == Idle ==> after.yes == 1 && after.no == 0)
                 && (r.phase == Voting ==>
                      && after.yes == (if votedYes then Wrap(r.yes + 1) else r.yes)
                      && after.no == (if votedYes then r.no else Wrap(r.no + 1))))
  {
    if Entitled(r, u) {
      EntitledIsUndecided(r, u);
    }
  }

  /** A round lasts the vote time from its first vote; later votes do not prolong it. */
  lemma FirstVoteSetsTheTime<U>(r: Room<U>, u: U, votedYes: bool)
    requires Inv(r)
    ensures var after := Vote(r, u, votedYes);
            if r.phase == Idle && after.phase == Voting then
              after.voteTimer.expiry == r.turns.now + r.settings.voteTime && after.voteTimer.waits == [VoteOver]
            else after.voteTimer == r.voteTimer && after.phase == r.phase
  {
  }

  /** A vote that is not counted leaves the room as it was, except that during a round the attempt of an entitled user is
      noted, and that the user's later attempts are refused once the limit is reached. */
  lemma UncountedVoteIsNoted<U>(r: Room<U>, u: U, votedYes: bool)
    requires Inv(r) && !UsesUp(r, Vote(r, u, votedYes), u)
    ensures !Entitled(r, u) || r.phase != Voting ==> Vote(r, u, votedYes) == r
    ensures Entitled(r, u) && r.phase == Voting ==>
              var after, vote := Vote(r, u, votedYes), r.users[u].vote;
              && after == r.(users := after.users)
              && after.users == r.users[u := r.users[u].(vote := after.users[u].vote)]
              && after.users[u].vote == VoteData(Undecided, if vote.limited then vote.amount else vote.amount + 1, true)
  {
    VoteIsCountedIff(r, u, votedYes);
  }

  /** The limit stops a user who keeps trying: every attempt that is counted is below it. */
  lemma CountedVoteIsNoted<U>(r: Room<U>, u: U, votedYes: bool)
    requires Inv(r) && UsesUp(r, Vote(r, u, votedYes), u)
    ensures var before, noted := r.users[u].vote, Vote(r, u, votedYes).users[u].vote;
            && noted.limited == before.limited
            && noted.amount == (if r.phase == Voting then before.amount + 1 else before.amount)
            && (r.phase == Voting ==> !noted.limited && noted.amount < r.voteLimit)
  {
    VoteIsCountedIff(r, u, votedYes);
  }

  // ---------------------------------------------------------------- who is in the channel

  /** The completion that ends a vote is run, and its result is announced. */
  ghost predicate Announces<U>(r: Room<U>, e: Event<U>) {
    && e.EvDeliverVote? && e.index < |r.voteTimer.completions| && r.phase == Voting
    && r.active && r.settings.votesEnabled
  }

  ghost predicate SamePerson(a: User, b: User) {
    a.ip == b.ip && a.registered == b.registered && a.admin == b.admin
  }

  lemma VoteKeepsUsers<U>(r: Room<U>, u: U, votedYes: bool, v: U)
    requires Inv(r)
    ensures v in Vote(r, u, votedYes).users <==> v in r.users
    ensures v in r.users ==> SamePerson(Vote(r, u, votedYes).users[v], r.users[v])
    ensures v in r.users && v != u ==> Vote(r, u, votedYes).users[v] == r.users[v]
  {
  }

  lemma VoteEndKeepsUsers<U>(r: Room<U>, i: nat, v: U)
    requires Inv(r) && i < |r.voteTimer.completions|
    ensures v in DeliverVote(r, i).users <==> v in r.users
    ensures v in r.users ==> SamePerson(DeliverVote(r, i).users[v], r.users[v])
    ensures v in r.users ==>
              DeliverVote(r, i).users[v].vote == if Announces(r, EvDeliverVote(i)) then NO_VOTE else r.users[v].vote
  {
    VoteIsTimedMeans(r);
  }

  /** A user is in the channel from joining to leaving, and stays who it was when it joined. */
  lemma UsersComeAndGo<U>(r: Room<U>, e: Event<U>, v: U)
    requires Inv(r) && FreshJoin(r, e)
    ensures v in Step(r, e).users <==> (v in r.users && e != EvRemoveUser(v)) || (e.EvAddUser? && e.u == v)
    ensures e.EvAddUser? && e.u == v && v in Step(r, e).users ==>
              Step(r, e).users[v] == User(e.ip, e.registered, e.admin, NO_VOTE)
    ensures v in r.users && v in Step(r, e).users ==> SamePerson(Step(r, e).users[v], r.users[v])
  {
    if e.EvVote? {
      VoteKeepsUsers(r, e.u, e.votedYes, v);
    } else if e.EvDeliverVote? {
      if e.index < |r.voteTimer.completions| {
        VoteEndKeepsUsers(r, e.index, v);
      }
    } else if !e.EvAddUser? && !e.EvRemoveUser? {
      assert Step(r, e).users == r.users;
    }
  }

  lemma VoteIsTimedMeans<U>(r: Room<U>)
    requires Inv(r)
    ensures |r.voteTimer.completions| <= 1
    ensures r.voteTimer.completions != [] ==>
              r.phase == (if r.voteTimer.completions[0].handler == VoteOver then Voting else CoolingDown)
  {
  }

  /** The vote data of a user in the channel changes by the user's own vote and by an announced end alone. */
  lemma VoteDataChanges<U>(r: Room<U>, e: Event<U>, v: U)
    requires Inv(r) && FreshJoin(r, e) && v in r.users && v in Step(r, e).users
    ensures Announces(r, e) ==> Step(r, e).users[v].vote == NO_VOTE
    ensures !Announces(r, e) && !(e.EvVote? && e.u == v) ==> Step(r, e).users[v].vote == r.users[v].vote
  {
    if e.EvVote? {
      VoteKeepsUsers(r, e.u, e.votedYes, v);
    } else if e.EvDeliverVote? {
      if e.index < |r.voteTimer.completions| {
        VoteEndKeepsUsers(r, e.index, v);
      }
    } else if !e.EvAddUser? && !e.EvRemoveUser? {
      assert Step(r, e).users == r.users;
    }
  }

  // ---------------------------------------------------------------- addresses

  lemma VoteFlags<U>(r: Room<U>, u: U, votedYes: bool, a: IpBytes)
    requires Inv(r) && a in r.ips
    ensures a in Vote(r, u, votedYes).ips
    ensures Vote(r, u, votedYes).ips[a].voted <==>
            r.ips[a].voted || (UsesUp(r, Vote(r, u, votedYes), u) && r.users[u].ip == a)
  {
  }

  lemma VoteEndFlags<U>(r: Room<U>, i: nat, a: IpBytes)
    requires Inv(r) && a in r.ips && i < |r.voteTimer.completions|
    ensures a in DeliverVote(r, i).ips
    ensures DeliverVote(r, i).ips[a].voted <==> r.ips[a].voted && !Announces(r, EvDeliverVote(i))
  {
    VoteIsTimedMeans(r);
    ClearingKeepsIpTable(r.users, r.ips);
  }

  /** The vote of an address is used up by a counted vote from it, and is given back by an announced end alone: not by its
      voter leaving while others are there, and not by others joining. */
  lemma FlagsChange<U>(r: Room<U>, e: Event<U>, a: IpBytes)
    requires Inv(r) && FreshJoin(r, e) && a in r.ips && a in Step(r, e).ips
    ensures Step(r, e).ips[a].voted <==>
            !Announces(r, e) && (r.ips[a].voted || (e.EvVote? && UsesUp(r, Step(r, e), e.u) && r.users[e.u].ip == a))
  {
    if e.EvVote? {
      VoteFlags(r, e.u, e.votedYes, a);
    } else if e.EvDeliverVote? {
      if e.index < |r.voteTimer.completions| {
        VoteEndFlags(r, e.index, a);
      }
    } else if !e.EvAddUser? && !e.EvRemoveUser? {
      assert Step(r, e).ips == r.ips;
    }
  }

  /** Somebody is at the address throughout, and no result is announced. */
  ghost predicate StaysInRound<U>(r: Room<U>, events: seq<Event<U>>, a: IpBytes)
    decreases |events|
  {
    && a in r.ips
    && (events != [] ==> !Announces(r, events[0]) && StaysInRound(Step(r, events[0]), events[1..], a))
  }

  /** Once the vote of an address has been counted, no vote from that address is counted until a result is announced,
      whoever leaves or joins there meanwhile, as long as somebody is there. */
  lemma {:induction false} OneVotePerAddress<U>(r: Room<U>, events: seq<Event<U>>, a: IpBytes, u: U, votedYes: bool)
    requires Inv(r) && FreshJoins(r, events) && StaysInRound(r, events, a) && r.ips[a].voted
    requires u in Run(r, events).users && Run(r, events).users[u].ip == a
    ensures Vote(Run(r, events), u, votedYes) == Run(r, events)
    decreases |events|
  {
    if events == [] {
      VoteIsCountedIff(r, u, votedYes);
      UncountedVoteIsNoted(r, u, votedYes);
    } else {
      StepKeepsInv(r, events[0]);
      FlagsChange(r, events[0], a);
      OneVotePerAddress(Step(r, events[0]), events[1..], a, u, votedYes);
    }
  }

  // ---------------------------------------------------------------- guests

  /** Guests may not vote, now or after any settings change among the events. */
  ghost predicate GuestsExcluded<U>(r: Room<U>, events: seq<Event<U>>) {
    && r.settings.disallowGuestVotes
    && forall e :: e in events && e.EvApplySettings? ==> e.settings.disallowGuestVotes
  }

  ghost predicate GuestsUntouched<U>(r: Room<U>) {
    forall u :: u in r.users && !r.users[u].registered ==> r.users[u].vote == NO_VOTE
  }

  lemma ExcludedGuestHasNoEffect<U>(r: Room<U>, u: U, votedYes: bool)
    requires Inv(r) && r.settings.disallowGuestVotes && u in r.users && !r.users[u].registered
    ensures Vote(r, u, votedYes) == r
  {
    VoteIsCountedIff(r, u, votedYes);
    UncountedVoteIsNoted(r, u, votedYes);
  }

  lemma SettingsInForce<U>(r: Room<U>, e: Event<U>)
    requires Inv(r)
    ensures Step(r, e).settings == if e.EvApplySettings? then e.settings else r.settings
    ensures Step(r, e).active == if e.EvSetActive? then e.active else r.active
  {
    VoteIsTimedMeans(r);
    if e.EvVote? {
      VoteIsCountedIff(r, e.u, e.votedYes);
    }
  }

  lemma StepKeepsGuests<U>(r: Room<U>, e: Event<U>)
    requires Inv(r) && FreshJoin(r, e) && r.settings.disallowGuestVotes && GuestsUntouched(r)
    ensures GuestsUntouched(Step(r, e))
  {
    var next := Step(r, e);
    forall u | u in next.users && !next.users[u].registered
      ensures next.users[u].vote == NO_VOTE
    {
      UsersComeAndGo(r, e, u);
      if u in r.users {
        VoteDataChanges(r, e, u);
        if e.EvVote? && e.u == u {
          ExcludedGuestHasNoEffect(r, u, e.votedYes);
        }
      }
    }
  }

  /** In every run whose settings exclude guests throughout, the vote data of every guest stays untouched, so that whoever
      has decided is registered. */
  lemma {:induction false} GuestsNeverVote<U>(r: Room<U>, events: seq<Event<U>>)
    requires Inv(r) && FreshJoins(r, events) && GuestsExcluded(r, events) && GuestsUntouched(r)
    ensures GuestsUntouched(Run(r, events))
    ensures forall u :: u in Run(r, events).users && Decided(Run(r, events).users[u]) ==>
              Run(r, events).users[u].registered
    decreases |events|
  {
    if events != [] {
      assert events[0] in events && forall e :: e in events[1..] ==> e in events;
      StepKeepsInv(r, events[0]);
      SettingsInForce(r, events[0]);
      StepKeepsGuests(r, events[0]);
      GuestsNeverVote(Step(r, events[0]), events[1..]);
    }
  }

  // ---------------------------------------------------------------- phases and their length

  /** A completion of the vote timer is run that was not aborted. */
  ghost predicate TimeIsUp<U>(r: Room<U>, e: Event<U>) {
    e.EvDeliverVote? && e.index < |r.voteTimer.completions| && !r.voteTimer.completions[e.index].aborted
  }

  ghost predicate RunsCompletion<U>(r: Room<U>, e: Event<U>) {
    e.EvDeliverVote? && e.index < |r.voteTimer.completions|
  }

  /** A round begins with a counted vote and ends with the completion of its wait.  It is followed by a cooldown exactly
      when it ran to its end with votes enabled and the settings ask for one. */
  lemma PhasesFollow<U>(r: Room<U>, e: Event<U>)
    requires Inv(r) && FreshJoin(r, e)
    ensures var after := Step(r, e).phase;
            match r.phase
            case Idle => after == if e.EvVote? && UsesUp(r, Step(r, e), e.u) then Voting else Idle
            case Voting =>
              after == if !RunsCompletion(r, e) then Voting
                       else if TimeIsUp(r, e) && r.settings.votesEnabled && r.settings.cooldownTime > 0 then CoolingDown
                       else Idle
            case CoolingDown => after == if RunsCompletion(r, e) then Idle else CoolingDown
  {
    VoteIsTimedMeans(r);
    if e.EvVote? {
      VoteIsCountedIff(r, e.u, e.votedYes);
    }
  }

  /** The vote timer is set at the beginning of a round and of a cooldown, each for its own time, and never otherwise. */
  lemma PhasesAreTimed<U>(r: Room<U>, e: Event<U>)
    requires Inv(r) && FreshJoin(r, e)
    ensures var after := Step(r, e);
            && (r.phase == Idle && after.phase == Voting ==>
                 after.voteTimer.expiry == after.turns.now + r.settings.voteTime && after.voteTimer.waits == [VoteOver])
            && (r.phase == Voting && after.phase == CoolingDown ==>
                 after.voteTimer.expiry == after.turns.now + r.settings.cooldownTime &&
                 after.voteTimer.waits == [CooldownOver])
            && (after.phase == r.phase || after.phase == Idle ==> after.voteTimer.expiry == r.voteTimer.expiry)
  {
    VoteIsTimedMeans(r);
    if e.EvVote? {
      FirstVoteSetsTheTime(r, e.u, e.votedYes);
      VoteIsCountedIff(r, e.u, e.votedYes);
    } else if !e.EvDeliverVote? {
      assert Step(r, e).phase == r.phase && Step(r, e).voteTimer.expiry == r.voteTimer.expiry;
    }
  }

  /** A result is announced when a round ends in a machine that is active with votes enabled, and at no other time.  It
      says that the vote passed when time was up and the ayes were not fewer than the noes. */
  lemma ResultsAreAnnounced<U>(r: Room<U>, e: Event<U>)
    requires Inv(r) && FreshJoin(r, e)
    ensures Step(r, e).results == r.results + if Announces(r, e) then [TimeIsUp(r, e) && r.yes >= r.no] else []
  {
    VoteIsTimedMeans(r);
  }

  /** A round that is cancelled, or whose votes are disabled, before its time is up does not pass: its wait is called back,
      and what the completion announces, if anything, is a failure. */
  lemma CancelledRoundFails<U>(r: Room<U>, e: Event<U>)
    requires Inv(r) && r.phase == Voting && Outstanding(r)
    requires e == EvCancelVote || (e.EvApplySettings? && !e.settings.votesEnabled && r.settings.votesEnabled)
    ensures var called, end := Step(r, e), Step(Step(r, e), EvDeliverVote(0));
            && called.phase == Voting && called.voteTimer.waits == [] && |called.voteTimer.completions| == 1
            && end.phase == Idle && end.voteTimer.waits == [] && end.voteTimer.completions == []
            && end.results == r.results + if r.active && called.settings.votesEnabled then [false] else []
  {
    var called := Step(r, e);
    StepKeepsInv(r, e);
    assert called.voteTimer.completions[0].aborted;
    StepKeepsInv(called, EvDeliverVote(0));
    PhasesFollow(called, EvDeliverVote(0));
    ResultsAreAnnounced(called, EvDeliverVote(0));
  }

  /** The wait of the phase is outstanding. */
  ghost predicate Outstanding<U>(r: Room<U>) {
    r.phase != Idle && r.voteTimer.waits != []
  }

  /** The event cancels the vote, or may do so by disabling votes. */
  predicate CutsShort<U>(e: Event<U>) {
    e.EvCancelVote? || (e.EvApplySettings? && !e.settings.votesEnabled)
  }

  function Ticks<U>(events: seq<Event<U>>): nat {
    if events == [] then 0 else (if events[0].EvTick? then 1 else 0) + Ticks(events[1..])
  }

  lemma ClockMovesWithTicks<U>(r: Room<U>, e: Event<U>)
    requires Inv(r)
    ensures Step(r, e).turns.now == r.turns.now + if e.EvTick? then 1 else 0
  {
    VoteIsTimedMeans(r);
    if e.EvVote? {
      VoteIsCountedIff(r, e.u, e.votedYes);
    }
  }

  lemma PhaseOutlastsStep<U>(r: Room<U>, e: Event<U>)
    requires Inv(r) && FreshJoin(r, e) && Outstanding(r) && r.turns.now < r.voteTimer.expiry && !CutsShort(e)
    ensures Outstanding(Step(r, e)) && Step(r, e).phase == r.phase && Step(r, e).voteTimer.expiry == r.voteTimer.expiry
    ensures Step(r, e).results == r.results
  {
    PhasesFollow(r, e);
    PhasesAreTimed(r, e);
    ResultsAreAnnounced(r, e);
  }

  /** A round or a cooldown whose wait is outstanding lasts until its time is up, unless it is cancelled or votes are
      disabled; until then nothing is announced. */
  lemma {:induction false} PhaseIsNotCutShort<U>(r: Room<U>, events: seq<Event<U>>)
    requires Inv(r) && FreshJoins(r, events) && Outstanding(r)
    requires Ticks(events) < r.voteTimer.expiry - r.turns.now
    requires forall e :: e in events ==> !CutsShort(e)
    ensures Run(r, events).phase == r.phase && Run(r, events).results == r.results
    ensures Outstanding(Run(r, events)) && Run(r, events).voteTimer.expiry == r.voteTimer.expiry
    ensures Run(r, events).turns.now == r.turns.now + Ticks(events)
    decreases |events|
  {
    if events != [] {
      assert events[0] in events && forall e :: e in events[1..] ==> e in events;
      StepKeepsInv(r, events[0]);
      ClockMovesWithTicks(r, events[0]);
      PhaseOutlastsStep(r, events[0]);
      PhaseIsNotCutShort(Step(r, events[0]), events[1..]);
    }
  }

  /** So a round runs for the whole vote time and the votes counted in it are those of that time; and after a round that
      was not cancelled nobody can begin another one before the cooldown time has passed. */
  lemma RoundLastsTheVoteTime<U>(r: Room<U>, e: Event<U>, events: seq<Event<U>>)
    requires Inv(r) && FreshJoin(r, e) && Step(r, e).phase != r.phase && Step(r, e).phase != Idle
    requires FreshJoins(Step(r, e), events) && forall x :: x in events ==> !CutsShort(x)
    requires Ticks(events) < if r.phase == Idle then r.settings.voteTime else r.settings.cooldownTime
    ensures Run(Step(r, e), events).phase == if r.phase == Idle then Voting else CoolingDown
    ensures Run(Step(r, e), events).results == Step(r, e).results
  {
    StepKeepsInv(r, e);
    PhasesFollow(r, e);
    PhasesAreTimed(r, e);
    PhaseIsNotCutShort(Step(r, e), events);
  }
}
