/** What the vote counters, the per-user decisions and the per-address flags have to do with each other in every run. */
module VoteTally {
  import opened Counting
  import opened SteadyTimers
  import opened VmRooms
  import TurnQueue

  ghost function Voters<U>(users: map<U, User>, d: Decision): set<U> {
    set u | u in users && users[u].vote.last == d
  }

  /** The address table lists exactly the addresses of the users present, with how many users each has. */
  ghost predicate IpTableExact<U>(users: map<U, User>, ips: map<IpBytes, IpData>) {
    forall a :: IpEntryExact(users, ips, a)
  }

  ghost predicate IpEntryExact<U>(users: map<U, User>, ips: map<IpBytes, IpData>, a: IpBytes) {
    if a in ips then ips[a].references == |UsersAt(users, a)| > 0 else |UsersAt(users, a)| == 0
  }

  /** A user who has decided has used up the vote of its address, and nobody else at that address has decided. */
  ghost predicate OneVoterPerIp<U>(users: map<U, User>, ips: map<IpBytes, IpData>) {
    && (forall u :: u in users && Decided(users[u]) ==> users[u].ip in ips && ips[users[u].ip].voted)
    && (forall u, v :: u in users && v in users && Decided(users[u]) && Decided(users[v]) && u != v ==>
          users[u].ip != users[v].ip)
  }

  predicate Decided(user: User) {
    user.vote.last != Undecided
  }

  ghost predicate OnlyWait(t: Timer<Wait>, w: Wait) {
    || (t.waits == [w] && t.completions == [])
    || (t.waits == [] && |t.completions| == 1 && t.completions[0].handler == w)
  }

  /** The vote timer holds one wait or completion, of the kind the phase calls for, and none when idle. */
  ghost predicate VoteIsTimed<U>(r: Room<U>) {
    match r.phase
    case Idle => r.voteTimer.waits == [] && r.voteTimer.completions == []
    case Voting => OnlyWait(r.voteTimer, VoteOver)
    case CoolingDown => OnlyWait(r.voteTimer, CooldownOver)
  }

  ghost predicate TurnsAllowed<U>(r: Room<U>) {
    TurnQueue.Inv(r.turns) && (!r.settings.turnsEnabled ==> r.turns.queue == [])
  }

  ghost predicate Inv<U>(r: Room<U>) {
    IpTableExact(r.users, r.ips) && OneVoterPerIp(r.users, r.ips) && VoteIsTimed(r) && TurnsAllowed(r)
  }

  ghost predicate NobodyVoted<U>(r: Room<U>) {
    && (forall u :: u in r.users ==> r.users[u].vote == NO_VOTE)
    && (forall a :: a in r.ips ==> !r.ips[a].voted)
  }

  ghost predicate Counted<U>(users: map<U, User>, yes: nat, no: nat) {
    yes == Wrap(|Voters(users, Yes)|) && no == Wrap(|Voters(users, No)|)
  }

  /** While a vote runs the counters are the numbers of users who last voted that way; otherwise nothing is left of any
      vote. */
  ghost predicate TallyExact<U>(r: Room<U>) {
    if r.phase == Voting then
      Counted(r.users, r.yes, r.no)
    else
      NobodyVoted(r)
  }

  // ---------------------------------------------------------------- counting

  lemma WrapSteps(n: int)
    ensures Wrap(Wrap(n) + 1) == Wrap(n + 1) && Wrap(Wrap(n) - 1) == Wrap(n - 1)
  {
    var q, r := n / UINT32, n % UINT32;
    assert n == q * UINT32 + r;
    WrapIs(n + 1, if r + 1 == UINT32 then q + 1 else q, if r + 1 == UINT32 then 0 else r + 1);
    WrapIs(n - 1, if r == 0 then q - 1 else q, if r == 0 then UINT32 - 1 else r - 1);
  }

  lemma WrapIs(n: int, q: int, r: nat)
    requires n == q * UINT32 + r && r < UINT32
    ensures Wrap(n) == r
  {
  }

  lemma UsersAtAfterJoin<U>(users: map<U, User>, u: U, user: User, a: IpBytes)
    requires u !in users
    ensures UsersAt(users[u := user], a) == UsersAt(users, a) + (if user.ip == a then {u} else {})
    ensures |UsersAt(users[u := user], a)| == |UsersAt(users, a)| + Bit(user.ip == a)
  {
    assert UsersAt(users[u := user], a) == UsersAt(users, a) + (if user.ip == a then {u} else {});
  }

  lemma UsersAtAfterLeave<U>(users: map<U, User>, u: U, a: IpBytes)
    requires u in users
    ensures UsersAt(users - {u}, a) == UsersAt(users, a) - {u}
    ensures |UsersAt(users - {u}, a)| == |UsersAt(users, a)| - Bit(users[u].ip == a)
  {
    assert UsersAt(users - {u}, a) == UsersAt(users, a) - {u};
  }

  lemma VotersAfterJoin<U>(users: map<U, User>, u: U, user: User, d: Decision)
    requires u !in users && d != user.vote.last
    ensures Voters(users[u := user], d) == Voters(users, d)
  {
  }

  lemma VotersAfterVote<U>(users: map<U, User>, u: U, vote: VoteData, d: Decision)
    requires u in users && users[u].vote.last != d
    ensures |Voters(users[u := users[u].(vote := vote)], d)| == |Voters(users, d)| + Bit(vote.last == d)
  {
    assert Voters(users[u := users[u].(vote := vote)], d) ==
           Voters(users, d) + (if vote.last == d then {u} else {});
  }

  lemma VotersAfterLeave<U>(users: map<U, User>, u: U, d: Decision)
    requires u in users
    ensures |Voters(users - {u}, d)| == |Voters(users, d)| - Bit(users[u].vote.last == d)
  {
    assert Voters(users - {u}, d) == Voters(users, d) - {u};
  }

  lemma {:induction false} SubsetIsSmaller<T>(a: set<T>, b: set<T>)
    requires a <= b
    ensures |a| <= |b|
  {
    if a != {} {
      var x :| x in a;
      SubsetIsSmaller(a - {x}, b - {x});
    }
  }

  // ---------------------------------------------------------------- joins and leaves

  lemma JoinKeepsIpTable<U>(users: map<U, User>, ips: map<IpBytes, IpData>, u: U, user: User)
    requires IpTableExact(users, ips) && u !in users
    ensures IpTableExact(users[u := user], Acquire(ips, user.ip))
  {
    var users', ips' := users[u := user], Acquire(ips, user.ip);
    forall a
      ensures IpEntryExact(users', ips', a)
    {
      assert IpEntryExact(users, ips, a);
      UsersAtAfterJoin(users, u, user, a);
    }
  }

  lemma AddUserKeepsInv<U>(r: Room<U>, u: U, ip: IpBytes, registered: bool, admin: bool)
    requires Inv(r) && u !in r.users
    ensures Inv(AddUser(r, u, ip, registered, admin))
    ensures TallyExact(r) ==> TallyExact(AddUser(r, u, ip, registered, admin))
  {
    var user := User(ip, registered, admin, NO_VOTE);
    var r' := AddUser(r, u, ip, registered, admin);
    JoinKeepsIpTable(r.users, r.ips, u, user);
    VotersAfterJoin(r.users, u, user, Yes);
    VotersAfterJoin(r.users, u, user, No);
  }

  lemma PresentIpIsListed<U>(users: map<U, User>, ips: map<IpBytes, IpData>, u: U)
    requires IpTableExact(users, ips) && u in users
    ensures users[u].ip in ips
  {
    assert u in UsersAt(users, users[u].ip);
    assert IpEntryExact(users, ips, users[u].ip);
  }

  lemma LeaveKeepsIpTable<U>(users: map<U, User>, ips: map<IpBytes, IpData>, u: U)
    requires IpTableExact(users, ips) && u in users
    ensures IpTableExact(users - {u}, Release(ips, users[u].ip))
  {
    PresentIpIsListed(users, ips, u);
    forall a
      ensures IpEntryExact(users - {u}, Release(ips, users[u].ip), a)
    {
      assert IpEntryExact(users, ips, a);
      UsersAtAfterLeave(users, u, a);
    }
  }

  lemma LeaveKeepsVoters<U>(users: map<U, User>, ips: map<IpBytes, IpData>, u: U)
    requires IpTableExact(users, ips) && OneVoterPerIp(users, ips) && u in users
    ensures OneVoterPerIp(users - {u}, Release(ips, users[u].ip))
  {
    LeaveKeepsIpTable(users, ips, u);
    var users', ips' := users - {u}, Release(ips, users[u].ip);
    forall v | v in users' && Decided(users'[v])
      ensures users'[v].ip in ips' && ips'[users'[v].ip].voted
    {
      PresentIpIsListed(users', ips', v);
    }
  }

  lemma RemoveUserKeepsInv<U>(r: Room<U>, u: U)
    requires Inv(r) && u in r.users
    ensures Inv(RemoveUser(r, u))
  {
    LeaveKeepsIpTable(r.users, r.ips, u);
    LeaveKeepsVoters(r.users, r.ips, u);
    TurnQueue.RemoveKeepsInv(r.turns, u);
  }

  /** Leaving takes back exactly the vote of the user who leaves. */
  lemma RemoveUserKeepsTally<U>(r: Room<U>, u: U)
    requires Inv(r) && TallyExact(r) && u in r.users
    ensures TallyExact(RemoveUser(r, u))
  {
    VotersAfterLeave(r.users, u, Yes);
    VotersAfterLeave(r.users, u, No);
    WrapSteps(|Voters(r.users, Yes)|);
    WrapSteps(|Voters(r.users, No)|);
    if r.phase == Voting {
      var r' := RemoveUser(r, u);
      assert r'.users == r.users - {u};
      assert Counted(r'.users, r'.yes, r'.no);
    } else {
      LeaveKeepsIpTable(r.users, r.ips, u);
    }
  }

  /** No counter is taken below zero: whoever takes a vote back is one of the users it counts. */
  lemma NoCounterUnderflows<U>(r: Room<U>, u: U)
    requires TallyExact(r) && u in r.users && |r.users| < UINT32
    ensures r.users[u].vote.last == Yes ==> RemoveUser(r, u).yes == r.yes - 1
    ensures r.users[u].vote.last == No ==> RemoveUser(r, u).no == r.no - 1
  {
    var d := r.users[u].vote.last;
    if d != Undecided {
      assert r.phase == Voting;
      assert u in Voters(r.users, d);
      SubsetIsSmaller(Voters(r.users, d), r.users.Keys);
    }
  }

  // ---------------------------------------------------------------- votes

  /** What a vote does to one user and one address. */
  ghost predicate Recorded<U>(r: Room<U>, r': Room<U>, u: U, vote: VoteData) {
    && u in r.users && r.users[u].ip in r.ips && !r.ips[r.users[u].ip].voted
    && r'.users == r.users[u := r.users[u].(vote := vote)]
    && r'.ips == if vote.last == Undecided then r.ips
                 else r.ips[r.users[u].ip := r.ips[r.users[u].ip].(voted := true)]
  }

  lemma VotingKeepsIpTable<U>(users: map<U, User>, ips: map<IpBytes, IpData>, u: U, vote: VoteData)
    requires IpTableExact(users, ips) && u in users
    ensures IpTableExact(users[u := users[u].(vote := vote)], ips)
  {
    var users' := users[u := users[u].(vote := vote)];
    forall a
      ensures IpEntryExact(users', ips, a)
    {
      assert IpEntryExact(users, ips, a);
      assert UsersAt(users', a) == UsersAt(users, a);
    }
  }

  lemma FlaggingKeepsIpTable<U>(users: map<U, User>, ips: map<IpBytes, IpData>, a: IpBytes)
    requires IpTableExact(users, ips) && a in ips
    ensures IpTableExact(users, ips[a := ips[a].(voted := true)])
  {
    var ips' := ips[a := ips[a].(voted := true)];
    forall b
      ensures IpEntryExact(users, ips', b)
    {
      assert IpEntryExact(users, ips, b);
    }
  }

  lemma RecordedKeepsInv<U>(r: Room<U>, r': Room<U>, u: U, vote: VoteData)
    requires Inv(r) && Recorded(r, r', u, vote)
    ensures IpTableExact(r'.users, r'.ips) && OneVoterPerIp(r'.users, r'.ips)
  {
    VotingKeepsIpTable(r.users, r.ips, u, vote);
    FlaggingKeepsIpTable(r'.users, r.ips, r.users[u].ip);
  }

  lemma VoteIsRecorded<U>(r: Room<U>, u: U, votedYes: bool) returns (vote: VoteData)
    requires Inv(r) && Vote(r, u, votedYes) != r
    ensures Recorded(r, Vote(r, u, votedYes), u, vote)
    ensures vote == AddVote(r, r.users[u].vote, votedYes).1
    ensures vote.last == if AddVote(r, r.users[u].vote, votedYes).2 then (if votedYes then Yes else No) else Undecided
  {
    vote := AddVote(r, r.users[u].vote, votedYes).1;
  }

  lemma VoteKeepsInv<U>(r: Room<U>, u: U, votedYes: bool)
    requires Inv(r)
    ensures Inv(Vote(r, u, votedYes))
  {
    if Vote(r, u, votedYes) != r {
      var vote := VoteIsRecorded(r, u, votedYes);
      RecordedKeepsInv(r, Vote(r, u, votedYes), u, vote);
    }
  }

  lemma NobodyDecided<U>(users: map<U, User>, d: Decision)
    requires d != Undecided && forall u :: u in users ==> !Decided(users[u])
    ensures Voters(users, d) == {}
  {
  }

  lemma VoteKeepsTally<U>(r: Room<U>, u: U, votedYes: bool)
    requires Inv(r) && TallyExact(r)
    ensures TallyExact(Vote(r, u, votedYes))
  {
    var r' := Vote(r, u, votedYes);
    if r' != r {
      var vote := VoteIsRecorded(r, u, votedYes);
      VotersAfterVote(r.users, u, vote, Yes);
      VotersAfterVote(r.users, u, vote, No);
      if r.phase == Voting {
        WrapSteps(|Voters(r.users, Yes)|);
        WrapSteps(|Voters(r.users, No)|);
        assert Counted(r'.users, r'.yes, r'.no);
      } else {
        NobodyDecided(r.users, Yes);
        NobodyDecided(r.users, No);
      }
    }
  }

  // ---------------------------------------------------------------- the end of a vote

  /** That clearing by way of the users misses no flag rests on every listed address having a user. */
  lemma ClearingKeepsIpTable<U>(users: map<U, User>, ips: map<IpBytes, IpData>)
    requires IpTableExact(users, ips)
    ensures IpTableExact(ClearedUsers(users), ClearedIps(ips, users))
    ensures forall a :: a in ips ==> UsersAt(users, a) != {} && ClearedIps(ips, users)[a] == ips[a].(voted := false)
  {
    var users', ips' := ClearedUsers(users), ClearedIps(ips, users);
    forall a
      ensures IpEntryExact(users', ips', a)
      ensures a in ips ==> UsersAt(users, a) != {}
    {
      assert IpEntryExact(users, ips, a);
      assert UsersAt(users', a) == UsersAt(users, a);
    }
  }

  /** An announced end clears every decision and every flag. */
  lemma OnVoteEndClears<U>(r: Room<U>, passed: bool)
    requires IpTableExact(r.users, r.ips) && r.active && r.settings.votesEnabled
    ensures NobodyVoted(OnVoteEnd(r, passed))
    ensures IpTableExact(OnVoteEnd(r, passed).users, OnVoteEnd(r, passed).ips)
  {
    ClearingKeepsIpTable(r.users, r.ips);
  }

  lemma DeliverVoteKeepsInv<U>(r: Room<U>, i: nat)
    requires Inv(r) && i < |r.voteTimer.completions|
    ensures Inv(DeliverVote(r, i))
  {
    var handler := r.voteTimer.completions[i].handler;
    assert r.phase != Idle && r.voteTimer.Take(i).waits == [] && r.voteTimer.Take(i).completions == [];
    if handler == VoteOver && r.active && r.settings.votesEnabled {
      OnVoteEndClears(r, true);
      OnVoteEndClears(r, false);
    }
  }

  /** A vote leaves nothing behind exactly when it ends while the machine is active with votes enabled, or no user present
      holds vote data and no address present is flagged. */
  lemma VoteEndKeepsTallyIff<U>(r: Room<U>, i: nat)
    requires Inv(r) && TallyExact(r) && r.phase == Voting && i < |r.voteTimer.completions|
    ensures TallyExact(DeliverVote(r, i)) <==> (r.active && r.settings.votesEnabled) || NobodyVoted(r)
  {
    if r.active && r.settings.votesEnabled {
      OnVoteEndClears(r, true);
      OnVoteEndClears(r, false);
    }
  }

  /** A vote that was left behind takes a counter below zero once its user leaves during a later vote. */
  lemma StaleVoteUnderflows<U>(r: Room<U>, u: U, v: U)
    requires u in r.users && v in r.users && u != v && r.users[u].vote.last == Yes
    requires r.phase == Idle && r.settings.votesEnabled && (r.users[v].registered || !r.settings.disallowGuestVotes)
    requires r.users[v].ip in r.ips && !r.ips[r.users[v].ip].voted
    ensures Run(r, [EvVote(v, true), EvRemoveUser(v), EvRemoveUser(u)]).yes == UINT32 - 1
  {
    var events := [EvVote(v, true), EvRemoveUser(v), EvRemoveUser(u)];
    var r1 := Vote(r, v, true);
    var r2 := RemoveUser(r1, v);
    assert r1.yes == 1 && r1.users[v].vote.last == Yes && r2.yes == 0 && r2.users[u].vote.last == Yes;
    assert events[1..] == [EvRemoveUser(v), EvRemoveUser(u)] && events[1..][1..] == [EvRemoveUser(u)];
    assert Run(r2, [EvRemoveUser(u)]) == RemoveUser(r2, u);
    assert Run(r1, events[1..]) == Run(r2, [EvRemoveUser(u)]);
  }

  /** Such a room is reached from the start: somebody votes while the machine is inactive, and the vote is cancelled. */
  lemma StaleVoteIsReachable<U>(settings: Settings, voteLimit: int, u: U, v: U, ipU: IpBytes, ipV: IpBytes)
    requires settings.votesEnabled && u != v && ipU != ipV
    ensures var r := Run(EmptyRoom(settings, voteLimit), [EvAddUser(u, ipU, true, false), EvAddUser(v, ipV, true, false),
                                                          EvVote(u, true), EvCancelVote, EvDeliverVote(0)]);
            && u in r.users && v in r.users && r.users[u].vote.last == Yes && r.phase == Idle
            && r.settings.votesEnabled && r.users[v].registered && r.users[v].ip in r.ips && !r.ips[r.users[v].ip].voted
            && Run(r, [EvVote(v, true), EvRemoveUser(v), EvRemoveUser(u)]).yes == UINT32 - 1
  {
    var r0 := EmptyRoom<U>(settings, voteLimit);
    var r1 := AddUser(r0, u, ipU, true, false);
    var r2 := AddUser(r1, v, ipV, true, false);
    var r3 := Vote(r2, u, true);
    var r4 := StopVote(r3);
    assert r3.users[u].vote.last == Yes && r3.phase == Voting && !r3.active;
    assert r4.voteTimer.completions[0] == Completion(VoteOver, true);
    var r5 := DeliverVote(r4, 0);
    FiveSteps(r0, EvAddUser(u, ipU, true, false), EvAddUser(v, ipV, true, false), EvVote(u, true), EvCancelVote,
              EvDeliverVote(0));
    StaleVoteUnderflows(r5, u, v);
  }

  lemma FiveSteps<U>(r: Room<U>, a: Event<U>, b: Event<U>, c: Event<U>, d: Event<U>, e: Event<U>)
    ensures Run(r, [a, b, c, d, e]) == Step(Step(Step(Step(Step(r, a), b), c), d), e)
  {
    FirstStep(r, a, [b, c, d, e]);
    FirstStep(Step(r, a), b, [c, d, e]);
    var s := Step(Step(r, a), b);
    FirstStep(s, c, [d, e]);
    FirstStep(Step(s, c), d, [e]);
    FirstStep(Step(Step(s, c), d), e, []);
    assert [a] + [b, c, d, e] == [a, b, c, d, e] && [b] + [c, d, e] == [b, c, d, e] && [c] + [d, e] == [c, d, e];
    assert [d] + [e] == [d, e] && [e] + [] == [e];
  }

  lemma FirstStep<U>(r: Room<U>, e: Event<U>, rest: seq<Event<U>>)
    ensures Run(r, [e] + rest) == Run(Step(r, e), rest)
  {
    assert ([e] + rest)[1..] == rest;
  }

  /** The announced result is the majority of the users present. */
  lemma ResultIsMajority<U>(r: Room<U>, i: nat)
    requires Inv(r) && TallyExact(r) && r.phase == Voting && i < |r.voteTimer.completions|
    requires |r.users| < UINT32 && r.active && r.settings.votesEnabled
    ensures DeliverVote(r, i).results == r.results +
            [!r.voteTimer.completions[i].aborted && |Voters(r.users, Yes)| >= |Voters(r.users, No)|]
  {
    SubsetIsSmaller(Voters(r.users, Yes), r.users.Keys);
    SubsetIsSmaller(Voters(r.users, No), r.users.Keys);
  }

  // ---------------------------------------------------------------- every run

  /** Only users who are not in the channel join it. */
  ghost predicate FreshJoin<U>(r: Room<U>, e: Event<U>) {
    e.EvAddUser? ==> e.u !in r.users
  }

  /** If the step runs the completion that ends a vote, the machine is active with votes enabled. */
  ghost predicate EndsAnnounced<U>(r: Room<U>, e: Event<U>) {
    e.EvDeliverVote? && e.index < |r.voteTimer.completions| && r.phase == Voting ==>
      r.active && r.settings.votesEnabled
  }

  lemma TurnStepKeepsAllowed<U>(r: Room<U>, e: TurnQueue.Event<U>)
    requires TurnsAllowed(r) && (r.settings.turnsEnabled || !e.EvRequest?)
    ensures TurnsAllowed(r.(turns := TurnQueue.Step(r.turns, e)))
  {
    TurnQueue.StepKeepsInv(r.turns, e);
  }

  lemma TurnEventKeepsInv<U>(r: Room<U>, e: Event<U>)
    requires Inv(r)
    requires e.EvRequestTurn? || e.EvPauseTurn? || e.EvResumeTurn? || e.EvEndTurn? || e.EvTick? || e.EvFireTurn?
             || e.EvDeliverTurn?
    ensures Inv(Step(r, e))
  {
    match e
    case EvRequestTurn(u) => if r.settings.turnsEnabled { TurnStepKeepsAllowed(r, TurnQueue.EvRequest(u)); }
    case EvPauseTurn => TurnStepKeepsAllowed(r, TurnQueue.EvPause);
    case EvResumeTurn => TurnStepKeepsAllowed(r, TurnQueue.EvResume);
    case EvEndTurn(u) => TurnStepKeepsAllowed(r, TurnQueue.EvEndCurrent);
    case EvTick => TurnStepKeepsAllowed(r, TurnQueue.EvTick);
    case EvFireTurn => TurnStepKeepsAllowed(r, TurnQueue.EvFire);
    case EvDeliverTurn(i) => TurnStepKeepsAllowed(r, TurnQueue.EvDeliver(i));
  }

  lemma TimerKeepsWait(t: Timer<Wait>, w: Wait, now: int)
    ensures OnlyWait(t, w) ==> OnlyWait(t.Cancel(), w) && OnlyWait(t.Fire(now), w)
    ensures t.waits == [] && t.completions == [] ==> t.Cancel() == t && t.Fire(now) == t
  {
  }

  lemma VoteTimerEventKeepsInv<U>(r: Room<U>, e: Event<U>)
    requires Inv(r) && (e.EvCancelVote? || e.EvFireVote?)
    ensures Inv(Step(r, e))
  {
    TimerKeepsWait(r.voteTimer, VoteOver, r.turns.now);
    TimerKeepsWait(r.voteTimer, CooldownOver, r.turns.now);
  }

  lemma ApplySettingsKeepsInv<U>(r: Room<U>, settings: Settings)
    requires Inv(r)
    ensures Inv(ApplySettings(r, settings))
  {
    TimerKeepsWait(r.voteTimer, VoteOver, r.turns.now);
    TimerKeepsWait(r.voteTimer, CooldownOver, r.turns.now);
    assert TurnsAllowed(ApplySettings(r, settings));
  }

  lemma StepKeepsInv<U>(r: Room<U>, e: Event<U>)
    requires Inv(r) && FreshJoin(r, e)
    ensures Inv(Step(r, e))
  {
    match e
    case EvAddUser(u, ip, registered, admin) => AddUserKeepsInv(r, u, ip, registered, admin);
    case EvRemoveUser(u) => if u in r.users { RemoveUserKeepsInv(r, u); }
    case EvVote(u, votedYes) => VoteKeepsInv(r, u, votedYes);
    case EvDeliverVote(i) => if i < |r.voteTimer.completions| { DeliverVoteKeepsInv(r, i); }
    case EvApplySettings(settings) => ApplySettingsKeepsInv(r, settings);
    case EvSetActive(active) =>
    case _ =>
      if e.EvCancelVote? || e.EvFireVote? {
        VoteTimerEventKeepsInv(r, e);
      } else {
        TurnEventKeepsInv(r, e);
      }
  }

  lemma StepKeepsTally<U>(r: Room<U>, e: Event<U>)
    requires Inv(r) && TallyExact(r) && FreshJoin(r, e) && EndsAnnounced(r, e)
    ensures TallyExact(Step(r, e))
  {
    match e
    case EvAddUser(u, ip, registered, admin) => AddUserKeepsInv(r, u, ip, registered, admin);
    case EvRemoveUser(u) => if u in r.users { RemoveUserKeepsTally(r, u); }
    case EvVote(u, votedYes) => VoteKeepsTally(r, u, votedYes);
    case EvDeliverVote(i) =>
      if i < |r.voteTimer.completions| && r.phase == Voting { VoteEndKeepsTallyIff(r, i); }
    case _ =>
  }

  ghost predicate FreshJoins<U>(r: Room<U>, events: seq<Event<U>>)
    decreases |events|
  {
    events != [] ==> FreshJoin(r, events[0]) && FreshJoins(Step(r, events[0]), events[1..])
  }

  ghost predicate AllEndsAnnounced<U>(r: Room<U>, events: seq<Event<U>>)
    decreases |events|
  {
    events != [] ==> EndsAnnounced(r, events[0]) && AllEndsAnnounced(Step(r, events[0]), events[1..])
  }

  /** In every run, however votes end: one voter per address, exact reference counts, a timed vote, and an empty turn
      queue whenever turns are disabled. */
  lemma {:induction false} RunKeepsInv<U>(r: Room<U>, events: seq<Event<U>>)
    requires Inv(r) && FreshJoins(r, events)
    ensures Inv(Run(r, events))
    decreases |events|
  {
    if events != [] {
      StepKeepsInv(r, events[0]);
      RunKeepsInv(Step(r, events[0]), events[1..]);
    }
  }

  /** In every run whose votes all end announced, the tallies are exact after every step. */
  lemma {:induction false} RunKeepsTally<U>(r: Room<U>, events: seq<Event<U>>)
    requires Inv(r) && TallyExact(r) && FreshJoins(r, events) && AllEndsAnnounced(r, events)
    ensures TallyExact(Run(r, events))
    decreases |events|
  {
    if events != [] {
      StepKeepsInv(r, events[0]);
      StepKeepsTally(r, events[0]);
      RunKeepsTally(Step(r, events[0]), events[1..]);
    }
  }

  /** In every run, a vote that has any effect comes from an address at which nobody has decided.  So a decision is never
      changed, and the branch that would take back an earlier one is never reached. */
  lemma VotesAreNeverChanged<U>(r: Room<U>, events: seq<Event<U>>, u: U, votedYes: bool)
    requires Inv(r) && FreshJoins(r, events)
    requires Vote(Run(r, events), u, votedYes) != Run(r, events)
    ensures u in Run(r, events).users
    ensures forall v :: v in Run(r, events).users && Run(r, events).users[v].ip == Run(r, events).users[u].ip ==>
              !Decided(Run(r, events).users[v])
  {
    RunKeepsInv(r, events);
  }

  /** The room a machine starts with meets the invariants. */
  lemma EmptyRoomIsExact<U>(settings: Settings, voteLimit: int)
    ensures Inv(EmptyRoom<U>(settings, voteLimit)) && TallyExact(EmptyRoom<U>(settings, voteLimit))
  {
    var r := EmptyRoom<U>(settings, voteLimit);
    forall a
      ensures IpEntryExact(r.users, r.ips, a)
    {
      assert UsersAt(r.users, a) == {};
    }
  }

  // ---------------------------------------------------------------- one vote per address

  lemma {:induction false} FewerThanIps<U>(voters: set<U>, users: map<U, User>, ips: set<IpBytes>)
    requires voters <= users.Keys
    requires forall u :: u in voters ==> users[u].ip in ips
    requires forall u, v :: u in voters && v in voters && u != v ==> users[u].ip != users[v].ip
    ensures |voters| <= |ips|
  {
    if voters != {} {
      var u :| u in voters;
      FewerThanIps(voters - {u}, users, ips - {users[u].ip});
    }
  }

  lemma WrapIsSmaller(n: nat)
    ensures Wrap(n) <= n
  {
  }

  /** While a vote runs, no more votes are counted than there are addresses in the channel. */
  lemma VotesAtMostIps<U>(r: Room<U>)
    requires Inv(r) && TallyExact(r) && r.phase == Voting
    ensures r.yes + r.no <= |r.ips|
  {
    var ayes, noes := Voters(r.users, Yes), Voters(r.users, No);
    forall u | u in ayes + noes
      ensures r.users[u].ip in r.ips.Keys && Decided(r.users[u])
    {
    }
    FewerThanIps(ayes + noes, r.users, r.ips.Keys);
    assert |ayes + noes| == |ayes| + |noes|;
    WrapIsSmaller(|ayes|);
    WrapIsSmaller(|noes|);
  }
}
