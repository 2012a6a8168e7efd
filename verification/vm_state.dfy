/** The machine state as it is: its channel and its vote, with the handlers that update them in place.  Each handler is
    proved to take the step VmRooms gives it.  The turn queue appears as its value; TurnControllers has its code. */
module VmStates {
  import opened Options
  import opened SteadyTimers
  import opened VmRooms
  import opened TurnControllers
  import opened UserChannels
  import TurnQueue
  import VoteTally

  predicate IsTurnEvent(e: Event<Client>) {
    e.EvRequestTurn? || e.EvPauseTurn? || e.EvResumeTurn? || e.EvEndTurn? || e.EvTick? || e.EvFireTurn? || e.EvDeliverTurn?
  }

  /** What an event means for the turn queue. */
  function TurnEvent(e: Event<Client>): TurnQueue.Event<Client>
    requires IsTurnEvent(e)
  {
    match e
    case EvRequestTurn(u) => TurnQueue.EvRequest(u)
    case EvPauseTurn => TurnQueue.EvPause
    case EvResumeTurn => TurnQueue.EvResume
    case EvEndTurn(u) => TurnQueue.EvEndCurrent
    case EvTick => TurnQueue.EvTick
    case EvFireTurn => TurnQueue.EvFire
    case EvDeliverTurn(i) => TurnQueue.EvDeliver(i)
  }

  class VmState {
    const channel: UserChannel
    const voteLimit: int
    var phase: Phase
    var yesVoteCount: nat
    var noVoteCount: nat
    var voteTimer: Timer<Wait>
    var turns: TurnQueue.State<Client>
    var settings: Settings
    var active: bool
    ghost var results: seq<bool>                 // the vote results announced so far

    ghost function Room(): Room<Client>
      reads this, channel
    {
      VmRooms.Room(channel.userValues, channel.ipValues, phase, yesVoteCount, noVoteCount, voteTimer, turns,
                   settings, active, voteLimit, results)
    }

    ghost predicate Valid()
      reads this, channel, channel.members, channel.records
    {
      channel.Valid()
    }

    constructor (settings: Settings, voteLimit: int)
      ensures Valid() && Room() == EmptyRoom(settings, voteLimit)
    {
      channel := new UserChannel();
      this.settings, this.voteLimit := settings, voteLimit;
      phase, yesVoteCount, noVoteCount := Idle, 0, 0;
      voteTimer, active, results := Timer(0, [], []), false, [];
      turns := TurnQueue.State([], settings.turnTime, None, Timer(0, [], []), 0);
    }

    // -------------------------------------------------------------- the channel

    /** The channel has met nobody but new objects. */
    twostate predicate OnlyNewObjects()
      reads channel
    {
      fresh(channel.members - old(channel.members)) && fresh(channel.records - old(channel.records))
    }

    method AddUser(user: Client, ip: IpBytes, registered: bool, admin: bool)
      requires Valid() && user !in channel.users
      modifies channel, channel.records
      ensures Valid() && Room() == VmRooms.AddUser(old(Room()), user, ip, registered, admin)
      ensures OnlyNewObjects()
    {
      channel.AddUser(user, ip, registered, admin);
    }

    method RemoveUser(user: Client)
      requires Valid()
      modifies this`turns, this`yesVoteCount, this`noVoteCount, channel
      modifies if user in channel.users then {channel.users[user]} else {}
      modifies if user in channel.users then {channel.users[user].ipData} else {}
      ensures Valid() && Room() == VmRooms.RemoveUser(old(Room()), user)
      ensures channel.members == old(channel.members) && channel.records == old(channel.records)
    {
      if user in channel.users {
        channel.ReleaseIp(user);
        turns := TurnQueue.Remove(turns, user);
        LeaveVote(user, channel.users[user]);
        channel.Erase(user);
      }
    }

    // -------------------------------------------------------------- votes

    /** The user who leaves takes back its vote. */
    method LeaveVote(user: Client, userData: ChannelUser)
      requires channel.ValidBut(user) && channel.users[user] == userData && userData.Value() == channel.userValues[user]
      modifies this`yesVoteCount, this`noVoteCount, userData`vote
      ensures channel.ValidBut(user) && userData.vote.last == Undecided
      ensures Room() == VmRooms.RemoveVote(old(Room()), channel.userValues[user].vote)
    {
      assert userData.vote == channel.userValues[user].vote;
      var _ := RemoveVote(userData);
    }

    method RemoveVote(userData: ChannelUser) returns (changed: bool)
      modifies this`yesVoteCount, this`noVoteCount, userData`vote
      ensures Room() == VmRooms.RemoveVote(old(Room()), old(userData.vote))
      ensures userData.vote == old(userData.vote).(last := Undecided)
      ensures changed == (old(userData.vote.last) != Undecided)
    {
      if userData.vote.last == Undecided {
        return false;
      }
      if userData.vote.last == Yes {
        yesVoteCount := Wrap(yesVoteCount - 1);
      } else {
        noVoteCount := Wrap(noVoteCount - 1);
      }
      userData.vote := userData.vote.(last := Undecided);
      return true;
    }

    method AddVote(userData: ChannelUser, votedYes: bool) returns (counted: bool)
      requires userData in channel.members
      modifies this, userData`vote
      ensures unchanged(this`turns, this`settings, this`active, this`results)
      ensures Room() == VmRooms.AddVote(old(Room()), old(userData.vote), votedYes).0
      ensures userData.vote == VmRooms.AddVote(old(Room()), old(userData.vote), votedYes).1
      ensures counted == VmRooms.AddVote(old(Room()), old(userData.vote), votedYes).2
    {
      if !settings.votesEnabled {
        return false;
      }
      match phase {
        case Idle =>
          if !votedYes {
            return false;
          }
          phase := Voting;
          userData.vote := userData.vote.(last := Yes);
          yesVoteCount, noVoteCount := 1, 0;
          voteTimer := voteTimer.ExpiresAfter(turns.now, settings.voteTime);
          voteTimer := voteTimer.AsyncWait(VoteOver);
          return true;
        case Voting =>
          if !userData.vote.limited {
            userData.vote := userData.vote.(amount := userData.vote.amount + 1);
          }
          if userData.vote.limited || userData.vote.amount >= voteLimit {
            userData.vote := userData.vote.(limited := true);
            return false;
          }
          var previous := userData.vote.last;
          var decision := if votedYes then Yes else No;
          if previous == decision {
            return false;
          }
          if votedYes {
            yesVoteCount := Wrap(yesVoteCount + 1);
          } else {
            noVoteCount := Wrap(noVoteCount + 1);
          }
          if previous != Undecided {
            if votedYes {
              noVoteCount := Wrap(noVoteCount - 1);
            } else {
              yesVoteCount := Wrap(yesVoteCount - 1);
            }
          }
          userData.vote := userData.vote.(last := decision);
          return true;
        case CoolingDown =>
          return false;
      }
    }

    method Vote(user: Client, votedYes: bool)
      requires Valid()
      modifies this, channel`userValues, channel`ipValues
      modifies if user in channel.users then {channel.users[user]} else {}
      modifies if user in channel.users then {channel.users[user].ipData} else {}
      ensures Valid() && Room() == VmRooms.Vote(old(Room()), user, votedYes)
    {
      if user !in channel.users {
        return;
      }
      var userData := channel.users[user];
      assert userData.Value() == channel.userValues[user];
      if settings.disallowGuestVotes && !userData.registered {
        return;
      }
      if userData.ipData.voted {
        return;
      }
      CountVote(user, userData, votedYes);
    }

    method CountVote(user: Client, userData: ChannelUser, votedYes: bool)
      requires Valid() && user in channel.users && channel.users[user] == userData
      modifies this, channel`userValues, channel`ipValues, userData, userData.ipData
      ensures Valid() && Room() == VmRooms.CountVote(old(Room()), user, votedYes)
    {
      assert userData.Value() == channel.userValues[user];
      var counted := AddVote(userData, votedYes);
      channel.NoteVote(user);
      if counted {
        channel.FlagIp(user);
      }
    }

    method StopVote()
      requires Valid()
      modifies this`voteTimer
      ensures Valid() && Room() == VmRooms.StopVote(old(Room()))
    {
      voteTimer := voteTimer.Cancel();
    }

    method OnVoteEnd(votePassed: bool)
      requires Valid()
      modifies this`results, channel`userValues, channel`ipValues, channel.members, channel.records
      ensures Valid() && Room() == VmRooms.OnVoteEnd(old(Room()), votePassed)
    {
      if !active || !settings.votesEnabled {
        return;
      }
      channel.ClearVotes();
      results := results + [votePassed];
    }

    /** The handler of the wait that ends a vote. */
    method OnVoteOver(aborted: bool)
      requires Valid()
      modifies this, channel`userValues, channel`ipValues, channel.members, channel.records
      ensures Valid() && Room() == VmRooms.OnVoteOver(old(Room()), aborted)
    {
      if aborted || !settings.votesEnabled {
        phase := Idle;
        OnVoteEnd(false);
        return;
      }
      if settings.cooldownTime != 0 {
        phase := CoolingDown;
        voteTimer := voteTimer.ExpiresAfter(turns.now, settings.cooldownTime);
        voteTimer := voteTimer.AsyncWait(CooldownOver);
      } else {
        phase := Idle;
      }
      OnVoteEnd(yesVoteCount >= noVoteCount);
    }

    method RunCompletion(i: nat)
      requires Valid() && i < |voteTimer.completions|
      modifies this, channel`userValues, channel`ipValues, channel.members, channel.records
      ensures Valid() && Room() == VmRooms.DeliverVote(old(Room()), i)
    {
      var completion := voteTimer.completions[i];
      voteTimer := voteTimer.Take(i);
      match completion.handler {
        case VoteOver => OnVoteOver(completion.aborted);
        case CooldownOver => phase := Idle;
      }
    }

    method ApplySettings(newSettings: Settings)
      requires Valid()
      modifies this
      ensures Valid() && Room() == VmRooms.ApplySettings(old(Room()), newSettings)
    {
      var previous := settings;
      settings := newSettings;
      turns := turns.(turnTime := settings.turnTime);
      if !settings.turnsEnabled && previous.turnsEnabled {
        turns := TurnQueue.Clear(turns);
      }
      if settings.votesEnabled != previous.votesEnabled {
        if !settings.votesEnabled {
          StopVote();
        }
      }
    }

    // -------------------------------------------------------------- whole runs

    /** What happens to the turn queue; its code is in TurnControllers. */
    method StepTurns(e: Event<Client>)
      requires Valid() && IsTurnEvent(e)
      modifies this`turns
      ensures Valid() && Room() == VmRooms.Step(old(Room()), e)
    {
      if e.EvEndTurn? {
        EndCurrentTurn(e.u);
      } else if settings.turnsEnabled || e.EvTick? || e.EvFireTurn? || e.EvDeliverTurn? {
        turns := TurnQueue.Step(turns, TurnEvent(e));
      }
    }

    /** The user whose turn it is, and every administrator in the channel, may end the turn. */
    method EndCurrentTurn(user: Client)
      requires Valid()
      modifies this`turns
      ensures Valid() && Room() == VmRooms.EndTurn(old(Room()), user)
    {
      var hasTurn := turns.queue != [] && turns.queue[0] == user;
      if user in channel.users {
        assert channel.users[user].Value() == channel.userValues[user];
      }
      if settings.turnsEnabled && (hasTurn || (user in channel.users && channel.users[user].admin)) {
        turns := TurnQueue.EndCurrent(turns);
      }
    }

    method FireVoteTimer()
      requires Valid()
      modifies this`voteTimer
      ensures Valid() && Room() == VmRooms.Step(old(Room()), EvFireVote)
    {
      voteTimer := voteTimer.Fire(turns.now);
    }

    method SetActive(nowActive: bool)
      requires Valid()
      modifies this`active
      ensures Valid() && Room() == VmRooms.Step(old(Room()), EvSetActive(nowActive))
    {
      active := nowActive;
    }

    /** Events that concern the users of the channel. */
    method HandleUsers(e: Event<Client>)
      requires e.EvAddUser? || e.EvRemoveUser? || e.EvVote? || e.EvDeliverVote?
      requires Valid() && VoteTally.FreshJoin(Room(), e)
      modifies this, channel, channel.members, channel.records
      ensures Valid() && Room() == VmRooms.Step(old(Room()), e) && OnlyNewObjects()
    {
      match e {
        case EvAddUser(u, ip, registered, admin) => AddUser(u, ip, registered, admin);
        case EvRemoveUser(u) => RemoveUser(u);
        case EvVote(u, votedYes) => Vote(u, votedYes);
        case EvDeliverVote(i) => if i < |voteTimer.completions| { RunCompletion(i); }
      }
    }

    /** All other events. */
    method HandleOthers(e: Event<Client>)
      requires !(e.EvAddUser? || e.EvRemoveUser? || e.EvVote? || e.EvDeliverVote?)
      requires Valid()
      modifies this
      ensures Valid() && Room() == VmRooms.Step(old(Room()), e)
    {
      if e.EvCancelVote? {
        StopVote();
      } else if e.EvApplySettings? {
        ApplySettings(e.settings);
      } else if e.EvSetActive? {
        SetActive(e.active);
      } else if e.EvFireVote? {
        FireVoteTimer();
      } else {
        StepTurns(e);
      }
    }

    method Handle(e: Event<Client>)
      requires Valid() && VoteTally.FreshJoin(Room(), e)
      modifies this, channel, channel.members, channel.records
      ensures Valid() && Room() == VmRooms.Step(old(Room()), e) && OnlyNewObjects()
    {
      if e.EvAddUser? || e.EvRemoveUser? || e.EvVote? || e.EvDeliverVote? {
        HandleUsers(e);
      } else {
        HandleOthers(e);
      }
    }

    /** Any interleaving of calls, ticks, expiries and deliveries in which only absent users join: the objects take the
        steps of the room, so that what holds of its runs holds of them. */
    method Run(events: seq<Event<Client>>)
      requires Valid() && VoteTally.FreshJoins(Room(), events)
      modifies this, channel, channel.members, channel.records
      ensures Valid() && Room() == VmRooms.Run(old(Room()), events)
      ensures VoteTally.Inv(old(Room())) ==> VoteTally.Inv(Room())
      ensures old(VoteTally.Inv(Room()) && VoteTally.TallyExact(Room()) && VoteTally.AllEndsAnnounced(Room(), events)) ==>
                VoteTally.TallyExact(Room())
    {
      ghost var before := Room();
      var i := 0;
      assert events[0..] == events;
      while i < |events|
        invariant 0 <= i <= |events| && Valid() && OnlyNewObjects()
        invariant VoteTally.FreshJoins(Room(), events[i..])
        invariant VmRooms.Run(Room(), events[i..]) == VmRooms.Run(before, events)
      {
        assert events[i..][0] == events[i] && events[i..][1..] == events[i + 1..];
        Handle(events[i]);
        i := i + 1;
      }
      if VoteTally.Inv(before) {
        VoteTally.RunKeepsInv(before, events);
        if VoteTally.TallyExact(before) && VoteTally.AllEndsAnnounced(before, events) {
          VoteTally.RunKeepsTally(before, events);
        }
      }
    }
  }
}
