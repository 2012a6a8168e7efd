/** The state of one virtual machine that its users share: who is in the channel, which addresses they come from, the
    vote to restart the machine, and the turn queue.  Handlers run one at a time on the strand of the machine, so each is
    one step. */
module VmRooms {
  import opened Options
  import opened SteadyTimers
  import TurnQueue

  type IpBytes = nat                // the sixteen bytes of an address, read as one number

  datatype Decision = Undecided | Yes | No

  datatype VoteData = VoteData(last: Decision, amount: nat, limited: bool)

  const NO_VOTE := VoteData(Undecided, 0, false)

  datatype User = User(ip: IpBytes, registered: bool, admin: bool, vote: VoteData)

  datatype IpData = IpData(voted: bool, references: int)

  datatype Phase = Idle | Voting | CoolingDown

  datatype Wait = VoteOver | CooldownOver

  datatype Settings = Settings(
    turnsEnabled: bool, turnTime: nat,
    votesEnabled: bool, voteTime: nat, cooldownTime: nat, disallowGuestVotes: bool)

  datatype Room<U> = Room(
    users: map<U, User>, ips: map<IpBytes, IpData>,
    phase: Phase, yes: nat, no: nat, voteTimer: Timer<Wait>,
    turns: TurnQueue.State<U>,
    settings: Settings, active: bool,
    voteLimit: int,                 // votes one user may attempt in one round
    results: seq<bool>)             // the vote results announced so far

  function EmptyRoom<U>(settings: Settings, voteLimit: int): Room<U> {
    Room(map[], map[], Idle, 0, 0, Timer(0, [], []),
         TurnQueue.State([], settings.turnTime, None, Timer(0, [], []), 0), settings, false, voteLimit, [])
  }

  const UINT32 := 0x1_0000_0000

  function Wrap(n: int): nat {
    n % UINT32
  }

  // ---------------------------------------------------------------- votes

  function AddVote<U>(r: Room<U>, data: VoteData, votedYes: bool): (Room<U>, VoteData, bool) {
    if !r.settings.votesEnabled then (r, data, false)
    else match r.phase
      case Idle =>
        if !votedYes then (r, data, false)
        else
          var timer := r.voteTimer.ExpiresAfter(r.turns.now, r.settings.voteTime).AsyncWait(VoteOver);
          (r.(phase := Voting, yes := 1, no := 0, voteTimer := timer), data.(last := Yes), true)
      case Voting =>
        var amount := if data.limited then data.amount else data.amount + 1;
        var decision := if votedYes then Yes else No;
        if data.limited || amount >= r.voteLimit then (r, data.(amount := amount, limited := true), false)
        else if data.last == decision then (r, data.(amount := amount), false)
        else
          var counted := if votedYes then r.(yes := Wrap(r.yes + 1)) else r.(no := Wrap(r.no + 1));
          (RemoveVote(counted, data), data.(amount := amount, last := decision), true)
      case CoolingDown => (r, data, false)
  }

  function RemoveVote<U>(r: Room<U>, data: VoteData): Room<U> {
    match data.last
    case Undecided => r
    case Yes => r.(yes := Wrap(r.yes - 1))
    case No => r.(no := Wrap(r.no - 1))
  }

  function CountVote<U(==)>(r: Room<U>, u: U, votedYes: bool): Room<U>
    requires u in r.users && r.users[u].ip in r.ips
  {
    var user := r.users[u];
    var (r', data, counted) := AddVote(r, user.vote, votedYes);
    var stored := r'.(users := r.users[u := user.(vote := data)]);
    if counted then stored.(ips := r.ips[user.ip := r.ips[user.ip].(voted := true)]) else stored
  }

  function Vote<U(==)>(r: Room<U>, u: U, votedYes: bool): Room<U> {
    if u !in r.users || r.users[u].ip !in r.ips then r
    else if r.settings.disallowGuestVotes && !r.users[u].registered then r
    else if r.ips[r.users[u].ip].voted then r
    else CountVote(r, u, votedYes)
  }

  function StopVote<U>(r: Room<U>): Room<U> {
    r.(voteTimer := r.voteTimer.Cancel())
  }

  function ClearedUsers<U>(users: map<U, User>): map<U, User> {
    map u | u in users :: users[u].(vote := NO_VOTE)
  }

  /** Flags are cleared by way of the users present. */
  function ClearedIps<U(==)>(ips: map<IpBytes, IpData>, users: map<U, User>): map<IpBytes, IpData> {
    map a | a in ips :: if UsersAt(users, a) != {} then ips[a].(voted := false) else ips[a]
  }

  function OnVoteEnd<U(==)>(r: Room<U>, passed: bool): Room<U> {
    if !r.active || !r.settings.votesEnabled then r
    else r.(users := ClearedUsers(r.users), ips := ClearedIps(r.ips, r.users), results := r.results + [passed])
  }

  function OnVoteOver<U(==)>(r: Room<U>, aborted: bool): Room<U> {
    if aborted || !r.settings.votesEnabled then OnVoteEnd(r.(phase := Idle), false)
    else if r.settings.cooldownTime != 0 then
      var timer := r.voteTimer.ExpiresAfter(r.turns.now, r.settings.cooldownTime).AsyncWait(CooldownOver);
      OnVoteEnd(r.(phase := CoolingDown, voteTimer := timer), r.yes >= r.no)
    else OnVoteEnd(r.(phase := Idle), r.yes >= r.no)
  }

  function DeliverVote<U(==)>(r: Room<U>, i: nat): Room<U>
    requires i < |r.voteTimer.completions|
  {
    var completion := r.voteTimer.completions[i];
    var taken := r.(voteTimer := r.voteTimer.Take(i));
    match completion.handler
    case VoteOver => OnVoteOver(taken, completion.aborted)
    case CooldownOver => taken.(phase := Idle)
  }

  // ---------------------------------------------------------------- the channel

  function UsersAt<U(==)>(users: map<U, User>, a: IpBytes): set<U> {
    set u | u in users && users[u].ip == a
  }

  function Acquire(ips: map<IpBytes, IpData>, a: IpBytes): map<IpBytes, IpData> {
    if a !in ips then ips[a := IpData(false, 1)]
    else ips[a := ips[a].(references := ips[a].references + 1)]
  }

  function AddUser<U(==)>(r: Room<U>, u: U, ip: IpBytes, registered: bool, admin: bool): Room<U> {
    r.(ips := Acquire(r.ips, ip),
       users := if u in r.users then r.users else r.users[u := User(ip, registered, admin, NO_VOTE)])
  }

  function Release(ips: map<IpBytes, IpData>, a: IpBytes): map<IpBytes, IpData> {
    if a !in ips then ips
    else if ips[a].references - 1 == 0 then ips - {a}
    else ips[a := ips[a].(references := ips[a].references - 1)]
  }

  function RemoveUser<U(==)>(r: Room<U>, u: U): Room<U> {
    if u !in r.users then r
    else
      var released := r.(ips := Release(r.ips, r.users[u].ip), turns := TurnQueue.Remove(r.turns, u));
      RemoveVote(released, r.users[u].vote).(users := r.users - {u})
  }

  // ---------------------------------------------------------------- settings and turns

  function ApplySettings<U>(r: Room<U>, settings: Settings): Room<U> {
    var timed := r.turns.(turnTime := settings.turnTime);
    var turns := if !settings.turnsEnabled && r.settings.turnsEnabled then TurnQueue.Clear(timed) else timed;
    var applied := r.(settings := settings, turns := turns);
    if !settings.votesEnabled && r.settings.votesEnabled then StopVote(applied) else applied
  }

  function EndTurn<U(==)>(r: Room<U>, u: U): Room<U> {
    var hasTurn := r.turns.queue != [] && r.turns.queue[0] == u;
    if r.settings.turnsEnabled && (hasTurn || (u in r.users && r.users[u].admin))
    then r.(turns := TurnQueue.EndCurrent(r.turns)) else r
  }

  datatype Event<U> =
    | EvAddUser(u: U, ip: IpBytes, registered: bool, admin: bool)
    | EvRemoveUser(u: U)
    | EvVote(u: U, votedYes: bool)
    | EvCancelVote
    | EvApplySettings(settings: Settings)
    | EvSetActive(active: bool)
    | EvRequestTurn(u: U)
    | EvPauseTurn
    | EvResumeTurn
    | EvEndTurn(u: U)
    | EvTick
    | EvFireTurn
    | EvFireVote
    | EvDeliverTurn(index: nat)
    | EvDeliverVote(index: nat)

  function Step<U(==)>(r: Room<U>, e: Event<U>): Room<U> {
    match e
    case EvAddUser(u, ip, registered, admin) => AddUser(r, u, ip, registered, admin)
    case EvRemoveUser(u) => RemoveUser(r, u)
    case EvVote(u, votedYes) => Vote(r, u, votedYes)
    case EvCancelVote => StopVote(r)
    case EvApplySettings(settings) => ApplySettings(r, settings)
    case EvSetActive(active) => r.(active := active)
    case EvRequestTurn(u) =>
      if r.settings.turnsEnabled then r.(turns := TurnQueue.Request(r.turns, u)) else r
    case EvPauseTurn => if r.settings.turnsEnabled then r.(turns := TurnQueue.Pause(r.turns)) else r
    case EvResumeTurn => if r.settings.turnsEnabled then r.(turns := TurnQueue.Resume(r.turns)) else r
    case EvEndTurn(u) => EndTurn(r, u)
    case EvTick => r.(turns := TurnQueue.Step(r.turns, TurnQueue.EvTick))
    case EvFireTurn => r.(turns := TurnQueue.Step(r.turns, TurnQueue.EvFire))
    case EvFireVote => r.(voteTimer := r.voteTimer.Fire(r.turns.now))
    case EvDeliverTurn(i) => r.(turns := TurnQueue.Step(r.turns, TurnQueue.EvDeliver(i)))
    case EvDeliverVote(i) => if i < |r.voteTimer.completions| then DeliverVote(r, i) else r
  }

  function Run<U(==)>(r: Room<U>, events: seq<Event<U>>): Room<U>
    decreases |events|
  {
    if events == [] then r else Run(Step(r, events[0]), events[1..])
  }
}
