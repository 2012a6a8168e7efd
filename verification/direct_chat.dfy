/** Direct chats: two users open rooms for each other, each in its own room table and on its own strand. */
module DirectChats {

  /** A room: the user it is with, and the id of the room at the other end, zero while unknown. */
  datatype Room = Room(peer: nat, peerId: nat)

  datatype User = User(rooms: map<nat, Room>, nextId: nat)

  /** Where the request behind a room has got to: on its way to the recipient, or back from there. */
  datatype Stage = Asked(recipient: nat) | Accepted(recipient: nat, recipientId: nat) | Refused(recipient: nat)

  datatype Response =
    | UserNotFound
    | UserChatLimit
    | RecipientChatLimit
    | ChannelId(id: nat)
    | NewChatChannel(id: nat)

  /** Every request is one chain of handlers, known by the user who made it and the room it opened. */
  datatype State = State(users: map<nat, User>, chains: map<(nat, nat), Stage>, sent: seq<(nat, Response)>)

  const MAX_ROOMS := 10

  predicate Knows(user: User, peer: nat) {
    exists id :: id in user.rooms && user.rooms[id].peer == peer
  }

  /** `found` is a room with the peer, when there is one: with several, any may be found. */
  predicate Finds(user: User, peer: nat, found: nat) {
    Knows(user, peer) ==> found in user.rooms && user.rooms[found].peer == peer
  }

  datatype Event =
    | Request(sender: nat, recipient: nat, found: nat)
    | Deliver(sender: nat, id: nat, found: nat)

  predicate Enabled(s: State, e: Event) {
    match e
    case Request(a, b, found) => a in s.users && Finds(s.users[a], b, found)
    case Deliver(a, id, found) =>
      && (a, id) in s.chains && a in s.users && s.chains[(a, id)].recipient in s.users
      && Finds(s.users[s.chains[(a, id)].recipient], a, found)
  }

  function Tell(s: State, user: nat, r: Response): State {
    s.(sent := s.sent + [(user, r)])
  }

  function SetRoom(s: State, user: nat, id: nat, room: Room): State
    requires user in s.users
  {
    s.(users := s.users[user := s.users[user].(rooms := s.users[user].rooms[id := room])])
  }

  /** A room under the next id. */
  function NewRoom(s: State, user: nat, room: Room): State
    requires user in s.users
  {
    var u := s.users[user];
    s.(users := s.users[user := User(u.rooms[u.nextId := room], u.nextId + 1)])
  }

  function EraseRoom(s: State, user: nat, id: nat): State
    requires user in s.users
  {
    s.(users := s.users[user := s.users[user].(rooms := s.users[user].rooms - {id})])
  }

  /** The sender's strand: open a room and ask the recipient. */
  function Ask(s: State, a: nat, b: nat, found: nat): State
    requires Enabled(s, Request(a, b, found))
  {
    var user := s.users[a];
    if b !in s.users then Tell(s, a, UserNotFound)
    else if |user.rooms| >= MAX_ROOMS then Tell(s, a, UserChatLimit)
    else if Knows(user, b) then Tell(s, a, ChannelId(user.rooms[found].peerId))
    else NewRoom(s, a, Room(b, 0)).(chains := s.chains[(a, user.nextId) := Asked(b)])
  }

  function Ended(s: State, a: nat, id: nat): State {
    s.(chains := s.chains - {(a, id)})
  }

  /** The recipient's strand: link the room that already is there, or open one. The peer stored is the recipient itself. */
  function Receive(s: State, a: nat, id: nat, b: nat, found: nat): State
    requires b in s.users && Finds(s.users[b], a, found)
  {
    var user := s.users[b];
    if Knows(user, a) then
      if user.rooms[found].peerId == 0 then Ended(SetRoom(s, b, found, user.rooms[found].(peerId := id)), a, id)
      else Ended(Tell(s, a, ChannelId(id)), a, id)
    else if |user.rooms| >= MAX_ROOMS then s.(chains := s.chains[(a, id) := Refused(b)])
    else NewRoom(s, b, Room(b, id)).(chains := s.chains[(a, id) := Accepted(b, user.nextId)])
  }

  /** Back on the sender's strand. */
  function Confirm(s: State, a: nat, id: nat, b: nat, recipientId: nat): State
    requires a in s.users
  {
    var rooms := s.users[a].rooms;
    if id in rooms && rooms[id].peerId == 0 then
      var s := Ended(SetRoom(s, a, id, rooms[id].(peerId := recipientId)), a, id);
      Tell(Tell(Tell(s, a, ChannelId(id)), b, NewChatChannel(recipientId)), a, NewChatChannel(recipientId))
    else Ended(s, a, id)
  }

  function Refuse(s: State, a: nat, id: nat): State
    requires a in s.users
  {
    Ended(Tell(EraseRoom(s, a, id), a, RecipientChatLimit), a, id)
  }

  function Step(s: State, e: Event): State {
    if !Enabled(s, e) then s else
      match e
      case Request(a, b, found) => Ask(s, a, b, found)
      case Deliver(a, id, found) =>
        match s.chains[(a, id)]
        case Asked(b) => Receive(s, a, id, b, found)
        case Accepted(b, recipientId) => Confirm(s, a, id, b, recipientId)
        case Refused(_) => Refuse(s, a, id)
  }

  function Run(s: State, events: seq<Event>): State
    decreases |events|
  {
    if events == [] then s else Run(Step(s, events[0]), events[1..])
  }

  // ---------------------------------------------------------------- the invariant

  ghost predicate UserInv(u: nat, user: User) {
    && user.nextId >= 1 && |user.rooms| <= MAX_ROOMS
    && (forall id :: id in user.rooms ==> 1 <= id < user.nextId)
    && forall i, j :: i in user.rooms && j in user.rooms && i != j && user.rooms[i].peer == user.rooms[j].peer ==>
         user.rooms[i].peer == u
  }

  /** A room whose request is under way is there, with the recipient as its peer; an accepted request has opened the
      recipient's room, which no request of the recipient's own is about. */
  ghost predicate ChainInv(s: State, key: (nat, nat)) {
    key in s.chains ==>
      var (a, id), b := key, s.chains[key].recipient;
      && a in s.users && b in s.users
      && id in s.users[a].rooms && s.users[a].rooms[id].peer == b
      && (s.chains[key].Accepted? ==>
           var rid := s.chains[key].recipientId;
           rid in s.users[b].rooms && s.users[b].rooms[rid] == Room(b, id) && (b, rid) !in s.chains && a != b)
  }

  ghost predicate Inv(s: State) {
    && (forall u :: u in s.users ==> UserInv(u, s.users[u]))
    && forall key :: ChainInv(s, key)
  }

  /** What all steps but a refusal do to a user: rooms stay, and a peer id that is known stays. */
  ghost predicate Extends(before: User, after: User) {
    && before.nextId <= after.nextId
    && forall id :: id in before.rooms ==>
         && id in after.rooms && after.rooms[id].peer == before.rooms[id].peer
         && (before.rooms[id].peerId != 0 ==> after.rooms[id] == before.rooms[id])
  }

  lemma ExtendKeepsChain(s: State, s': State, u: nat, key: (nat, nat))
    requires u in s.users && u in s'.users && s'.users == s.users[u := s'.users[u]] && Extends(s.users[u], s'.users[u])
    requires ChainInv(s, key) && key in s.chains && key in s'.chains && s'.chains[key] == s.chains[key] && key.1 != 0
    requires s.chains[key].Accepted? ==> (s.chains[key].recipient, s.chains[key].recipientId) !in s'.chains
    ensures ChainInv(s', key)
  {
  }

  lemma OneUserChanges(s: State, s': State, u: nat)
    requires Inv(s) && u in s.users && u in s'.users && s'.users == s.users[u := s'.users[u]]
    requires UserInv(u, s'.users[u])
    ensures forall v :: v in s'.users ==> UserInv(v, s'.users[v])
  {
    forall v | v in s'.users
      ensures UserInv(v, s'.users[v])
    {
      assert UserInv(v, s.users[v]);
    }
  }

  lemma ChainIds(s: State, key: (nat, nat))
    requires Inv(s) && key in s.chains
    ensures ChainInv(s, key) && key.0 in s.users && 1 <= key.1 < s.users[key.0].nextId
    ensures s.chains[key].Accepted? ==>
              var b := s.chains[key].recipient; b in s.users && s.chains[key].recipientId < s.users[b].nextId
  {
    assert ChainInv(s, key);
    assert UserInv(key.0, s.users[key.0]) && UserInv(s.chains[key].recipient, s.users[s.chains[key].recipient]);
  }

  lemma RoomAdded(u: nat, user: User, room: Room)
    requires UserInv(u, user) && |user.rooms| < MAX_ROOMS && (!Knows(user, room.peer) || room.peer == u)
    ensures var after := User(user.rooms[user.nextId := room], user.nextId + 1);
            UserInv(u, after) && Extends(user, after)
  {
    assert user.nextId !in user.rooms;
  }

  lemma RoomLinked(u: nat, user: User, id: nat, peerId: nat)
    requires UserInv(u, user) && id in user.rooms && user.rooms[id].peerId == 0
    ensures var after := user.(rooms := user.rooms[id := user.rooms[id].(peerId := peerId)]);
            UserInv(u, after) && Extends(user, after)
  {
    assert user.rooms[id := user.rooms[id].(peerId := peerId)].Keys == user.rooms.Keys;
  }

  lemma AskKeepsInv(s: State, a: nat, b: nat, found: nat)
    requires Inv(s) && Enabled(s, Request(a, b, found))
    ensures Inv(Ask(s, a, b, found))
  {
    var s', user := Ask(s, a, b, found), s.users[a];
    if b in s.users && |user.rooms| < MAX_ROOMS && !Knows(user, b) {
      assert UserInv(a, user);
      RoomAdded(a, user, Room(b, 0));
      OneUserChanges(s, s', a);
      forall key
        ensures ChainInv(s', key)
      {
        if key in s.chains {
          ChainIds(s, key);
          ExtendKeepsChain(s, s', a, key);
        }
      }
    } else {
      UsersAndChainsMatter(s, s');
    }
  }

  lemma UsersAndChainsMatter(s: State, s': State)
    requires Inv(s) && s'.users == s.users && s'.chains.Keys <= s.chains.Keys
    requires forall key :: key in s'.chains ==> s'.chains[key] == s.chains[key]
    ensures Inv(s')
  {
    forall key
      ensures ChainInv(s', key)
    {
      assert ChainInv(s, key);
    }
  }

  /** A chain ends after at most one room has been linked. */
  lemma LinkKeepsInv(s: State, s': State, u: nat, key: (nat, nat))
    requires Inv(s) && u in s.users && u in s'.users && s'.users == s.users[u := s'.users[u]]
    requires UserInv(u, s'.users[u]) && Extends(s.users[u], s'.users[u])
    requires s'.chains == s.chains - {key}
    ensures Inv(s')
  {
    OneUserChanges(s, s', u);
    forall other
      ensures ChainInv(s', other)
    {
      if other in s'.chains {
        ChainIds(s, other);
        ExtendKeepsChain(s, s', u, other);
      }
    }
  }

  lemma ReceiveKeepsInv(s: State, a: nat, id: nat, b: nat, found: nat)
    requires Inv(s) && (a, id) in s.chains && s.chains[(a, id)] == Asked(b) && b in s.users && Finds(s.users[b], a, found)
    ensures Inv(Receive(s, a, id, b, found))
  {
    var s', user := Receive(s, a, id, b, found), s.users[b];
    assert UserInv(b, user);
    ChainIds(s, (a, id));
    if Knows(user, a) {
      if user.rooms[found].peerId == 0 {
        RoomLinked(b, user, found, id);
        LinkKeepsInv(s, s', b, (a, id));
      } else {
        UsersAndChainsMatter(s, s');
      }
    } else if |user.rooms| >= MAX_ROOMS {
      RefusedKeepsInv(s, s', (a, id));
    } else {
      RoomAdded(b, user, Room(b, id));
      OneUserChanges(s, s', b);
      AcceptKeepsChains(s, a, id, b);
    }
  }

  lemma RefusedKeepsInv(s: State, s': State, key: (nat, nat))
    requires Inv(s) && key in s.chains && s'.users == s.users
    requires s'.chains == s.chains[key := Refused(s.chains[key].recipient)]
    ensures Inv(s')
  {
    forall other
      ensures ChainInv(s', other)
    {
      assert ChainInv(s, other);
    }
  }

  lemma AcceptKeepsChains(s: State, a: nat, id: nat, b: nat)
    requires Inv(s) && (a, id) in s.chains && s.chains[(a, id)] == Asked(b) && b in s.users && !Knows(s.users[b], a)
    ensures var s' := NewRoom(s, b, Room(b, id)).(chains := s.chains[(a, id) := Accepted(b, s.users[b].nextId)]);
            forall key :: ChainInv(s', key)
  {
    var user := s.users[b];
    var s' := NewRoom(s, b, Room(b, id)).(chains := s.chains[(a, id) := Accepted(b, user.nextId)]);
    assert UserInv(b, user) && user.nextId !in user.rooms;
    ChainIds(s, (a, id));
    assert a != b by {
      assert s.users[a].rooms[id].peer == b;
    }
    if (b, user.nextId) in s.chains {
      ChainIds(s, (b, user.nextId));
    }
    forall key
      ensures ChainInv(s', key)
    {
      if key in s.chains && key != (a, id) {
        ChainIds(s, key);
        ExtendKeepsChain(s, s', b, key);
      }
    }
  }

  lemma ConfirmKeepsInv(s: State, a: nat, id: nat, b: nat, recipientId: nat)
    requires Inv(s) && (a, id) in s.chains && s.chains[(a, id)] == Accepted(b, recipientId)
    ensures a in s.users && Inv(Confirm(s, a, id, b, recipientId))
  {
    ChainIds(s, (a, id));
    var s', user := Confirm(s, a, id, b, recipientId), s.users[a];
    assert UserInv(a, user);
    if user.rooms[id].peerId == 0 {
      RoomLinked(a, user, id, recipientId);
      LinkKeepsInv(s, s', a, (a, id));
    } else {
      UsersAndChainsMatter(s, s');
    }
  }

  lemma RefuseKeepsInv(s: State, a: nat, id: nat)
    requires Inv(s) && (a, id) in s.chains && s.chains[(a, id)].Refused?
    ensures a in s.users && Inv(Refuse(s, a, id))
  {
    ChainIds(s, (a, id));
    var s', user := Refuse(s, a, id), s.users[a];
    assert UserInv(a, user);
    assert user.rooms.Keys == (user.rooms - {id}).Keys + {id};
    OneUserChanges(s, s', a);
    forall key
      ensures ChainInv(s', key)
    {
      assert ChainInv(s, key);
      assert key == (a, key.1) || key.0 != a;
    }
  }

  lemma StepKeepsInv(s: State, e: Event)
    requires Inv(s)
    ensures Inv(Step(s, e))
  {
    if Enabled(s, e) {
      match e
      case Request(a, b, found) => AskKeepsInv(s, a, b, found);
      case Deliver(a, id, found) =>
        match s.chains[(a, id)]
        case Asked(b) => ReceiveKeepsInv(s, a, id, b, found);
        case Accepted(b, recipientId) => ConfirmKeepsInv(s, a, id, b, recipientId);
        case Refused(_) => RefuseKeepsInv(s, a, id);
    }
  }

  // ---------------------------------------------------------------- what becomes of a room

  ghost predicate HasRoom(s: State, u: nat, id: nat) {
    u in s.users && id in s.users[u].rooms
  }

  function RoomOf(s: State, u: nat, id: nat): Room
    requires HasRoom(s, u, id)
  {
    s.users[u].rooms[id]
  }

  ghost predicate Delivers(s: State, e: Event, a: nat, id: nat) {
    e.Deliver? && e.sender == a && e.id == id && Enabled(s, e)
  }

  lemma ReceiveChanges(s: State, a: nat, ia: nat, b: nat, found: nat, u: nat, id: nat)
    requires b in s.users && Finds(s.users[b], a, found) && HasRoom(s, u, id) && UserInv(u, s.users[u])
    ensures var s', room := Receive(s, a, ia, b, found), RoomOf(s, u, id);
            && HasRoom(s', u, id)
            && if u == b && id == found && room == Room(a, 0) then RoomOf(s', u, id) == Room(a, ia)
               else RoomOf(s', u, id) == room
  {
  }

  lemma ConfirmChanges(s: State, a: nat, ia: nat, b: nat, recipientId: nat, u: nat, id: nat)
    requires a in s.users && HasRoom(s, u, id)
    ensures var s', room := Confirm(s, a, ia, b, recipientId), RoomOf(s, u, id);
            && HasRoom(s', u, id)
            && if u == a && id == ia && room.peerId == 0 then RoomOf(s', u, id) == Room(room.peer, recipientId)
               else RoomOf(s', u, id) == room
  {
  }

  /** The only ways for a room to change: a request by its peer is received, or the answer to its own request is. */
  lemma RoomChanges(s: State, e: Event, u: nat, id: nat)
    requires Inv(s) && HasRoom(s, u, id)
    ensures var s', room := Step(s, e), RoomOf(s, u, id);
            || (HasRoom(s', u, id) && RoomOf(s', u, id) == room)
            || (&& e.Deliver? && Enabled(s, e) && s.chains[(e.sender, e.id)] == Asked(u) && e.found == id
                && room == Room(e.sender, 0) && HasRoom(s', u, id) && RoomOf(s', u, id) == Room(e.sender, e.id))
            || (&& Delivers(s, e, u, id) && s.chains[(u, id)].Accepted? && room.peerId == 0
                && HasRoom(s', u, id) && RoomOf(s', u, id) == Room(room.peer, s.chains[(u, id)].recipientId))
            || (&& Delivers(s, e, u, id) && s.chains[(u, id)].Refused? && u in s'.users && !HasRoom(s', u, id)
                && s'.sent == s.sent + [(u, RecipientChatLimit)])
  {
    assert UserInv(u, s.users[u]);
    if Enabled(s, e) && e.Deliver? {
      assert ChainInv(s, (e.sender, e.id));
      match s.chains[(e.sender, e.id)] {
        case Asked(b) => ReceiveChanges(s, e.sender, e.id, b, e.found, u, id);
        case Accepted(b, recipientId) => ConfirmChanges(s, e.sender, e.id, b, recipientId, u, id);
        case Refused(b) =>
      }
    }
  }

  /** Chains start with a request, under a new id, and change only when delivered. */
  lemma ChainChanges(s: State, e: Event, key: (nat, nat))
    requires key.0 in s.users && key.1 < s.users[key.0].nextId && !Delivers(s, e, key.0, key.1)
    ensures key in Step(s, e).chains <==> key in s.chains
    ensures key in s.chains ==> Step(s, e).chains[key] == s.chains[key]
  {
    if Enabled(s, e) {
      match e
      case Request(a, b, found) => assert Step(s, e) == Ask(s, a, b, found);
      case Deliver(a, id, found) => assert key != (a, id);
    }
  }

  /** Ids below the next one are never given again, a room keeps its peer, and a peer id that is set stays. */
  ghost predicate Later(before: User, after: User) {
    && before.nextId <= after.nextId
    && forall id :: id in after.rooms && id < before.nextId ==>
         && id in before.rooms && after.rooms[id].peer == before.rooms[id].peer
         && (before.rooms[id].peerId != 0 ==> after.rooms[id].peerId == before.rooms[id].peerId)
  }

  lemma OnlyNewIdsAppear(s: State, e: Event, u: nat)
    requires Inv(s) && u in s.users
    ensures u in Step(s, e).users && s.users[u].nextId <= Step(s, e).users[u].nextId
    ensures forall id :: id in Step(s, e).users[u].rooms && id < s.users[u].nextId ==> id in s.users[u].rooms
  {
    if Enabled(s, e) {
      match e
      case Request(a, b, found) => assert Step(s, e) == Ask(s, a, b, found);
      case Deliver(a, id, found) =>
        match s.chains[(a, id)]
        case Asked(b) => assert Step(s, e) == Receive(s, a, id, b, found);
        case Accepted(b, recipientId) => assert Step(s, e) == Confirm(s, a, id, b, recipientId);
        case Refused(_) => assert Step(s, e) == Refuse(s, a, id);
    }
  }

  lemma StepKeepsRooms(s: State, e: Event, u: nat)
    requires Inv(s) && u in s.users
    ensures u in Step(s, e).users && Later(s.users[u], Step(s, e).users[u])
  {
    var s' := Step(s, e);
    OnlyNewIdsAppear(s, e, u);
    forall id | id in s'.users[u].rooms && id in s.users[u].rooms
      ensures s'.users[u].rooms[id].peer == s.users[u].rooms[id].peer
      ensures s.users[u].rooms[id].peerId != 0 ==> s'.users[u].rooms[id].peerId == s.users[u].rooms[id].peerId
    {
      RoomChanges(s, e, u, id);
    }
  }

  /** Over any run: the invariant holds, every user has at most ten rooms, no id is given twice, and a peer id is written
      at most once. */
  lemma {:induction false} RunKeepsRooms(s: State, events: seq<Event>, u: nat)
    requires Inv(s) && u in s.users
    ensures Inv(Run(s, events))
    ensures u in Run(s, events).users && Later(s.users[u], Run(s, events).users[u])
    ensures |Run(s, events).users[u].rooms| <= MAX_ROOMS
    decreases |events|
  {
    assert UserInv(u, s.users[u]);
    if events != [] {
      StepKeepsInv(s, events[0]);
      StepKeepsRooms(s, events[0], u);
      RunKeepsRooms(Step(s, events[0]), events[1..], u);
    }
  }

  // ---------------------------------------------------------------- crossing requests

  /** User `a` has asked `b`, who has neither received it nor asked back. */
  ghost predicate Waiting(s: State, a: nat, ia: nat, b: nat) {
    && a != b && HasRoom(s, a, ia) && RoomOf(s, a, ia) == Room(b, 0)
    && (a, ia) in s.chains && s.chains[(a, ia)] == Asked(b)
    && b in s.users && !Knows(s.users[b], a)
  }

  /** Both have asked. The room at each end is linked as soon as the other's request has been received. */
  ghost predicate Crossing(s: State, a: nat, ia: nat, b: nat, ib: nat) {
    a != b && HalfCrossed(s, a, ia, b, ib) && HalfCrossed(s, b, ib, a, ia)
  }

  ghost predicate HalfCrossed(s: State, a: nat, ia: nat, b: nat, ib: nat) {
    && HasRoom(s, a, ia)
    && ((a, ia) in s.chains ==> s.chains[(a, ia)] == Asked(b))
    && RoomOf(s, a, ia) == Room(b, if (b, ib) in s.chains then 0 else ib)
  }

  lemma RequestWaits(s: State, a: nat, b: nat)
    requires Inv(s) && a in s.users && b in s.users && a != b && !Knows(s.users[a], b) && !Knows(s.users[b], a)
    requires |s.users[a].rooms| < MAX_ROOMS
    ensures Waiting(Step(s, Request(a, b, 0)), a, s.users[a].nextId, b)
  {
  }

  ghost predicate Disturbs(e: Event, a: nat, ia: nat, b: nat) {
    || (e.Deliver? && e.sender == a && e.id == ia)
    || (e.Request? && e.sender == b && e.recipient == a)
  }

  lemma StepKeepsWaiting(s: State, e: Event, a: nat, ia: nat, b: nat)
    requires Inv(s) && Waiting(s, a, ia, b) && !Disturbs(e, a, ia, b)
    ensures Waiting(Step(s, e), a, ia, b)
  {
    assert UserInv(a, s.users[a]);
    RoomChanges(s, e, a, ia);
    ChainChanges(s, e, (a, ia));
    StaysUnknown(s, e, a, b);
    if e.Deliver? && Enabled(s, e) {
      assert ChainInv(s, (e.sender, e.id));
    }
  }

  lemma StaysUnknown(s: State, e: Event, a: nat, b: nat)
    requires Inv(s) && a != b && b in s.users && !Knows(s.users[b], a)
    requires !(e.Request? && e.sender == b && e.recipient == a)
    ensures b in Step(s, e).users && !Knows(Step(s, e).users[b], a)
  {
    OnlyNewIdsAppear(s, e, b);
    forall id | id in Step(s, e).users[b].rooms
      ensures Step(s, e).users[b].rooms[id].peer != a
    {
      if id in s.users[b].rooms {
        RoomChanges(s, e, b, id);
      } else {
        NewRoomIsFor(s, e, b, id);
      }
    }
  }

  /** A room that appears is for the recipient of the user's own request, or, when a request is accepted, for the user
      itself. */
  lemma NewRoomIsFor(s: State, e: Event, u: nat, id: nat)
    requires u in s.users && u in Step(s, e).users && id in Step(s, e).users[u].rooms && id !in s.users[u].rooms
    ensures Step(s, e).users[u].rooms[id].peer == if e.Request? then e.recipient else u
    ensures e.Request? ==> e.sender == u
  {
    if e.Request? {
      assert Step(s, e) == Ask(s, e.sender, e.recipient, e.found);
    }
  }

  lemma {:induction false} RunKeepsWaiting(s: State, events: seq<Event>, a: nat, ia: nat, b: nat)
    requires Inv(s) && Waiting(s, a, ia, b) && forall e :: e in events ==> !Disturbs(e, a, ia, b)
    ensures Inv(Run(s, events)) && Waiting(Run(s, events), a, ia, b)
    decreases |events|
  {
    if events != [] {
      assert events[0] in events && forall e :: e in events[1..] ==> e in events;
      StepKeepsInv(s, events[0]);
      StepKeepsWaiting(s, events[0], a, ia, b);
      RunKeepsWaiting(Step(s, events[0]), events[1..], a, ia, b);
    }
  }

  lemma AskingBackCrosses(s: State, a: nat, ia: nat, b: nat)
    requires Inv(s) && Waiting(s, a, ia, b) && |s.users[b].rooms| < MAX_ROOMS
    ensures Crossing(Step(s, Request(b, a, 0)), a, ia, b, s.users[b].nextId)
  {
    assert ChainInv(s, (b, s.users[b].nextId)) && UserInv(b, s.users[b]);
  }

  lemma StepKeepsHalf(s: State, e: Event, a: nat, ia: nat, b: nat, ib: nat)
    requires Inv(s) && Crossing(s, a, ia, b, ib)
    ensures HalfCrossed(Step(s, e), a, ia, b, ib)
  {
    assert UserInv(a, s.users[a]) && UserInv(b, s.users[b]);
    RoomChanges(s, e, a, ia);
    if !Delivers(s, e, a, ia) {
      ChainChanges(s, e, (a, ia));
    }
    if !Delivers(s, e, b, ib) {
      ChainChanges(s, e, (b, ib));
    }
    if e.Deliver? && Enabled(s, e) {
      assert ChainInv(s, (e.sender, e.id));
    }
  }

  lemma {:induction false} RunKeepsCrossing(s: State, events: seq<Event>, a: nat, ia: nat, b: nat, ib: nat)
    requires Inv(s) && Crossing(s, a, ia, b, ib)
    ensures Inv(Run(s, events)) && Crossing(Run(s, events), a, ia, b, ib)
    decreases |events|
  {
    if events != [] {
      StepKeepsInv(s, events[0]);
      StepKeepsHalf(s, events[0], a, ia, b, ib);
      StepKeepsHalf(s, events[0], b, ib, a, ia);
      RunKeepsCrossing(Step(s, events[0]), events[1..], a, ia, b, ib);
    }
  }

  /** Two requests that cross, between users without a room for each other, link both rooms to each other: whatever happens
      between them and after them, as soon as both have been received. */
  lemma CrossingRequestsLink(s: State, a: nat, b: nat, between: seq<Event>, after: seq<Event>)
    requires Inv(s) && a in s.users && b in s.users && a != b && !Knows(s.users[a], b) && !Knows(s.users[b], a)
    requires |s.users[a].rooms| < MAX_ROOMS
    requires forall e :: e in between ==> !Disturbs(e, a, s.users[a].nextId, b)
    ensures var ia, s2 := s.users[a].nextId, Run(Step(s, Request(a, b, 0)), between);
            b in s2.users && (|s2.users[b].rooms| < MAX_ROOMS ==>
              var ib, end := s2.users[b].nextId, Run(Step(s2, Request(b, a, 0)), after);
              (a, ia) !in end.chains && (b, ib) !in end.chains ==>
                && HasRoom(end, a, ia) && RoomOf(end, a, ia) == Room(b, ib)
                && HasRoom(end, b, ib) && RoomOf(end, b, ib) == Room(a, ia))
  {
    var ia, s1 := s.users[a].nextId, Step(s, Request(a, b, 0));
    RequestWaits(s, a, b);
    StepKeepsInv(s, Request(a, b, 0));
    RunKeepsWaiting(s1, between, a, ia, b);
    var s2 := Run(s1, between);
    if |s2.users[b].rooms| < MAX_ROOMS {
      AskingBackCrosses(s2, a, ia, b);
      StepKeepsInv(s2, Request(b, a, 0));
      RunKeepsCrossing(Step(s2, Request(b, a, 0)), after, a, ia, b, s2.users[b].nextId);
    }
  }

  // ---------------------------------------------------------------- requests that do not cross

  /** An accepted request links both rooms to each other exactly when the sender's room has not been linked meanwhile. */
  lemma AcceptedRequestLinksIff(s: State, e: Event)
    requires Inv(s) && e.Deliver? && Enabled(s, e) && s.chains[(e.sender, e.id)].Accepted?
    ensures var (a, ia), stage, end := (e.sender, e.id), s.chains[(e.sender, e.id)], Step(s, e);
            && HasRoom(s, a, ia) && HasRoom(end, a, ia) && HasRoom(end, stage.recipient, stage.recipientId)
            && RoomOf(end, stage.recipient, stage.recipientId).peerId == ia
            && (RoomOf(s, a, ia).peerId in {0, stage.recipientId} <==> RoomOf(end, a, ia) == Room(stage.recipient, stage.recipientId))
  {
    var b, rid := s.chains[(e.sender, e.id)].recipient, s.chains[(e.sender, e.id)].recipientId;
    assert ChainInv(s, (e.sender, e.id));
    assert UserInv(e.sender, s.users[e.sender]) && UserInv(b, s.users[b]);
    RoomChanges(s, e, e.sender, e.id);
    RoomChanges(s, e, b, rid);
  }

  /** User `b` asked `a` only after accepting the request that opened `ia`: that one was received, and not refused. */
  ghost predicate TooLate(s: State, a: nat, ia: nat, b: nat, ib: nat) {
    && a != b && HasRoom(s, a, ia) && RoomOf(s, a, ia).peer == b
    && ((a, ia) in s.chains ==> s.chains[(a, ia)].Accepted?)
    && HasRoom(s, b, ib) && RoomOf(s, b, ib) == Room(a, 0)
    && ((b, ib) in s.chains ==> s.chains[(b, ib)] == Asked(a))
  }

  lemma StepKeepsTooLate(s: State, e: Event, a: nat, ia: nat, b: nat, ib: nat)
    requires Inv(s) && TooLate(s, a, ia, b, ib)
    ensures TooLate(Step(s, e), a, ia, b, ib)
  {
    assert UserInv(a, s.users[a]) && UserInv(b, s.users[b]);
    RoomChanges(s, e, a, ia);
    RoomChanges(s, e, b, ib);
    if !Delivers(s, e, a, ia) {
      ChainChanges(s, e, (a, ia));
    }
    if !Delivers(s, e, b, ib) {
      ChainChanges(s, e, (b, ib));
    }
    if e.Deliver? && Enabled(s, e) {
      assert ChainInv(s, (e.sender, e.id));
    }
    assert Knows(s.users[a], b);
  }

  /** A request made after the other's has been accepted opens a room that stays unlinked for ever. */
  lemma {:induction false} LateRoomIsNeverLinked(s: State, events: seq<Event>, a: nat, ia: nat, b: nat, ib: nat)
    requires Inv(s) && TooLate(s, a, ia, b, ib)
    ensures TooLate(Run(s, events), a, ia, b, ib)
    decreases |events|
  {
    if events != [] {
      StepKeepsInv(s, events[0]);
      StepKeepsTooLate(s, events[0], a, ia, b, ib);
      LateRoomIsNeverLinked(Step(s, events[0]), events[1..], a, ia, b, ib);
    }
  }

  /** Accepting does not tell the recipient who the sender is: asking back opens such a room. */
  lemma AskingBackIsTooLate(s: State, a: nat, ia: nat, b: nat)
    requires Inv(s) && (a, ia) in s.chains && s.chains[(a, ia)] == Asked(b)
    requires b in s.users && !Knows(s.users[b], a) && |s.users[b].rooms| + 1 < MAX_ROOMS
    ensures var s1 := Step(s, Deliver(a, ia, 0));
            b in s1.users && TooLate(Step(s1, Request(b, a, 0)), a, ia, b, s1.users[b].nextId)
  {
    assert ChainInv(s, (a, ia)) && UserInv(b, s.users[b]) && UserInv(a, s.users[a]);
    var s1 := Step(s, Deliver(a, ia, 0));
    StepKeepsInv(s, Deliver(a, ia, 0));
    assert s1.chains[(a, ia)] == Accepted(b, s.users[b].nextId);
    assert !Knows(s1.users[b], a);
    assert ChainInv(s1, (b, s1.users[b].nextId)) && UserInv(b, s1.users[b]);
  }

  // ---------------------------------------------------------------- when asking back links the rooms

  /** User `a` has a room for `b`, who has none for `a` but the space for one. While the request of that room is on its way,
      nobody else has linked it. */
  ghost predicate CanAskBack(s: State, a: nat, ia: nat, b: nat) {
    && a != b && HasRoom(s, a, ia) && RoomOf(s, a, ia).peer == b
    && ((a, ia) in s.chains && s.chains[(a, ia)].Asked? ==> RoomOf(s, a, ia).peerId == 0)
    && b in s.users && !Knows(s.users[b], a) && |s.users[b].rooms| < MAX_ROOMS
  }

  /** The rooms are each other's. */
  ghost predicate Linked(s: State, a: nat, ia: nat, b: nat, ib: nat) {
    && HasRoom(s, a, ia) && RoomOf(s, a, ia) == Room(b, ib)
    && HasRoom(s, b, ib) && RoomOf(s, b, ib) == Room(a, ia)
  }

  /** Once both requests are over, the rooms are linked. */
  ghost predicate LinkedWhenOver(s: State, a: nat, ia: nat, b: nat, ib: nat) {
    (a, ia) !in s.chains && (b, ib) !in s.chains ==> Linked(s, a, ia, b, ib)
  }

  lemma AskingBackOpens(s: State, a: nat, ia: nat, b: nat)
    requires Inv(s) && CanAskBack(s, a, ia, b)
    ensures var s1, ib := Step(s, Request(b, a, 0)), s.users[b].nextId;
            && Inv(s1) && HasRoom(s1, a, ia) && RoomOf(s1, a, ia) == RoomOf(s, a, ia)
            && HasRoom(s1, b, ib) && RoomOf(s1, b, ib) == Room(a, 0)
            && s1.chains == s.chains[(b, ib) := Asked(a)] && (b, ib) !in s.chains
  {
    StepKeepsInv(s, Request(b, a, 0));
    assert ChainInv(s, (b, s.users[b].nextId)) && UserInv(b, s.users[b]);
  }

  lemma NothingIsKnownTwice(s: State, a: nat, ia: nat, b: nat)
    requires Inv(s) && a != b && HasRoom(s, a, ia) && RoomOf(s, a, ia).peer == b
    ensures Knows(s.users[a], b) && forall id :: Finds(s.users[a], b, id) ==> id == ia
  {
    assert UserInv(a, s.users[a]);
  }

  lemma ChainInUse(s: State, a: nat, ia: nat, b: nat)
    requires Inv(s) && HasRoom(s, a, ia) && RoomOf(s, a, ia).peer == b && (a, ia) in s.chains
    ensures s.chains[(a, ia)].recipient == b && b in s.users && ia >= 1
  {
    assert ChainInv(s, (a, ia)) && UserInv(a, s.users[a]);
  }

  /** A request that has been refused takes its room away, and with it the link. */
  lemma RefusalUnlinks(s: State, a: nat, ia: nat, b: nat, ib: nat)
    requires Inv(s) && a != b && HasRoom(s, a, ia) && RoomOf(s, a, ia).peer == b
    requires (a, ia) in s.chains && s.chains[(a, ia)].Refused?
    requires HasRoom(s, b, ib) && RoomOf(s, b, ib).peer == a && (b, ib) in s.chains && s.chains[(b, ib)] == Asked(a)
    ensures !LinkedWhenOver(Run(s, [Deliver(b, ib, ia), Deliver(a, ia, ib)]), a, ia, b, ib)
  {
    var first, second := Deliver(b, ib, ia), Deliver(a, ia, ib);
    ChainInUse(s, a, ia, b);
    NothingIsKnownTwice(s, a, ia, b);
    assert Enabled(s, first);
    var t := Step(s, first);
    assert t == Receive(s, b, ib, a, ia);
    StepKeepsInv(s, first);
    RoomChanges(s, first, a, ia);
    RoomChanges(s, first, b, ib);
    ChainChanges(s, first, (a, ia));
    NothingIsKnownTwice(t, b, ib, a);
    assert Enabled(t, second) && Step(t, second) == Refuse(t, a, ia);
    TwoEvents(s, first, second);
  }

  lemma TwoEvents(s: State, first: Event, second: Event)
    ensures Run(s, [first, second]) == Step(Step(s, first), second)
  {
    assert [first, second][1..] == [second] && [second][1..] == [];
    assert Run(Step(s, first), [second]) == Step(Step(s, first), second);
  }

  /** A request that has been accepted, or is over, leaves the room of the one who asks back unlinked. */
  lemma TooLateToLink(s: State, a: nat, ia: nat, b: nat, ib: nat)
    requires Inv(s) && TooLate(s, a, ia, b, ib) && (b, ib) in s.chains
    ensures !LinkedWhenOver(Run(s, [Deliver(b, ib, ia), Deliver(a, ia, ib)]), a, ia, b, ib)
  {
    var first, second := Deliver(b, ib, ia), Deliver(a, ia, ib);
    assert UserInv(a, s.users[a]);
    NothingIsKnownTwice(s, a, ia, b);
    assert Enabled(s, first);
    var t := Step(s, first);
    assert t == Receive(s, b, ib, a, ia);
    StepKeepsInv(s, first);
    StepKeepsTooLate(s, first, a, ia, b, ib);
    NothingIsKnownTwice(t, b, ib, a);
    if (a, ia) in t.chains {
      ChainInUse(t, a, ia, b);
      assert Enabled(t, second);
    }
    StepKeepsTooLate(t, second, a, ia, b, ib);
    TwoEvents(s, first, second);
  }

  /** Asking back links the two rooms to each other, in every run that ends both requests, exactly when the request of the
      first room is still on its way to the one who asks back: once it has been accepted or refused it is too late. */
  lemma AskingBackLinksIff(s: State, a: nat, ia: nat, b: nat)
    requires Inv(s) && CanAskBack(s, a, ia, b)
    ensures var s1, ib := Step(s, Request(b, a, 0)), s.users[b].nextId;
            (forall events :: LinkedWhenOver(Run(s1, events), a, ia, b, ib))
            <==> (a, ia) in s.chains && s.chains[(a, ia)].Asked?
  {
    var s1, ib := Step(s, Request(b, a, 0)), s.users[b].nextId;
    AskingBackOpens(s, a, ia, b);
    if (a, ia) in s.chains && s.chains[(a, ia)].Asked? {
      ChainInUse(s, a, ia, b);
      AskingBackCrosses(s, a, ia, b);
      forall events
        ensures LinkedWhenOver(Run(s1, events), a, ia, b, ib)
      {
        RunKeepsCrossing(s1, events, a, ia, b, ib);
      }
    } else {
      var events := [Deliver(b, ib, ia), Deliver(a, ia, ib)];
      assert (a, ia) != (b, ib);
      if (a, ia) in s.chains && s.chains[(a, ia)].Refused? {
        RefusalUnlinks(s1, a, ia, b, ib);
      } else {
        TooLateToLink(s1, a, ia, b, ib);
      }
      assert !LinkedWhenOver(Run(s1, events), a, ia, b, ib);
    }
  }

  // ---------------------------------------------------------------- the handlers as they run

  /** The first room with the peer that a walk over the table meets. */
  method FindRoom(user: User, peer: nat) returns (known: bool, found: nat)
    ensures known == Knows(user, peer) && Finds(user, peer, found)
  {
    var rest := user.rooms.Keys;
    known, found := false, 0;
    while rest != {}
      invariant rest <= user.rooms.Keys
      invariant forall id :: id in user.rooms && id !in rest ==> user.rooms[id].peer != peer
      decreases |rest|
    {
      var id :| id in rest;
      if user.rooms[id].peer == peer {
        return true, id;
      }
      rest := rest - {id};
    }
  }

  class ChatTables {
    var users: map<nat, User>
    var chains: map<(nat, nat), Stage>
    var sent: seq<(nat, Response)>

    ghost function View(): State
      reads this
    {
      State(users, chains, sent)
    }

    ghost predicate Valid()
      reads this
    {
      Inv(View())
    }

    constructor (users: map<nat, User>)
      requires forall u :: u in users ==> users[u] == User(map[], 1)
      ensures Valid() && View() == State(users, map[], [])
    {
      this.users, chains, sent := users, map[], [];
    }

    method Send(user: nat, r: Response)
      modifies this`sent
      ensures sent == old(sent) + [(user, r)]
    {
      sent := sent + [(user, r)];
    }

    /** A room under the user's next id. */
    method OpenRoom(u: nat, room: Room) returns (id: nat)
      requires u in users
      modifies this`users
      ensures id == old(users)[u].nextId && users == NewRoom(old(View()), u, room).users
    {
      id := users[u].nextId;
      users := users[u := User(users[u].rooms[id := room], id + 1)];
    }

    method NewDirect(a: nat, b: nat) returns (ghost e: Event)
      requires Valid() && a in users
      modifies this
      ensures Valid() && e.Request? && e.sender == a && e.recipient == b && Enabled(old(View()), e)
      ensures View() == Step(old(View()), e)
    {
      var user := users[a];
      var known, found := FindRoom(user, b);
      e := Request(a, b, found);
      ghost var before := View();
      StepKeepsInv(before, e);
      if b !in users {
        Send(a, UserNotFound);
      } else if |user.rooms| >= MAX_ROOMS {
        Send(a, UserChatLimit);
      } else if known {
        Send(a, ChannelId(user.rooms[found].peerId));
      } else {
        var id := OpenRoom(a, Room(b, 0));
        chains := chains[(a, id) := Asked(b)];
      }
      assert View() == Ask(before, a, b, found);
    }

    /** The request of room `id` of user `a` reaches its recipient. */
    method OnAsked(a: nat, id: nat) returns (ghost e: Event)
      requires Valid() && (a, id) in chains && chains[(a, id)].Asked?
      modifies this
      ensures Valid() && e.Deliver? && e.sender == a && e.id == id && Enabled(old(View()), e)
      ensures View() == Step(old(View()), e)
    {
      assert ChainInv(View(), (a, id));
      var b := chains[(a, id)].recipient;
      var user := users[b];
      var known, found := FindRoom(user, a);
      e := Deliver(a, id, found);
      StepKeepsInv(View(), e);
      if known {
        if user.rooms[found].peerId == 0 {
          users := users[b := user.(rooms := user.rooms[found := user.rooms[found].(peerId := id)])];
        } else {
          Send(a, ChannelId(id));
        }
        chains := chains - {(a, id)};
      } else if |user.rooms| >= MAX_ROOMS {
        chains := chains[(a, id) := Refused(b)];
      } else {
        var recipientId := OpenRoom(b, Room(b, id));
        chains := chains[(a, id) := Accepted(b, recipientId)];
      }
    }

    /** The answer to the request of room `id` gets back to user `a`. */
    method OnAnswered(a: nat, id: nat)
      requires Valid() && (a, id) in chains && !chains[(a, id)].Asked?
      modifies this
      ensures Valid() && exists found :: Enabled(old(View()), Deliver(a, id, found))
                                      && View() == Step(old(View()), Deliver(a, id, found))
    {
      assert ChainInv(View(), (a, id));
      var stage, user := chains[(a, id)], users[a];
      ghost var known, found := FindRoomSomehow(users[stage.recipient], a);
      ghost var before := View();
      StepKeepsInv(before, Deliver(a, id, found));
      match stage {
        case Accepted(b, recipientId) =>
          if id in user.rooms && user.rooms[id].peerId == 0 {
            users := users[a := user.(rooms := user.rooms[id := user.rooms[id].(peerId := recipientId)])];
            Send(a, ChannelId(id));
            Send(b, NewChatChannel(recipientId));
            Send(a, NewChatChannel(recipientId));
          }
        case Refused(_) =>
          users := users[a := user.(rooms := user.rooms - {id})];
          Send(a, RecipientChatLimit);
      }
      chains := chains - {(a, id)};
      assert View() == Step(before, Deliver(a, id, found));
    }
  }

  lemma FindRoomSomehow(user: User, peer: nat) returns (known: bool, found: nat)
    ensures known == Knows(user, peer) && Finds(user, peer, found)
  {
    known, found := Knows(user, peer), 0;
    if known {
      found :| found in user.rooms && user.rooms[found].peer == peer;
    }
  }
}
