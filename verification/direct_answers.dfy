/** What the users of direct chats are told: that every request is answered once, and that what is told is so. */
module DirectAnswers {
  import opened Counting
  import opened DirectChats

  /** What one event tells, and to whom, in order. */
  ghost function Told(s: State, e: Event): seq<(nat, Response)> {
    if !Enabled(s, e) then []
    else match e
      case Request(a, b, found) =>
        if b !in s.users then [(a, UserNotFound)]
        else if |s.users[a].rooms| >= MAX_ROOMS then [(a, UserChatLimit)]
        else if Knows(s.users[a], b) then [(a, ChannelId(s.users[a].rooms[found].peerId))]
        else []
      case Deliver(a, id, found) =>
        match s.chains[(a, id)]
        case Asked(b) =>
          if Knows(s.users[b], a) && s.users[b].rooms[found].peerId != 0 then [(a, ChannelId(id))] else []
        case Accepted(b, rid) =>
          if id in s.users[a].rooms && s.users[a].rooms[id].peerId == 0 then
            [(a, ChannelId(id)), (b, NewChatChannel(rid)), (a, NewChatChannel(rid))]
          else []
        case Refused(_) => [(a, RecipientChatLimit)]
  }

  /** What has been told is never taken back, and every event adds what it tells. */
  lemma StepTells(s: State, e: Event)
    ensures Step(s, e).sent == s.sent + Told(s, e)
  {
  }

  // ---------------------------------------------------------------- what is told is so

  /** The room of `a` leads to that of `b`, and the room of `b` back to that of `a`. */
  ghost predicate LeadToEachOther(s: State, a: nat, id: nat, b: nat, rid: nat) {
    && HasRoom(s, a, id) && HasRoom(s, b, rid)
    && s.users[a].rooms[id].peerId == rid && s.users[b].rooms[rid].peerId == id
  }

  /** A user who is told of a new channel has just had a room linked with the other user's room, both ways; both users are
      told of it in the same event. */
  lemma AnnouncedRoomsAreLinked(s: State, e: Event, u: nat, rid: nat)
    requires Inv(s) && (u, NewChatChannel(rid)) in Told(s, e)
    ensures e.Deliver? && (e.sender, e.id) in s.chains
    ensures var b := s.chains[(e.sender, e.id)].recipient;
            && (u == e.sender || u == b) && LeadToEachOther(Step(s, e), e.sender, e.id, b, rid)
            && (b, NewChatChannel(rid)) in Told(s, e) && (e.sender, NewChatChannel(rid)) in Told(s, e)
  {
    assert Enabled(s, e) && e.Deliver?;
    ChainIds(s, (e.sender, e.id));
  }

  /** A limit is told exactly when it is reached: the sender's own at the request, the recipient's when the request comes
      back refused, and then the room opened for it is closed again. */
  lemma LimitsAreToldIff(s: State, e: Event)
    requires Inv(s) && Enabled(s, e)
    ensures e.Request? && e.recipient in s.users ==>
              ((e.sender, UserChatLimit) in Told(s, e) <==> |s.users[e.sender].rooms| == MAX_ROOMS)
    ensures e.Request? && Told(s, e) != [] ==> Step(s, e).users == s.users && Step(s, e).chains == s.chains
    ensures e.Deliver? ==>
              ((e.sender, RecipientChatLimit) in Told(s, e) <==> s.chains[(e.sender, e.id)].Refused?)
    ensures e.Deliver? && s.chains[(e.sender, e.id)].Refused? ==> !HasRoom(Step(s, e), e.sender, e.id)
  {
    if e.Request? {
      assert UserInv(e.sender, s.users[e.sender]);
    } else {
      ChainIds(s, (e.sender, e.id));
    }
  }

  /** A request comes back refused exactly when it reached a recipient who has no room with the sender and no place for one. */
  lemma RefusedIff(s: State, e: Event)
    requires Inv(s) && Enabled(s, e) && e.Deliver? && s.chains[(e.sender, e.id)].Asked?
    ensures (e.sender, e.id) in Step(s, e).chains && Step(s, e).chains[(e.sender, e.id)].Refused? <==>
            !Knows(s.users[s.chains[(e.sender, e.id)].recipient], e.sender) &&
            |s.users[s.chains[(e.sender, e.id)].recipient].rooms| == MAX_ROOMS
  {
    var b := s.chains[(e.sender, e.id)].recipient;
    assert UserInv(b, s.users[b]);
  }

  /** The room told in answer to a request is the sender's own, except to a sender who has a room with the recipient
      already: that one is told the room at the other end, which is no room at all while it is unknown. */
  lemma RoomToldIff(s: State, e: Event, x: nat)
    requires Inv(s) && (e.sender, ChannelId(x)) in Told(s, e)
    ensures HasRoom(s, e.sender, if e.Request? then e.found else e.id)
    ensures var own := if e.Request? then e.found else e.id;
            x == own <==> e.Deliver? || s.users[e.sender].rooms[own].peerId == own
    ensures e.Request? ==> (x == 0 <==> s.users[e.sender].rooms[e.found].peerId == 0)
  {
    if e.Deliver? {
      ChainIds(s, (e.sender, e.id));
    }
  }

  // ---------------------------------------------------------------- every request is answered once

  predicate IsAnswer(r: Response) {
    !r.NewChatChannel?
  }

  ghost function Answers(sent: seq<(nat, Response)>): nat {
    if sent == [] then 0 else Answers(sent[..|sent| - 1]) + Bit(IsAnswer(sent[|sent| - 1].1))
  }

  lemma {:induction false} AnswersAppend(sent: seq<(nat, Response)>, more: seq<(nat, Response)>)
    ensures Answers(sent + more) == Answers(sent) + Answers(more)
  {
    if more == [] {
      assert sent + more == sent;
    } else {
      var n := |more| - 1;
      assert (sent + more)[..|sent| + n] == sent + more[..n];
      AnswersAppend(sent, more[..n]);
    }
  }

  lemma AnswersOfOne(x: (nat, Response))
    ensures Answers([x]) == Bit(IsAnswer(x.1))
  {
    assert [x][..0] == [];
  }

  lemma AnswersOfThree(x: (nat, Response), y: (nat, Response), z: (nat, Response))
    ensures Answers([x, y, z]) == Bit(IsAnswer(x.1)) + Bit(IsAnswer(y.1)) + Bit(IsAnswer(z.1))
  {
    AnswersOfOne(x);
    AnswersOfOne(y);
    AnswersOfOne(z);
    AnswersAppend([x], [y]);
    AnswersAppend([x] + [y], [z]);
    assert [x] + [y] + [z] == [x, y, z];
  }

  /** The request ends without a word because the recipient has asked too: its delivery links the room that the recipient
      has opened for the sender, or the recipient's request has already linked the sender's. */
  ghost predicate EndsSilently(s: State, e: Event) {
    && Enabled(s, e) && e.Deliver?
    && match s.chains[(e.sender, e.id)]
       case Asked(b) => Knows(s.users[b], e.sender) && s.users[b].rooms[e.found].peerId == 0
       case Accepted(_, _) => HasRoom(s, e.sender, e.id) && s.users[e.sender].rooms[e.id].peerId != 0
       case Refused(_) => false
  }

  ghost predicate Asks(s: State, e: Event) {
    Enabled(s, e) && e.Request?
  }

  /** A request's handlers are at work as long as there is a chain for it. */
  lemma ChainBegins(s: State, e: Event)
    requires Inv(s) && Asks(s, e)
    ensures |Step(s, e).chains| == |s.chains| + 1 - |Told(s, e)|
  {
    var user := s.users[e.sender];
    if (e.sender, user.nextId) in s.chains {
      ChainIds(s, (e.sender, user.nextId));
    }
  }

  lemma ChainEnds(s: State, e: Event)
    requires Inv(s) && Enabled(s, e) && e.Deliver?
    ensures |Step(s, e).chains| == |s.chains| - Bit(Told(s, e) != [] || EndsSilently(s, e))
  {
    var key := (e.sender, e.id);
    ChainIds(s, key);
    ChainLost(s.chains, key, if key in Step(s, e).chains then Step(s, e).chains[key] else s.chains[key]);
  }

  lemma ChainLost(chains: map<(nat, nat), Stage>, key: (nat, nat), stage: Stage)
    requires key in chains
    ensures |chains - {key}| == |chains| - 1 && |chains[key := stage]| == |chains|
  {
    var rest := chains - {key};
    assert chains == rest[key := chains[key]] && chains[key := stage] == rest[key := stage];
  }

  lemma AnswersToldByStep(s: State, e: Event)
    requires Inv(s)
    ensures Answers(Told(s, e)) == Bit(Told(s, e) != [])
  {
    var told := Told(s, e);
    if |told| == 1 {
      AnswersOfOne(told[0]);
      assert told == [told[0]];
    } else if |told| == 3 {
      AnswersOfThree(told[0], told[1], told[2]);
      assert told == [told[0], told[1], told[2]];
    }
  }

  lemma StepAnswersOnce(s: State, e: Event)
    requires Inv(s)
    ensures Answers(Step(s, e).sent) + |Step(s, e).chains| + Bit(EndsSilently(s, e))
         == Answers(s.sent) + |s.chains| + Bit(Asks(s, e))
  {
    StepTells(s, e);
    AnswersAppend(s.sent, Told(s, e));
    AnswersToldByStep(s, e);
    if Enabled(s, e) {
      if e.Request? {
        ChainBegins(s, e);
      } else {
        ChainEnds(s, e);
      }
      if EndsSilently(s, e) {
        SilentTellsNothing(s, e);
      }
    }
  }

  lemma SilentTellsNothing(s: State, e: Event)
    requires EndsSilently(s, e)
    ensures Told(s, e) == []
  {
  }

  ghost function RequestsMade(s: State, events: seq<Event>): nat
    decreases |events|
  {
    if events == [] then 0 else Bit(Asks(s, events[0])) + RequestsMade(Step(s, events[0]), events[1..])
  }

  ghost function SilentEnds(s: State, events: seq<Event>): nat
    decreases |events|
  {
    if events == [] then 0 else Bit(EndsSilently(s, events[0])) + SilentEnds(Step(s, events[0]), events[1..])
  }

  /** In every run each request has been answered exactly once, is still on its way, or has met one of the other user's
      and ended without a word. */
  lemma {:induction false} EveryRequestIsAnsweredOnce(s: State, events: seq<Event>)
    requires Inv(s)
    ensures Answers(Run(s, events).sent) + |Run(s, events).chains| + SilentEnds(s, events)
         == Answers(s.sent) + |s.chains| + RequestsMade(s, events)
    decreases |events|
  {
    if events != [] {
      StepKeepsInv(s, events[0]);
      StepAnswersOnce(s, events[0]);
      EveryRequestIsAnsweredOnce(Step(s, events[0]), events[1..]);
    }
  }
}
