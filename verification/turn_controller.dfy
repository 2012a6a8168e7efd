/** The turn controller as it is: every queued user stores its own position, and removing somebody walks the rest of the
    queue to correct the positions.  Each method is proved to do to the queue what TurnQueue says. */
module TurnControllers {
  import opened Options
  import opened SteadyTimers
  import TurnQueue

  /** A connected socket, as far as the turn controller is concerned. */
  class Client {
    var turnQueuePosition: Option<nat>

    constructor ()
      ensures turnQueuePosition == None
    {
      turnQueuePosition := None;
    }
  }

  class TurnController {
    var turnQueue: seq<Client>
    var turnTime: nat
    var pausedTime: Option<nat>
    var turnTimer: Timer<Client>
    var now: int                    // the steady clock
    ghost var known: set<Client>    // every client this controller may meet

    ghost predicate Valid()
      reads this, known
    {
      && (forall i :: 0 <= i < |turnQueue| ==> turnQueue[i] in known && turnQueue[i].turnQueuePosition == Some(i))
      && (forall c :: c in known && c !in turnQueue ==> c.turnQueuePosition == None)
      && (forall c :: c in turnTimer.waits ==> c in known)
      && (forall c :: c in turnTimer.completions ==> c.handler in known)
    }

    ghost function State(): TurnQueue.State<Client>
      reads this
    {
      TurnQueue.State(turnQueue, turnTime, pausedTime, turnTimer, now)
    }

    /** Positions are exactly the places in the queue, and users outside it store none. */
    lemma PositionsAreExact(c: Client)
      requires Valid() && c in known
      ensures TurnQueue.NoDuplicates(turnQueue)
      ensures c in turnQueue <==> c.turnQueuePosition.Some?
      ensures c in turnQueue ==> turnQueue[c.turnQueuePosition.value] == c
    {
      if c in turnQueue {
        var i :| 0 <= i < |turnQueue| && turnQueue[i] == c;
      }
    }

    constructor ()
      ensures Valid() && fresh(this) && known == {}
      ensures State() == TurnQueue.State([], 0, None, Timer(0, [], []), 0)
    {
      turnQueue, turnTime, pausedTime, turnTimer, now, known := [], 0, None, Timer(0, [], []), 0, {};
    }

    /** A client that is in no queue becomes known to the controller. */
    ghost method Meet(c: Client)
      requires Valid() && c.turnQueuePosition.None?
      modifies this`known
      ensures Valid() && known == old(known) + {c} && State() == old(State())
    {
      known := known + {c};
    }

    function TimeRemaining(): int
      reads this
    {
      if turnQueue == [] then 0 else turnTimer.expiry - now
    }

    method UpdateCurrentTurn(timeRemaining: int)
      requires Valid()
      modifies this`turnTimer
      ensures Valid() && State() == TurnQueue.UpdateCurrentTurn(old(State()), timeRemaining)
    {
      if turnQueue == [] {
        return;
      }
      if pausedTime.None? {
        turnTimer := turnTimer.ExpiresAfter(now, timeRemaining);
        turnTimer := turnTimer.AsyncWait(turnQueue[0]);
      }
    }

    method RequestTurn(user: Client) returns (queued: bool)
      requires Valid() && user in known
      modifies this`turnQueue, this`turnTimer, user
      ensures Valid() && State() == TurnQueue.Request(old(State()), user)
      ensures queued == (user !in old(turnQueue))
    {
      PositionsAreExact(user);
      if user.turnQueuePosition.Some? {
        return false;
      }
      turnQueue := turnQueue + [user];
      user.turnQueuePosition := Some(|turnQueue| - 1);
      if user.turnQueuePosition == Some(0) {
        UpdateCurrentTurn(turnTime);
      }
      return true;
    }

    /** The user at `position` has been erased: correct the positions of everyone behind. */
    method MoveUp(position: nat)
      requires TurnQueue.NoDuplicates(turnQueue) && position <= |turnQueue|
      requires forall i :: 0 <= i < |turnQueue| ==>
                 turnQueue[i] in known &&
                 turnQueue[i].turnQueuePosition == Some(if i < position then i else i + 1)
      modifies known
      ensures forall i :: 0 <= i < |turnQueue| ==> turnQueue[i].turnQueuePosition == Some(i)
      ensures forall c :: c in known && c !in turnQueue ==> c.turnQueuePosition == old(c.turnQueuePosition)
    {
      var after := position;
      while after < |turnQueue|
        invariant position <= after <= |turnQueue|
        invariant forall i :: 0 <= i < |turnQueue| ==>
                    turnQueue[i].turnQueuePosition == Some(if i < after then i else i + 1)
        invariant forall c :: c in known && c !in turnQueue ==> c.turnQueuePosition == old(c.turnQueuePosition)
      {
        turnQueue[after].turnQueuePosition := Some(turnQueue[after].turnQueuePosition.value - 1);
        after := after + 1;
      }
    }

    /** Take the user at `position` out of the deque; positions are not touched yet. */
    method Erase(position: nat)
      requires position < |turnQueue| && TurnQueue.NoDuplicates(turnQueue)
      modifies this`turnQueue
      ensures turnQueue == TurnQueue.Without(old(turnQueue), old(turnQueue[position]))
      ensures |turnQueue| == |old(turnQueue)| - 1
      ensures forall i :: 0 <= i < |turnQueue| ==>
                turnQueue[i] == old(turnQueue)[if i < position then i else i + 1]
    {
      TurnQueue.WithoutAt(turnQueue, position);
      turnQueue := turnQueue[..position] + turnQueue[position + 1..];
    }

    method Unqueue(user: Client)
      requires Valid() && user in turnQueue
      modifies this`turnQueue, known
      ensures Valid() && turnQueue == TurnQueue.Without(old(turnQueue), user)
    {
      PositionsAreExact(user);
      TurnQueue.WithoutKeepsOthers(turnQueue, user);
      var position := user.turnQueuePosition.value;
      Erase(position);
      MoveUp(position);
      user.turnQueuePosition := None;
    }

    method RemoveUser(user: Client) returns (removed: bool)
      requires Valid() && user in known
      modifies this`turnQueue, this`turnTimer, known
      ensures Valid() && State() == TurnQueue.Remove(old(State()), user)
      ensures removed == (user in old(turnQueue))
    {
      PositionsAreExact(user);
      if user.turnQueuePosition.None? {
        return false;
      }
      var oldPosition := user.turnQueuePosition.value;
      Unqueue(user);
      if oldPosition == 0 {
        UpdateCurrentTurn(turnTime);
      }
      return true;
    }

    method SetTurnTime(time: nat)
      requires Valid()
      modifies this`turnTime
      ensures Valid() && State() == old(State()).(turnTime := time)
    {
      turnTime := time;
    }

    method PauseTurnTimer()
      requires Valid()
      modifies this`turnTimer, this`pausedTime
      ensures Valid() && State() == TurnQueue.Pause(old(State()))
    {
      var timeRemaining := TimeRemaining();
      var wasRunning := turnTimer.waits != [];
      turnTimer := turnTimer.Cancel();
      pausedTime := Some(if wasRunning && timeRemaining > 0 then timeRemaining else turnTime);
      UpdateCurrentTurn(pausedTime.value);
    }

    method ResumeTurnTimer()
      requires Valid()
      modifies this`turnTimer, this`pausedTime
      ensures Valid() && State() == TurnQueue.Resume(old(State()))
    {
      if pausedTime.Some? {
        var timeRemaining := pausedTime.value;
        pausedTime := None;
        UpdateCurrentTurn(timeRemaining);
      }
    }

    method EndCurrentTurn()
      requires Valid()
      modifies this`turnQueue, this`turnTimer, known
      ensures Valid() && State() == TurnQueue.EndCurrent(old(State()))
    {
      if turnQueue == [] {
        return;
      }
      var _ := RemoveUser(turnQueue[0]);
    }

    method Clear()
      requires Valid()
      modifies this`turnQueue, this`turnTimer, known
      ensures Valid() && State() == TurnQueue.Clear(old(State()))
    {
      turnTimer := turnTimer.Cancel();
      var i := 0;
      while i < |turnQueue|
        modifies known
        invariant 0 <= i <= |turnQueue|
        invariant forall j :: 0 <= j < i ==> turnQueue[j].turnQueuePosition == None
        invariant forall c :: c in known && c !in turnQueue ==> c.turnQueuePosition == None
      {
        turnQueue[i].turnQueuePosition := None;
        i := i + 1;
      }
      turnQueue := [];
    }

    /** The event loop moves time on, or moves due waits to the strand. */
    method Tick()
      requires Valid()
      modifies this`now
      ensures Valid() && State() == TurnQueue.Step(old(State()), TurnQueue.EvTick)
    {
      now := now + 1;
    }

    method FireTimer()
      requires Valid()
      modifies this`turnTimer
      ensures Valid() && State() == TurnQueue.Step(old(State()), TurnQueue.EvFire)
    {
      turnTimer := turnTimer.Fire(now);
    }

    /** The handler of a wait, run from the strand. */
    method RunCompletion(i: nat)
      requires Valid() && i < |turnTimer.completions|
      modifies this`turnQueue, this`turnTimer, known
      ensures Valid() && State() == TurnQueue.Deliver(old(State()), i)
    {
      var completion := turnTimer.completions[i];
      assert completion in turnTimer.completions;
      turnTimer := turnTimer.Take(i);
      if !completion.aborted {
        var _ := RemoveUser(completion.handler);
      }
    }

    method Handle(e: TurnQueue.Event<Client>)
      requires Valid() && (e.EvRequest? || e.EvRemove? ==> e.user in known)
      modifies this`turnQueue, this`turnTime, this`pausedTime, this`turnTimer, this`now, known
      ensures Valid() && State() == TurnQueue.Step(old(State()), e)
    {
      match e {
        case EvRequest(u) => var _ := RequestTurn(u);
        case EvRemove(u) => var _ := RemoveUser(u);
        case EvSetTurnTime(time) => SetTurnTime(time);
        case EvPause => PauseTurnTimer();
        case EvResume => ResumeTurnTimer();
        case EvEndCurrent => EndCurrentTurn();
        case EvClear => Clear();
        case EvTick => Tick();
        case EvFire => FireTimer();
        case EvDeliver(k) => if k < |turnTimer.completions| { RunCompletion(k); }
      }
    }

    /** Any interleaving of calls, ticks, expiries and deliveries, on clients the controller has met. */
    method Run(events: seq<TurnQueue.Event<Client>>)
      requires Valid()
      requires forall e :: e in events && (e.EvRequest? || e.EvRemove?) ==> e.user in known
      modifies this`turnQueue, this`turnTime, this`pausedTime, this`turnTimer, this`now, known
      ensures Valid() && State() == TurnQueue.Run(old(State()), events)
    {
      var i := 0;
      while i < |events|
        invariant 0 <= i <= |events|
        invariant Valid() && TurnQueue.Run(State(), events[i..]) == TurnQueue.Run(old(State()), events)
      {
        assert events[i] in events && events[i..][1..] == events[i + 1..];
        Handle(events[i]);
        i := i + 1;
      }
    }
  }
}
