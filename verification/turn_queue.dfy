/** The turn queue of one virtual machine as a value: who waits, what the turn timer holds, and whether it is paused.
    Positions are not part of this state; the controller that stores a position in every user is proved against it. */
module TurnQueue {
  import opened Options
  import opened SteadyTimers

  // Times are in milliseconds.
  datatype State<U> = State(queue: seq<U>, turnTime: nat, paused: Option<nat>, timer: Timer<U>, now: int)

  ghost predicate NoDuplicates<T>(s: seq<T>) {
    forall i, j :: 0 <= i < j < |s| ==> s[i] != s[j]
  }

  function Without<T(==)>(s: seq<T>, x: T): seq<T> {
    if s == [] then [] else if s[0] == x then s[1..] else [s[0]] + Without(s[1..], x)
  }

  function UpdateCurrentTurn<U>(s: State<U>, time: int): State<U> {
    if s.queue == [] || s.paused.Some? then s
    else s.(timer := s.timer.ExpiresAfter(s.now, time).AsyncWait(s.queue[0]))
  }

  function TimeRemaining<U(==)>(s: State<U>): int {
    if s.queue == [] then 0 else s.timer.expiry - s.now
  }

  function Request<U(==)>(s: State<U>, u: U): State<U> {
    if u in s.queue then s
    else
      var added := s.(queue := s.queue + [u]);
      if s.queue == [] then UpdateCurrentTurn(added, s.turnTime) else added
  }

  function Remove<U(==)>(s: State<U>, u: U): State<U> {
    if u !in s.queue then s
    else
      var removed := s.(queue := Without(s.queue, u));
      if s.queue[0] == u then UpdateCurrentTurn(removed, s.turnTime) else removed
  }

  function PausedTime<U(==)>(s: State<U>): nat {
    if s.timer.waits != [] && TimeRemaining(s) > 0 then TimeRemaining(s) else s.turnTime
  }

  function Pause<U(==)>(s: State<U>): State<U> {
    s.(timer := s.timer.Cancel(), paused := Some(PausedTime(s)))
  }

  function Resume<U>(s: State<U>): State<U> {
    if s.paused.None? then s else UpdateCurrentTurn(s.(paused := None), s.paused.value)
  }

  function EndCurrent<U(==)>(s: State<U>): State<U> {
    if s.queue == [] then s else Remove(s, s.queue[0])
  }

  function Clear<U>(s: State<U>): State<U> {
    s.(timer := s.timer.Cancel(), queue := [])
  }

  /** Run completion `i`: the user captured when the wait was started loses the turn, unless the wait was aborted. */
  function Deliver<U(==)>(s: State<U>, i: nat): State<U>
    requires i < |s.timer.completions|
  {
    var completion := s.timer.completions[i];
    var taken := s.(timer := s.timer.Take(i));
    if completion.aborted then taken else Remove(taken, completion.handler)
  }

  datatype Event<U> =
    | EvRequest(user: U)
    | EvRemove(user: U)
    | EvSetTurnTime(time: nat)
    | EvPause
    | EvResume
    | EvEndCurrent
    | EvClear
    | EvTick
    | EvFire
    | EvDeliver(index: nat)

  function Step<U(==)>(s: State<U>, e: Event<U>): State<U> {
    match e
    case EvRequest(u) => Request(s, u)
    case EvRemove(u) => Remove(s, u)
    case EvSetTurnTime(time) => s.(turnTime := time)
    case EvPause => Pause(s)
    case EvResume => Resume(s)
    case EvEndCurrent => EndCurrent(s)
    case EvClear => Clear(s)
    case EvTick => s.(now := s.now + 1)
    case EvFire => s.(timer := s.timer.Fire(s.now))
    case EvDeliver(i) => if i < |s.timer.completions| then Deliver(s, i) else s
  }

  function Run<U(==)>(s: State<U>, events: seq<Event<U>>): State<U>
    decreases |events|
  {
    if events == [] then s else Run(Step(s, events[0]), events[1..])
  }

  // ---------------------------------------------------------------- what every step keeps

  /** The wait that will end the turn of the user at the head of the queue has not been lost: it is outstanding, or its
      time has come and its completion is waiting on the strand. */
  ghost predicate HeadIsTimed<U>(s: State<U>)
    requires s.queue != []
  {
    || s.timer.waits == [s.queue[0]]
    || (s.timer.waits == [] && s.timer.expiry <= s.now && Completion(s.queue[0], false) in s.timer.completions)
  }

  ghost predicate Inv<U>(s: State<U>) {
    && NoDuplicates(s.queue)
    && |s.timer.waits| <= 1
    && (s.paused.Some? ==> s.timer.waits == [])
    && (s.paused.None? && s.queue != [] ==> HeadIsTimed(s))
  }

  lemma {:induction false} WithoutAt<T>(s: seq<T>, i: nat)
    requires NoDuplicates(s) && i < |s|
    ensures Without(s, s[i]) == s[..i] + s[i + 1..]
  {
    if i > 0 {
      WithoutAt(s[1..], i - 1);
      assert s[1..][..i - 1] == s[1..i] && s[1..][i..] == s[i + 1..];
      assert [s[0]] + s[1..i] == s[..i];
    }
  }

  /** Removing a user keeps everyone else, in order. */
  lemma WithoutKeepsOthers<T>(s: seq<T>, x: T)
    requires NoDuplicates(s) && x in s
    ensures NoDuplicates(Without(s, x)) && x !in Without(s, x)
    ensures |Without(s, x)| == |s| - 1
    ensures forall y :: y != x ==> (y in Without(s, x) <==> y in s)
    ensures s[0] != x ==> Without(s, x)[0] == s[0]
  {
    var i :| 0 <= i < |s| && s[i] == x;
    WithoutAt(s, i);
    RestIsDistinct(s, i);
    forall y | y != x
      ensures y in Without(s, x) <==> y in s
    {
      assert s == s[..i] + [x] + s[i + 1..];
    }
  }

  lemma RestIsDistinct<T>(s: seq<T>, i: nat)
    requires NoDuplicates(s) && i < |s|
    ensures NoDuplicates(s[..i] + s[i + 1..]) && s[i] !in s[..i] + s[i + 1..]
  {
  }

  /** Users in front of the one removed keep their positions, users behind move up by one. */
  lemma WithoutMovesUp<T>(s: seq<T>, i: nat)
    requires NoDuplicates(s) && i < |s|
    ensures |Without(s, s[i])| == |s| - 1
    ensures forall k :: 0 <= k < i ==> Without(s, s[i])[k] == s[k]
    ensures forall k :: i < k < |s| ==> Without(s, s[i])[k - 1] == s[k]
  {
    WithoutAt(s, i);
  }

  lemma RemoveKeepsInv<U>(s: State<U>, u: U)
    requires Inv(s)
    ensures Inv(Remove(s, u))
  {
    if u in s.queue {
      WithoutKeepsOthers(s.queue, u);
    }
  }

  lemma DeliverKeepsInv<U>(s: State<U>, i: nat)
    requires Inv(s) && i < |s.timer.completions|
    ensures Inv(Deliver(s, i))
  {
    var cs := s.timer.completions;
    var taken := s.(timer := s.timer.Take(i));
    forall c | c in cs && c != cs[i]
      ensures c in taken.timer.completions
    {
      var j :| 0 <= j < |cs| && cs[j] == c;
      assert taken.timer.completions[if j < i then j else j - 1] == c;
    }
    if cs[i].aborted || s.queue == [] || cs[i].handler != s.queue[0] || s.paused.Some? {
      assert Inv(taken);
      RemoveKeepsInv(taken, cs[i].handler);
    } else {
      WithoutKeepsOthers(s.queue, s.queue[0]);
    }
  }

  lemma StepKeepsInv<U>(s: State<U>, e: Event<U>)
    requires Inv(s)
    ensures Inv(Step(s, e))
  {
    match e
    case EvRemove(u) => RemoveKeepsInv(s, u);
    case EvEndCurrent => if s.queue != [] { RemoveKeepsInv(s, s.queue[0]); }
    case EvDeliver(i) => if i < |s.timer.completions| { DeliverKeepsInv(s, i); }
    case EvFire =>
      var f := s.timer.Fire(s.now);
      if s.timer.expiry <= s.now && s.paused.None? && s.queue != [] {
        if s.timer.waits == [s.queue[0]] {
          assert f.completions[|s.timer.completions|] == Completion(s.queue[0], false);
        }
      }
    case _ =>
  }

  /** Whatever the order of requests, removals, pauses, settings changes, expiries and late completions, nobody is
      queued twice, at most one wait is outstanding and none while paused, and while somebody is queued and the controller
      runs, the wait for the head is outstanding or its expiry is on its way. */
  lemma {:induction false} RunKeepsInv<U>(s: State<U>, events: seq<Event<U>>)
    requires Inv(s)
    ensures Inv(Run(s, events))
    decreases |events|
  {
    if events != [] {
      StepKeepsInv(s, events[0]);
      RunKeepsInv(Step(s, events[0]), events[1..]);
    }
  }

  // ---------------------------------------------------------------- completions that come too late

  /** A completion that takes a user out of the queue when it is run. */
  ghost predicate Expels<U>(s: State<U>, c: Completion<U>) {
    !c.aborted && c.handler in s.queue
  }

  /** Running a queued completion changes the queue exactly when it is the expiry of the turn of a user who is queued,
      wherever that user stands by then, and whether or not the controller is paused. */
  lemma DeliveryChangesQueueIff<U>(s: State<U>, i: nat)
    requires Inv(s) && i < |s.timer.completions|
    ensures Deliver(s, i).queue != s.queue <==> Expels(s, s.timer.completions[i])
    ensures Expels(s, s.timer.completions[i]) ==> Deliver(s, i).queue == Without(s.queue, s.timer.completions[i].handler)
  {
    if Expels(s, s.timer.completions[i]) {
      WithoutKeepsOthers(s.queue, s.timer.completions[i].handler);
    }
  }

  /** A pause holds the turns, whatever completion is run next, exactly when no expiry of a queued user was on its way
      before: cancelling does not call such a completion back. */
  lemma PauseHoldsIff<U>(s: State<U>)
    requires Inv(s)
    ensures (forall i :: 0 <= i < |Pause(s).timer.completions| ==> Deliver(Pause(s), i).queue == s.queue)
       <==> (forall c :: c in s.timer.completions ==> !Expels(s, c))
  {
    var p, cs := Pause(s), s.timer.completions;
    var holds := forall i :: 0 <= i < |p.timer.completions| ==> Deliver(p, i).queue == s.queue;
    forall i | 0 <= i < |p.timer.completions|
      ensures Deliver(p, i).queue == s.queue <==> !Expels(s, p.timer.completions[i])
      ensures if i < |cs| then p.timer.completions[i] == cs[i] else p.timer.completions[i].aborted
    {
      DeliveryChangesQueueIff(p, i);
    }
    if holds {
      forall c | c in cs
        ensures !Expels(s, c)
      {
        var i :| 0 <= i < |cs| && cs[i] == c;
        assert Deliver(p, i).queue == s.queue;
      }
    }
    if forall c :: c in cs ==> !Expels(s, c) {
      forall i | 0 <= i < |p.timer.completions|
        ensures Deliver(p, i).queue == s.queue
      {
        assert i < |cs| ==> cs[i] in cs;
      }
    }
  }

  /** The turn of a user can end although it has just been resumed with its full time: pausing after the expiry has been
      queued, and resuming, leaves the expiry queued beside the new wait. */
  lemma StaleExpiryStandsBesideTheWait<U>(s: State<U>)
    requires Inv(s) && s.paused.None? && s.queue != [] && s.timer.waits == [s.queue[0]] && s.timer.expiry <= s.now
    ensures var r, i := Run(s, [EvFire, EvPause, EvResume]), |s.timer.completions|;
            && r.queue == s.queue && r.timer.waits == [s.queue[0]] && r.timer.expiry == s.now + s.turnTime
            && i < |r.timer.completions| && r.timer.completions[i] == Completion(s.queue[0], false)
            && Deliver(r, i).queue == s.queue[1..]
  {
    var events: seq<Event<U>> := [EvFire, EvPause, EvResume];
    var f := Step(s, EvFire);
    var p := Pause(f);
    assert f.timer.completions[|s.timer.completions|] == Completion(s.queue[0], false);
    assert events[1..] == [EvPause, EvResume] && events[1..][1..] == [EvResume];
    assert Run(p, [EvResume]) == Resume(p);
    assert Run(f, events[1..]) == Run(p, [EvResume]);
    assert p.timer.completions == f.timer.completions;
  }
}
