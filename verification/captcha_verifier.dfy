/** The pipeline that checks captcha tokens with an outside service, one request at a time. */
module CaptchaVerifiers {
  import opened Options

  datatype Settings = Settings(enabled: bool, https: bool)

  datatype Request = Request(id: nat, token: string, remoteIp: string)

  datatype Answer = Answer(request: Request, success: bool)

  /** What the event loop still has to run for the verifier: completions of its operations, and handlers on their way to
      the strand. */
  datatype Continuation =
    | Resolved(https: bool) | Connected(https: bool) | ShookHands | Written | ReadResponse
    | SendPosted | RetryPosted | RetryTimer | ConnectPosted

  /** What the outside world makes of a completed operation: whether it succeeded, whether a failed connect leaves the
      socket open, and what the response says. */
  datatype Outcome = Outcome(ok: bool, leavesOpen: bool, success: bool)

  /** Continuations that touch neither the requests nor the failure count. */
  predicate Passes(c: Continuation) {
    c.Resolved? || c.Connected? || c.ShookHands? || c.Written? || c.RetryTimer?
  }

  const MAX_FAIL_COUNT := 3

  function Requests(answers: seq<Answer>): seq<Request> {
    seq(|answers|, i requires 0 <= i < |answers| => answers[i].request)
  }

  function Rejections(requests: seq<Request>): seq<Answer> {
    seq(|requests|, i requires 0 <= i < |requests| => Answer(requests[i], false))
  }

  function Current(request: Option<Request>): seq<Request> {
    if request.Some? then [request.value] else []
  }

  /** Those of the requests that have to be checked under the given settings. */
  function Admitted(settings: Option<Settings>, arrivals: seq<Request>): seq<Request> {
    if arrivals == [] then []
    else (if settings.Some? && settings.value.enabled && arrivals[0].token != "" then [arrivals[0]] else [])
         + Admitted(settings, arrivals[1..])
  }

  lemma AdmitNext(before: seq<Request>, settings: Option<Settings>, arrivals: seq<Request>)
    requires arrivals != []
    ensures before + Admitted(settings, arrivals)
         == before + Admitted(settings, [arrivals[0]]) + Admitted(settings, arrivals[1..])
  {
    assert [arrivals[0]][1..] == [];
    assert Admitted(settings, arrivals) == Admitted(settings, [arrivals[0]]) + Admitted(settings, arrivals[1..]);
  }

  lemma {:induction false} AdmittedAppend(settings: Option<Settings>, a: seq<Request>, b: seq<Request>)
    ensures Admitted(settings, a + b) == Admitted(settings, a) + Admitted(settings, b)
  {
    if a == [] {
      assert a + b == b;
    } else {
      assert (a + b)[1..] == a[1..] + b;
      AdmittedAppend(settings, a[1..], b);
    }
  }

  function Concat(arrivals: seq<seq<Request>>): seq<Request> {
    if arrivals == [] then [] else Concat(arrivals[..|arrivals| - 1]) + arrivals[|arrivals| - 1]
  }

  lemma ArrivalsGrow(before: seq<Request>, settings: Option<Settings>, arrivals: seq<seq<Request>>, used: nat)
    requires used < |arrivals|
    ensures before + Admitted(settings, Concat(arrivals[..used])) + Admitted(settings, arrivals[used])
         == before + Admitted(settings, Concat(arrivals[..used + 1]))
  {
    assert arrivals[..used + 1][..used] == arrivals[..used];
    AdmittedAppend(settings, Concat(arrivals[..used]), arrivals[used]);
  }

  datatype Event = EvVerify(request: Request) | EvSetSettings(settings: Settings) | EvDeliver(outcome: Outcome)

  class CaptchaVerifier {
    var request: Option<Request>
    var queue: seq<Request>
    var settings: Option<Settings>
    var pendingSettings: Option<Settings>
    var failedCount: nat
    var streamOpen: bool
    var continuations: seq<Continuation>
    ghost var accepted: seq<Request>     // requests that have to be checked, in order of arrival
    ghost var answers: seq<Answer>       // the answers given to them

    /** The requests accepted are those answered, in the order of their answers, then the current one, then the queue; a
        request is current exactly while one continuation is outstanding, and never more than one is; whoever uses the
        settings finds some. */
    ghost predicate Valid()
      reads this
    {
      && accepted == Requests(answers) + Current(request) + queue
      && |continuations| == |Current(request)|
      && (request.None? ==> queue == [])
      && (request.Some? || streamOpen ==> settings.Some?)
    }

    /** As Valid, but the handler that is running has been taken off the event loop. */
    ghost predicate Running()
      reads this
    {
      && accepted == Requests(answers) + Current(request) + queue
      && continuations == [] && request.Some? && settings.Some?
    }

    constructor ()
      ensures Valid() && accepted == [] && answers == []
    {
      request, queue, settings, pendingSettings, failedCount := None, [], None, None, 0;
      streamOpen, continuations, accepted, answers := false, [], [], [];
    }

    method SetSettings(newSettings: Settings)
      requires Valid()
      modifies this`pendingSettings, this`streamOpen
      ensures Valid() && pendingSettings == Some(newSettings) && !streamOpen
    {
      pendingSettings := Some(newSettings);
      streamOpen := false;
    }

    /** Check a token.  Without enabled settings every token passes, an empty one never does, and any other waits its
        turn. */
    method Verify(r: Request) returns (immediate: Option<bool>)
      requires Valid()
      modifies this
      ensures Valid() && answers == old(answers)
      ensures var current := if old(pendingSettings).Some? then old(pendingSettings) else old(settings);
              immediate == if current.None? || !current.value.enabled then Some(true)
                           else if r.token == "" then Some(false) else None
      ensures accepted == if immediate.None? then old(accepted) + [r] else old(accepted)
      ensures immediate.Some? ==> unchanged(this)
      ensures old(request).Some? ==>
                unchanged(this`request, this`continuations, this`failedCount, this`settings, this`pendingSettings)
      ensures immediate.None? ==>
                if old(request).Some? then queue == old(queue) + [r] && request == old(request) && continuations == old(continuations)
                else queue == old(queue) && request == Some(r) &&
                     continuations == [if old(streamOpen) then Written else Resolved(settings.value.https)]
    {
      var current := if pendingSettings.Some? then pendingSettings else settings;
      if current.None? || !current.value.enabled {
        return Some(true);
      }
      if r.token == "" {
        return Some(false);
      }
      accepted := accepted + [r];
      if request.Some? {
        queue := queue + [r];
        return None;
      }
      request := Some(r);
      if streamOpen {
        SendRequest();
      } else {
        Connect();
      }
      return None;
    }

    /** Start connecting; settings that are waiting are taken over first. */
    method Connect()
      requires accepted == Requests(answers) + Current(request) + queue && continuations == [] && request.Some?
      requires settings.Some? || pendingSettings.Some?
      modifies this`settings, this`pendingSettings, this`failedCount, this`continuations
      ensures Valid() && pendingSettings == None
      ensures settings == if old(pendingSettings).Some? then old(pendingSettings) else old(settings)
      ensures continuations == [Resolved(settings.value.https)]
      ensures failedCount == if old(pendingSettings).Some? then 0 else old(failedCount)
    {
      if pendingSettings.Some? {
        settings, pendingSettings := pendingSettings, None;
        failedCount := 0;
      }
      continuations := continuations + [Resolved(settings.value.https)];
    }

    /** Send the current request; there are settings and a request to send it with. */
    method SendRequest()
      requires accepted == Requests(answers) + Current(request) + queue && continuations == []
      requires settings.Some? && request.Some?
      modifies this`failedCount, this`continuations
      ensures Valid() && failedCount == 0 && continuations == [Written]
    {
      failedCount := 0;
      continuations := continuations + [Written];
    }

    method AnswerCurrent(success: bool)
      requires accepted == Requests(answers) + Current(request) + queue && request.Some?
      modifies this`answers, this`request
      ensures answers == old(answers) + [Answer(old(request.value), success)] && request == None
      ensures accepted == Requests(answers) + queue
    {
      assert Requests(answers + [Answer(request.value, success)]) == Requests(answers) + Current(request);
      answers := answers + [Answer(request.value, success)];
      request := None;
    }

    twostate predicate SamePipeline()
      reads this
    {
      unchanged(this`request, this`queue, this`answers, this`failedCount, this`pendingSettings)
    }

    /** Another failure has been counted; at the limit everything that waited has been rejected, in order. */
    twostate predicate Retried()
      reads this
    {
      && failedCount == old(failedCount) + 1 && pendingSettings == old(pendingSettings)
      && (if failedCount < MAX_FAIL_COUNT then
            request == old(request) && queue == old(queue) && answers == old(answers) && continuations == [RetryTimer]
          else
            request == None && answers == old(answers) + Rejections(old(Current(request) + queue)))
    }

    /** Try again after a while, or, when too much has failed in a row, reject everything that waits. */
    method Retry()
      requires Running()
      modifies this`failedCount, this`request, this`queue, this`continuations, this`answers
      ensures Valid() && Retried()
    {
      failedCount := failedCount + 1;
      if failedCount < MAX_FAIL_COUNT {
        continuations := continuations + [RetryTimer];
        return;
      }
      AnswerCurrent(false);
      var i := 0;
      while queue != []
        invariant |queue| + i == |old(queue)| && queue == old(queue)[i..]
        invariant request == None && continuations == [] && failedCount == old(failedCount) + 1
        invariant accepted == Requests(answers) + queue
        invariant answers == old(answers) + Rejections(old(Current(request)) + old(queue)[..i])
        decreases |queue|
      {
        assert old(queue)[..i + 1] == old(queue)[..i] + [queue[0]];
        assert Requests(answers + [Answer(queue[0], false)]) == Requests(answers) + [queue[0]];
        answers := answers + [Answer(queue[0], false)];
        queue := queue[1..];
        i := i + 1;
      }
      assert old(queue)[..i] == old(queue) && Requests(answers) + [] == Requests(answers);
    }

    /** The response to the current request has been read: answer, and go on with the next. */
    method OnResponse(success: bool)
      requires Running()
      modifies this`answers, this`request, this`queue, this`failedCount, this`continuations
      ensures Valid() && answers == old(answers) + [Answer(old(request.value), success)]
      ensures request == (if old(queue) == [] then None else Some(old(queue)[0]))
      ensures pendingSettings == old(pendingSettings)
    {
      AnswerCurrent(success);
      if queue == [] {
        return;
      }
      request := Some(queue[0]);
      queue := queue[1..];
      SendRequest();
    }

    /** Continuations that only lead to the next one. */
    method Advance(continuation: Continuation, outcome: Outcome)
      requires Running() && Passes(continuation)
      modifies this`continuations, this`streamOpen
      ensures Valid() && SamePipeline()
      ensures match continuation
              case Resolved(https) => continuations == [Connected(https)]
              case Connected(https) =>
                continuations == [if !outcome.ok then RetryPosted else if https then ShookHands else SendPosted]
              case ShookHands => continuations == [if outcome.ok then SendPosted else RetryPosted]
              case Written => continuations == [if outcome.ok then ReadResponse else RetryPosted]
              case _ => continuations == [ConnectPosted]
      ensures streamOpen == if continuation.Connected? then outcome.ok || outcome.leavesOpen else old(streamOpen)
    {
      match continuation {
        case Resolved(https) =>
          continuations := continuations + [Connected(https)];
        case Connected(https) =>
          streamOpen := outcome.ok || outcome.leavesOpen;
          if !outcome.ok {
            continuations := continuations + [RetryPosted];
          } else if !https {
            continuations := continuations + [SendPosted];
          } else {
            continuations := continuations + [ShookHands];
          }
        case ShookHands =>
          continuations := continuations + [if outcome.ok then SendPosted else RetryPosted];
        case Written =>
          continuations := continuations + [if outcome.ok then ReadResponse else RetryPosted];
        case RetryTimer =>
          continuations := continuations + [ConnectPosted];
      }
    }

    /** Run the continuation that is outstanding. */
    method Deliver(outcome: Outcome)
      requires Valid() && continuations != []
      modifies this
      ensures Valid() && accepted == old(accepted) && old(answers) <= answers
      ensures old(pendingSettings).None? ==> pendingSettings.None? && settings == old(settings)
      ensures var c := old(continuations[0]);
              && (Passes(c) ==> SamePipeline())
              && (c.Resolved? ==> continuations == [Connected(c.https)])
              && (c.Connected? && !outcome.ok ==> continuations == [RetryPosted])
              && (c.RetryTimer? ==> continuations == [ConnectPosted])
              && (c.ConnectPosted? && old(pendingSettings).None? ==>
                    SamePipeline() && continuations == [Resolved(old(settings).value.https)])
      ensures old(continuations[0]).SendPosted? ==>
                request == old(request) && queue == old(queue) && answers == old(answers) && continuations == [Written]
      ensures old(continuations[0]).RetryPosted? || (old(continuations[0]).ReadResponse? && !outcome.ok) ==> Retried()
      ensures old(continuations[0]).ReadResponse? && outcome.ok ==>
                answers == old(answers) + [Answer(old(request.value), outcome.success)]
    {
      var continuation := continuations[0];
      continuations := continuations[1..];
      match continuation {
        case SendPosted => SendRequest();
        case ReadResponse =>
          if outcome.ok {
            OnResponse(outcome.success);
          } else {
            Retry();
          }
        case RetryPosted => Retry();
        case ConnectPosted => Connect();
        case _ => Advance(continuation, outcome);
      }
    }

    /** A request that arrives while another is being checked joins the queue if it has to be checked itself. */
    method VerifyNext(r: Request)
      requires Valid() && request.Some? && pendingSettings == None
      modifies this
      ensures Valid() && unchanged(this`request, this`continuations, this`failedCount, this`settings, this`answers)
      ensures pendingSettings == None && accepted == old(accepted) + Admitted(settings, [r])
    {
      assert [r][1..] == [];
      var _ := Verify(r);
      assert accepted == old(accepted) + Admitted(settings, [r]);
    }

    method VerifyAll(arrivals: seq<Request>)
      requires Valid() && request.Some? && pendingSettings == None
      modifies this
      ensures Valid() && unchanged(this`request, this`continuations, this`failedCount, this`settings, this`answers)
      ensures pendingSettings == None && accepted == old(accepted) + Admitted(settings, arrivals)
    {
      var i := 0;
      assert arrivals[0..] == arrivals;
      while i < |arrivals|
        invariant 0 <= i <= |arrivals| && Valid() && request.Some? && pendingSettings == None
        invariant unchanged(this`request, this`continuations, this`failedCount, this`settings, this`answers)
        invariant accepted + Admitted(settings, arrivals[i..]) == old(accepted) + Admitted(settings, arrivals)
      {
        assert arrivals[i..][1..] == arrivals[i + 1..] && arrivals[i..][0] == arrivals[i];
        AdmitNext(accepted, settings, arrivals[i..]);
        VerifyNext(arrivals[i]);
        i := i + 1;
      }
      assert accepted + [] == accepted;
    }

    /** Requests arrive, and then the outstanding continuation fails. */
    method ArriveAndFail(arrivals: seq<Request>)
      requires Valid() && pendingSettings == None && continuations != []
      requires var c := continuations[0];
               c.Resolved? || c.Connected? || c.RetryPosted? || c.RetryTimer? || c.ConnectPosted?
      modifies this
      ensures Valid() && pendingSettings == None && settings == old(settings)
      ensures accepted == old(accepted) + Admitted(old(settings), arrivals)
      ensures var c := old(continuations[0]);
              if c.RetryPosted? then
                && failedCount == old(failedCount) + 1
                && if failedCount < MAX_FAIL_COUNT then answers == old(answers) && continuations == [RetryTimer]
                   else answers == old(answers) + Rejections(accepted[|old(answers)|..]) && request == None
              else
                && failedCount == old(failedCount) && answers == old(answers)
                && continuations == [if c.Resolved? then Connected(c.https) else if c.Connected? then RetryPosted
                                     else if c.RetryTimer? then ConnectPosted else Resolved(settings.value.https)]
    {
      VerifyAll(arrivals);
      assert |Requests(answers)| == |answers|;
      assert accepted[|answers|..] == Current(request) + queue;
      Deliver(Outcome(false, false, false));
    }

    /** Unless settings change or a connect succeeds, everything accepted is rejected, in order and with all that arrives
        meanwhile, by the third failed connect in a row; after that the next request is rejected by its first. `arrivals`
        are the requests before each of the five steps from one connect to the next. */
    method FailToConnect(attempts: nat, arrivals: seq<seq<Request>>)
      requires Valid() && pendingSettings == None && continuations != [] && continuations[0].Resolved?
      requires attempts > 0 && failedCount + attempts == (if failedCount < MAX_FAIL_COUNT then MAX_FAIL_COUNT else failedCount + 1)
      requires |arrivals| == 5 * attempts - 2
      modifies this
      ensures Valid() && request == None && old(accepted) <= accepted
      ensures accepted == old(accepted) + Admitted(old(settings), Concat(arrivals))
      ensures answers == old(answers) + Rejections(accepted[|old(answers)|..])
    {
      var left, used := attempts, 0;
      assert arrivals[..0] == [] && old(accepted) + [] == old(accepted);
      while left > 0
        invariant used == (if left > 0 then 5 * (attempts - left) else |arrivals|) && used <= |arrivals|
        invariant Valid() && pendingSettings == None && settings == old(settings)
        invariant accepted == old(accepted) + Admitted(settings, Concat(arrivals[..used]))
        invariant left > 0 ==>
                    failedCount == old(failedCount) + attempts - left && answers == old(answers) &&
                    continuations != [] && continuations[0].Resolved?
        invariant left == 0 ==> request == None && answers == old(answers) + Rejections(accepted[|old(answers)|..])
      {
        used := NextFails(old(accepted), arrivals, used);    // resolved
        used := NextFails(old(accepted), arrivals, used);    // not connected
        used := NextFails(old(accepted), arrivals, used);    // counted
        left := left - 1;
        if left > 0 {
          used := NextFails(old(accepted), arrivals, used);  // waited
          used := NextFails(old(accepted), arrivals, used);  // connecting again
        }
      }
      assert arrivals[..used] == arrivals;
    }

    /** One of the steps, with the requests that arrive before it. */
    method NextFails(ghost before: seq<Request>, arrivals: seq<seq<Request>>, used: nat) returns (next: nat)
      requires used < |arrivals| && Valid() && pendingSettings == None && continuations != []
      requires var c := continuations[0];
               c.Resolved? || c.Connected? || c.RetryPosted? || c.RetryTimer? || c.ConnectPosted?
      requires accepted == before + Admitted(settings, Concat(arrivals[..used]))
      modifies this
      ensures next == used + 1 && Valid() && pendingSettings == None && settings == old(settings)
      ensures old(accepted) <= accepted && |old(answers)| <= |accepted|
      ensures accepted == before + Admitted(settings, Concat(arrivals[..next]))
      ensures var c := old(continuations[0]);
              if c.RetryPosted? then
                && failedCount == old(failedCount) + 1
                && if failedCount < MAX_FAIL_COUNT then answers == old(answers) && continuations == [RetryTimer]
                   else answers == old(answers) + Rejections(accepted[|old(answers)|..]) && request == None
              else
                && failedCount == old(failedCount) && answers == old(answers)
                && continuations == [if c.Resolved? then Connected(c.https) else if c.Connected? then RetryPosted
                                     else if c.RetryTimer? then ConnectPosted else Resolved(settings.value.https)]
    {
      ArrivalsGrow(before, settings, arrivals, used);
      assert |Requests(answers)| == |answers|;
      ArriveAndFail(arrivals[used]);
      next := used + 1;
    }

    /** Any interleaving of requests, settings changes and completions. */
    method Run(events: seq<Event>)
      requires Valid()
      modifies this
      ensures Valid() && old(accepted) <= accepted && old(answers) <= answers
    {
      var i := 0;
      while i < |events|
        invariant 0 <= i <= |events| && Valid() && old(accepted) <= accepted && old(answers) <= answers
      {
        match events[i] {
          case EvVerify(r) => var _ := Verify(r);
          case EvSetSettings(s) => SetSettings(s);
          case EvDeliver(outcome) => if continuations != [] { Deliver(outcome); }
        }
        i := i + 1;
      }
    }
  }
}
