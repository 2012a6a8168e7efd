/** One lifetime of a guacamole client: its thread writes instructions while the strand may stop it.  They share an atomic
    state; everything between two accesses to shared data is one step, so a run is any interleaving of the steps. */
module GuacamoleHandshake {
  import opened Counting

  datatype Atomic = Stopped | Starting | Running | Stopping

  /** Disconnect stands for the disconnect and error instructions, Image for an image on layer 0. */
  datatype Instruction = Nop | Image | Disconnect | Other

  /** The write handler installed on the broadcast socket. */
  datatype Handler = FirstWrite | AwaitImage | Plain

  /** What the thread does next: its compare-exchange may have succeeded, or found that a stop was asked for. */
  datatype Thread = Writing | StartedClient | FoundStopping | Exiting | Gone

  datatype Task = OnStart | Release

  datatype State = State(
    atomic: Atomic,
    handler: Handler, thread: Thread,
    stopDue: bool,             // the strand has seen Running and is about to call guac_client_stop
    posted: seq<Task>,         // posted to the strand, not yet run
    released: bool,            // the client has been freed
    // what has happened so far
    imageSeen: bool,           // the layer-0 image has been handled
    startsPosted: nat,
    startsRun: nat,            // posted starts the strand has run
    stopCalls: nat,            // calls of guac_client_stop
    stoppedTooLate: bool,      // one of them on a released client
    stopAsked: bool,           // Stop() has run
    stopHeeded: bool,          // Stop() has run while Starting or Running
    disconnected: bool)        // a disconnect or error instruction has been written

  const CREATED := State(Starting, FirstWrite, Writing, false, [], false, false, 0, 0, 0, false, false, false, false)

  datatype Event =
    | EvStop                       // the strand: exchange the state
    | EvStopClient                 // the strand: call guac_client_stop
    | EvRunTask(active: bool)      // the strand: run the next posted task; a start that is no longer wanted is stopped
    | EvWrite(instr: Instruction)  // the thread: the write handler, up to its first access to shared data
    | EvAfterImage                 // the thread: what the outcome of the compare-exchange calls for
    | EvExit                       // the thread: its destructor stores Stopped
    | EvPostRelease                // the thread: its destructor posts the release

  function CallStopClient(s: State): State {
    s.(stopCalls := s.stopCalls + 1, stoppedTooLate := s.stoppedTooLate || s.released)
  }

  function Stop(s: State): State {
    s.(atomic := Stopping, stopDue := s.atomic == Running, stopAsked := true,
       stopHeeded := s.stopHeeded || s.atomic == Starting || s.atomic == Running)
  }

  function SocketWrite(s: State, instr: Instruction): State {
    if instr == Disconnect then s.(atomic := Stopping, disconnected := true) else s
  }

  function Write(s: State, instr: Instruction): State {
    match s.handler
    case FirstWrite => if instr == Nop then s else SocketWrite(s.(handler := AwaitImage), instr)
    case AwaitImage =>
      if instr != Image then SocketWrite(s, instr)
      else if s.atomic == Starting then s.(atomic := Running, thread := StartedClient, imageSeen := true)
      else if s.atomic == Stopping then s.(thread := FoundStopping, imageSeen := true)
      else s.(handler := Plain, imageSeen := true)
    case Plain => SocketWrite(s, instr)
  }

  function Step(s: State, e: Event): State {
    match e
    case EvStop => if s.stopDue then s else Stop(s)
    case EvStopClient => if s.stopDue then CallStopClient(s).(stopDue := false) else s
    case EvRunTask(active) =>
      if s.stopDue || s.posted == [] then s
      else
        var rest := s.(posted := s.posted[1..]);
        if s.posted[0] == Release then rest.(released := true)
        else
          var ran := rest.(startsRun := s.startsRun + 1);
          if active then ran else Stop(ran)
    case EvWrite(instr) => if s.thread == Writing then Write(s, instr) else s
    case EvAfterImage =>
      if s.thread == StartedClient then
        s.(posted := s.posted + [OnStart], startsPosted := s.startsPosted + 1, handler := Plain, thread := Writing)
      else if s.thread == FoundStopping then CallStopClient(s).(handler := Plain, thread := Writing)
      else s
    case EvExit =>
      // the destructor is registered by the first write
      if s.thread == Writing && s.handler != FirstWrite then s.(atomic := Stopped, thread := Exiting) else s
    case EvPostRelease => if s.thread == Exiting then s.(posted := s.posted + [Release], thread := Gone) else s
  }

  function Run(s: State, events: seq<Event>): State
    decreases |events|
  {
    if events == [] then s else Run(Step(s, events[0]), events[1..])
  }

  // ---------------------------------------------------------------- what every interleaving keeps

  /** Calls of guac_client_stop made or about to be made. */
  function StopsCommitted(s: State): nat {
    s.stopCalls + Bit(s.stopDue) + Bit(s.thread == FoundStopping)
  }

  /** Reports of a start posted or about to be posted. */
  function StartsCommitted(s: State): nat {
    s.startsPosted + Bit(s.thread == StartedClient)
  }

  ghost predicate Alive(s: State) {
    s.thread != Exiting && s.thread != Gone
  }

  /** Tasks of a kind that are posted and not yet run. */
  function Count(posted: seq<Task>, task: Task): nat {
    if posted == [] then 0 else Bit(posted[0] == task) + Count(posted[1..], task)
  }

  lemma {:induction false} CountAppend(posted: seq<Task>, last: Task, task: Task)
    ensures Count(posted + [last], task) == Count(posted, task) + Bit(last == task)
  {
    if posted == [] {
      assert posted + [last] == [last];
    } else {
      assert (posted + [last])[1..] == posted[1..] + [last];
      CountAppend(posted[1..], last, task);
    }
  }

  lemma {:induction false} CountsMembers(posted: seq<Task>, task: Task)
    ensures Count(posted, task) > 0 <==> task in posted
  {
    if posted != [] {
      assert posted == [posted[0]] + posted[1..];
      CountsMembers(posted[1..], task);
    }
  }

  /** A start that is posted stays posted until the strand has run it, and so does the release once the thread is gone. */
  ghost predicate NothingPostedIsLost(s: State) {
    && s.startsPosted == s.startsRun + Count(s.posted, OnStart)
    && (s.thread == Gone ==> s.released || Release in s.posted)
  }

  /** A client whose state has become Running is reported started. */
  ghost predicate RunningIsReported(s: State) {
    && (s.atomic == Running ==> StartsCommitted(s) == 1)
    && (s.thread == FoundStopping ==> s.startsPosted == 0)
  }

  ghost predicate ImageIsHandledOnce(s: State) {
    && s.imageSeen == (s.handler == Plain || s.thread == StartedClient || s.thread == FoundStopping)
    && (s.thread == StartedClient || s.thread == FoundStopping ==> s.handler == AwaitImage)
    && StartsCommitted(s) <= Bit(s.imageSeen)
  }

  /** The atomic state says what has happened: as long as the thread lives, nobody has asked for a stop and nothing has
      been disconnected exactly when it is Starting or Running, and which of the two tells whether the image was seen. */
  ghost predicate AtomicTellsHistory(s: State) {
    && (Alive(s) ==> s.atomic != Stopped && ((s.atomic == Starting || s.atomic == Running) <==> !s.stopAsked && !s.disconnected))
    && (s.atomic == Starting ==> Alive(s) && !s.imageSeen)
    && (s.atomic == Running ==> Alive(s) && s.imageSeen)
  }

  ghost predicate StopsAreCounted(s: State) {
    && StopsCommitted(s) <= 1
    && (!s.imageSeen || s.atomic == Running ==> StopsCommitted(s) == 0)
    && (s.stopHeeded && s.imageSeen ==> StopsCommitted(s) == 1)
    && (s.stopHeeded ==> s.stopAsked)
    && (s.stopDue || (s.stopAsked && !s.disconnected && Alive(s)) ==> s.stopHeeded)
  }

  ghost predicate ReleaseComesLast(s: State) {
    && (s.released || Release in s.posted ==> s.thread == Gone)
    && (s.released ==> Release !in s.posted && !s.stopDue)
    && (forall i :: 0 <= i < |s.posted| - 1 ==> s.posted[i] != Release)
    && !s.stoppedTooLate
  }

  ghost predicate Inv(s: State) {
    && ImageIsHandledOnce(s) && AtomicTellsHistory(s) && StopsAreCounted(s) && ReleaseComesLast(s)
    && NothingPostedIsLost(s) && RunningIsReported(s)
  }

  /** What has happened stays so: a stop that has been heeded, the image, whether its client is reported started, and the
      stop call it has led to. */
  ghost predicate Settled(before: State, after: State) {
    && (before.stopHeeded ==> after.stopHeeded)
    && (before.imageSeen ==> after.imageSeen && StartsCommitted(after) == StartsCommitted(before))
    && before.stopCalls + Bit(before.thread == FoundStopping) <= after.stopCalls + Bit(after.thread == FoundStopping)
  }

  lemma StopKeepsInv(s: State, e: Event)
    requires Inv(s) && (e.EvStop? || e.EvStopClient?)
    ensures Inv(Step(s, e)) && Settled(s, Step(s, e))
  {
  }

  lemma TaskKeepsInv(s: State, active: bool)
    requires Inv(s)
    ensures Inv(Step(s, EvRunTask(active))) && Settled(s, Step(s, EvRunTask(active)))
  {
    if s.posted != [] {
      assert s.posted == [s.posted[0]] + s.posted[1..];
      assert s.posted[0] == Release ==> |s.posted| == 1;
    }
  }

  lemma WriteKeepsInv(s: State, instr: Instruction)
    requires Inv(s)
    ensures Inv(Step(s, EvWrite(instr))) && Settled(s, Step(s, EvWrite(instr)))
  {
  }

  lemma OutcomeKeepsInv(s: State)
    requires Inv(s)
    ensures Inv(Step(s, EvAfterImage)) && Settled(s, Step(s, EvAfterImage))
  {
    CountAppend(s.posted, OnStart, OnStart);
  }

  lemma ExitKeepsInv(s: State, e: Event)
    requires Inv(s) && (e.EvExit? || e.EvPostRelease?)
    ensures Inv(Step(s, e)) && Settled(s, Step(s, e))
  {
    CountAppend(s.posted, Release, OnStart);
  }

  lemma StepKeepsInv(s: State, e: Event)
    requires Inv(s)
    ensures Inv(Step(s, e)) && Settled(s, Step(s, e))
  {
    match e
    case EvWrite(instr) => WriteKeepsInv(s, instr);
    case EvStop => StopKeepsInv(s, e);
    case EvStopClient => StopKeepsInv(s, e);
    case EvRunTask(active) => TaskKeepsInv(s, active);
    case EvAfterImage => OutcomeKeepsInv(s);
    case _ => ExitKeepsInv(s, e);
  }

  /** Over any interleaving the invariant holds, and what is settled stays settled. */
  lemma {:induction false} RunKeepsInv(s: State, events: seq<Event>)
    requires Inv(s)
    ensures Inv(Run(s, events)) && Settled(s, Run(s, events))
    decreases |events|
  {
    if events != [] {
      var t := Step(s, events[0]);
      StepKeepsInv(s, events[0]);
      RunKeepsInv(t, events[1..]);
    }
  }

  lemma CreatedKeepsInv(events: seq<Event>)
    ensures Inv(Run(CREATED, events))
  {
    var s := CREATED;
    assert Inv(s);
    RunKeepsInv(s, events);
  }

  /** In every interleaving the client is reported started at most once, guac_client_stop is called at most once, and
      never on a released client. */
  lemma StartsAndStopsAtMostOnce(events: seq<Event>)
    ensures Run(CREATED, events).startsPosted <= 1
    ensures Run(CREATED, events).stopCalls <= 1
    ensures !Run(CREATED, events).stoppedTooLate
  {
    CreatedKeepsInv(events);
  }

  /** In every interleaving a client whose image has been handled, whose thread lives and has done what the image calls
      for, and which nobody has stopped or disconnected, has been reported started exactly once. */
  lemma UnstoppedClientIsReported(events: seq<Event>)
    requires var s := Run(CREATED, events);
             s.imageSeen && s.thread == Writing && !s.stopAsked && !s.disconnected
    ensures Run(CREATED, events).startsPosted == 1
    ensures Run(CREATED, events).startsRun == 0 ==> OnStart in Run(CREATED, events).posted
  {
    var s := Run(CREATED, events);
    CreatedKeepsInv(events);
    CountsMembers(s.posted, OnStart);
  }

  /** In every interleaving, each start that has been posted is either still posted or has been run, and a client whose
      thread is gone is freed or about to be. */
  lemma PostedTasksAreRun(events: seq<Event>)
    ensures var s := Run(CREATED, events);
            && s.startsPosted == s.startsRun + Count(s.posted, OnStart)
            && (s.thread == Gone ==> s.released || Release in s.posted)
  {
    CreatedKeepsInv(events);
  }

  /** The thread is about to handle the layer-0 image. */
  ghost predicate ImageIsNext(s: State) {
    s.thread == Writing && s.handler == AwaitImage
  }

  lemma OutcomeOfImage(s: State, after: seq<Event>)
    requires Inv(s) && ImageIsNext(s)
    requires var t := Run(Step(s, EvWrite(Image)), after); t.thread != StartedClient && t.thread != FoundStopping
    ensures var t := Run(Step(s, EvWrite(Image)), after);
            && t.startsPosted == (if s.stopAsked || s.disconnected then 0 else 1)
            && (s.stopAsked || s.disconnected ==> t.stopCalls == 1)
  {
    var image := Step(s, EvWrite(Image));
    StepKeepsInv(s, EvWrite(Image));
    ImageDecides(s);
    RunKeepsInv(image, after);
  }

  lemma ImageDecides(s: State)
    requires Inv(s) && ImageIsNext(s)
    ensures var t := Step(s, EvWrite(Image));
            && t.imageSeen
            && StartsCommitted(t) == (if s.stopAsked || s.disconnected then 0 else 1)
            && (s.stopAsked || s.disconnected ==> t.thread == FoundStopping && StopsCommitted(t) == 1)
  {
  }

  /** Whatever is asked for or written before and after, the client is reported started exactly when nobody had asked for
      a stop and nothing had been disconnected at the moment its image was handled; otherwise it is stopped then. */
  lemma StartIsReportedIff(before: seq<Event>, after: seq<Event>)
    requires ImageIsNext(Run(CREATED, before))
    requires var t := Run(Step(Run(CREATED, before), EvWrite(Image)), after);
             t.thread != StartedClient && t.thread != FoundStopping
    ensures var s, t := Run(CREATED, before), Run(Step(Run(CREATED, before), EvWrite(Image)), after);
            && t.startsPosted == (if s.stopAsked || s.disconnected then 0 else 1)
            && (s.stopAsked || s.disconnected ==> t.stopCalls == 1)
  {
    CreatedKeepsInv(before);
    OutcomeOfImage(Run(CREATED, before), after);
  }

  /** A start that is run when the client is no longer wanted asks for a stop, as a call of Stop would. */
  lemma UnwantedStartIsStopped(s: State)
    requires Inv(s) && !s.stopDue && s.posted != [] && s.posted[0] == OnStart
    ensures var t := Step(s, EvRunTask(false));
            && t.stopAsked && t.startsRun == s.startsRun + 1 && t.posted == s.posted[1..]
            && (s.atomic == Running ==> Step(t, EvStopClient).stopCalls == 1)
    ensures Step(s, EvRunTask(true)).stopAsked == s.stopAsked
  {
  }

  /** A stop asked for at any moment, before the thread has exited or written a disconnect or error instruction, is never
      lost: in every continuation in which the layer-0 image is handled, guac_client_stop is called exactly once, as soon
      as neither side is about to call it. */
  lemma StopIsNeverLost(before: seq<Event>, after: seq<Event>)
    requires var s := Run(CREATED, before);
             !s.disconnected && Alive(s)
    requires var t := Run(Step(Run(CREATED, before), EvStop), after);
             t.imageSeen && !t.stopDue && t.thread != FoundStopping
    ensures Run(Step(Run(CREATED, before), EvStop), after).stopCalls == 1
  {
    var s := Run(CREATED, before);
    CreatedKeepsInv(before);
    StepKeepsInv(s, EvStop);
    RunKeepsInv(Step(s, EvStop), after);
  }

  /** A client that is never stopped and never disconnects is not stopped by the handshake. */
  lemma NoStopUnasked(events: seq<Event>)
    requires var s := Run(CREATED, events); !s.stopAsked && !s.disconnected && Alive(s)
    ensures Run(CREATED, events).stopCalls == 0
  {
    CreatedKeepsInv(events);
  }
}
