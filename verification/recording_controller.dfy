/** The recording controller of a machine: it writes filtered messages and snapshots to a file, notes in the header where
    the snapshots start, and rewrites the header in place. */
module Recordings {
  import opened Options
  import opened SteadyTimers
  import opened Bytes
  import opened RecordingFiles
  import RecordingClock

  /** What the filter looks at: messages that are preceded by a timestamp, and guacamole instructions. */
  datatype Kind = Plain | Stamped | Sync | Blob(stream: int) | End(stream: int) | Audio(stream: int) | Input | Display

  /** A framed message, and the framed timestamp that goes before it if its kind asks for one. */
  datatype Message = Message(kind: Kind, bytes: seq<Byte>, stamp: seq<Byte>)

  datatype Capture = Capture(display: bool, audio: bool, input: bool)

  predicate Framed(m: Message) {
    m.bytes != [] && m.stamp != []
  }

  /** Whether a message is recorded, and the streams ignored from then on. */
  function Filter(kind: Kind, ignored: set<int>, capture: Capture): (bool, set<int>) {
    match kind
    case Plain => (true, ignored)
    case Stamped => (true, ignored)
    case Sync => (capture.display || capture.input || capture.audio, ignored)
    case Blob(stream) => (stream !in ignored, ignored)
    case End(stream) => (stream !in ignored, ignored - {stream})
    case Audio(stream) => if capture.audio then (true, ignored) else (false, ignored + {stream})
    case Input => (capture.input, ignored)
    case Display => (capture.display, ignored)
  }

  /** What one message adds to the log. */
  function Entries(m: Message, ignored: set<int>, capture: Capture, opens: bool): seq<Entry> {
    if !Filter(m.kind, ignored, capture).0 then []
    else if m.kind == Stamped then [Entry(m.stamp, false), Entry(m.bytes, opens)]
    else [Entry(m.bytes, opens)]
  }

  function AllEntries(ms: seq<Message>, ignored: set<int>, capture: Capture): seq<Entry> {
    if ms == [] then []
    else Entries(ms[0], ignored, capture, false) + AllEntries(ms[1..], Filter(ms[0].kind, ignored, capture).1, capture)
  }

  /** A snapshot of the channel starts with the list of its users. */
  predicate IsSnapshot(ms: seq<Message>) {
    ms != [] && ms[0].kind == Plain && forall m :: m in ms ==> Framed(m)
  }

  function SnapshotEntries(ms: seq<Message>, capture: Capture): seq<Entry>
    requires IsSnapshot(ms)
  {
    [Entry(ms[0].bytes, true)] + AllEntries(ms[1..], {}, capture)
  }

  lemma OneMoreMessage(log: seq<Entry>, ms: seq<Message>, ignored: set<int>, capture: Capture)
    requires ms != []
    ensures log + AllEntries(ms, ignored, capture)
         == log + Entries(ms[0], ignored, capture, false) + AllEntries(ms[1..], Filter(ms[0].kind, ignored, capture).1, capture)
  {
  }

  /** What drives a recording controller: the event loop, and the calls of its machine. */
  datatype Event =
    | Happens(event: RecordingClock.Event, created: bool)
    | Starts(created: bool)
    | Stops
    | Sets(duration: nat, interval: nat, capture: Capture, created: bool)
    | Writes(message: Message)

  /** What an event means for the clock and for what is captured. */
  function Step(s: RecordingClock.State, capture: Capture, e: Event): (RecordingClock.State, Capture) {
    match e
    case Happens(event, created) => (RecordingClock.Act(s, RecordingClock.Happens(event, created)), capture)
    case Starts(created) => (RecordingClock.Act(s, RecordingClock.Starts(created)), capture)
    case Stops => (RecordingClock.Act(s, RecordingClock.Stops), capture)
    case Sets(duration, interval, next, created) =>
      var captureChanged := capture.display != next.display || capture.audio != next.audio;
      (RecordingClock.Act(s, RecordingClock.Sets(duration, interval, captureChanged, created)), next)
    case Writes(_) => (s, capture)
  }

  function RunAll(s: RecordingClock.State, capture: Capture, events: seq<Event>): (RecordingClock.State, Capture)
    decreases |events|
  {
    if events == [] then (s, capture)
    else
      var (s', capture') := Step(s, capture, events[0]);
      RunAll(s', capture', events[1..])
  }

  /** The file stays the one it was, and only messages are added to it. */
  predicate Passive(e: Event) {
    e.Writes? || (e.Happens? && !e.event.EvDeliverStop? && !e.event.EvDeliverKeyframe?)
  }

  function Written(events: seq<Event>): seq<Message> {
    if events == [] then []
    else (if events[0].Writes? then [events[0].message] else []) + Written(events[1..])
  }

  lemma WrittenNext(log: seq<Entry>, events: seq<Event>, ignored: set<int>, capture: Capture)
    requires events != []
    ensures log + AllEntries(Written(events), ignored, capture) ==
              if events[0].Writes? then
                log + Entries(events[0].message, ignored, capture, false) +
                  AllEntries(Written(events[1..]), Filter(events[0].message.kind, ignored, capture).1, capture)
              else log + AllEntries(Written(events[1..]), ignored, capture)
  {
    if events[0].Writes? {
      assert Written(events)[1..] == Written(events[1..]);
      OneMoreMessage(log, Written(events), ignored, capture);
    } else {
      assert Written(events) == Written(events[1..]);
    }
  }

  datatype Finished = Finished(header: Header, log: seq<Entry>, snapshots: seq<nat>, data: seq<Byte>)

  /** A header that differs in its times alone points where it did. */
  lemma RetimedTablePoints(encode: Encoder, before: Header, after: Header, log: seq<Entry>, snapshots: seq<nat>)
    requires FixedLength(encode) && TablePoints(encode, before, log, snapshots, false)
    requires after.keyframes == before.keyframes && after.keyframesCount == before.keyframesCount
    ensures TablePoints(encode, after, log, snapshots, false)
  {
    assert |encode(after)| == |encode(before)|;
  }

  class RecordingController {
    const vmId: nat
    const encode: Encoder
    var stream: Stream
    var header: Header
    var nextKeyframe: nat
    var stopTimer: Timer<()>
    var keyframeTimer: Timer<()>
    var fileDuration: nat
    var keyframeInterval: nat
    var capture: Capture
    var ignoredStreams: set<int>
    var now: int                      // the steady clock
    ghost var log: seq<Entry>         // what has been recorded in the current file
    ghost var snapshots: seq<nat>     // where in the log the snapshots noted in the header start
    ghost var announced: bool         // a snapshot noted in the header is about to be written
    ghost var finished: seq<Finished> // the files closed so far

    ghost function Clock(): RecordingClock.State
      reads this
    {
      RecordingClock.State(IsRecording(), nextKeyframe, |header.keyframes|, stopTimer, keyframeTimer,
                           fileDuration, keyframeInterval, now)
    }

    ghost predicate WellFormed(f: Finished) {
      && f.data == encode(f.header) + Concat(f.log)
      && TablePoints(encode, f.header, f.log, f.snapshots, false)
    }

    /** While recording, the file is its header followed by everything recorded, the stream stands at its end, and the
        table points at the snapshots. */
    ghost predicate Valid()
      reads this
    {
      && FixedLength(encode)
      && nextKeyframe == header.keyframesCount <= |header.keyframes|
      && (stream.isOpen ==> stream.good)
      && (IsRecording() ==> Layout(encode, header, stream, log) && TablePoints(encode, header, log, snapshots, announced))
      && (forall f :: f in finished ==> WellFormed(f))
    }

    constructor (vmId: nat, encode: Encoder)
      requires FixedLength(encode)
      ensures Valid() && !IsRecording() && !announced && finished == []
    {
      this.vmId, this.encode := vmId, encode;
      stream, header, nextKeyframe := Stream(false, true, [], 0), Header(0, 0, 0, 0, []), 0;
      stopTimer, keyframeTimer, fileDuration, keyframeInterval := Timer(0, [], []), Timer(0, [], []), 0, 0;
      capture, ignoredStreams, now := Capture(false, false, false), {}, 0;
      log, snapshots, announced, finished := [], [], false, [];
    }

    predicate IsRecording()
      reads this
    {
      stream.isOpen && stream.good
    }

    /** Write the header at the front of the file and go back to where the stream stood. */
    method WriteFileHeader()
      modifies this`stream
      ensures old(stream.isOpen && stream.good && stream.put == |stream.data| >= |encode(header)|) ==>
                stream == old(stream).(data := Overlay(old(stream.data), 0, encode(header)))
      ensures old(stream.isOpen && stream.good && stream.data == [] && stream.put == 0) ==>
                stream == old(stream).(data := encode(header), put := |encode(header)|)
      ensures !old(stream.isOpen) ==> !stream.isOpen
    {
      var originalPosition := stream.Tell();
      stream := stream.Seek(0);
      stream := stream.Write(encode(header));
      if originalPosition != 0 {
        stream := stream.Seek(originalPosition);
      }
    }

    method WriteEntry(bytes: seq<Byte>, ghost opens: bool)
      requires Valid() && IsRecording() && bytes != [] && (announced ==> opens)
      modifies this`stream, this`log, this`announced
      ensures Valid() && IsRecording() && !announced && log == old(log) + [Entry(bytes, opens)]
    {
      AppendKeepsLayout(encode, header, stream, log, Entry(bytes, opens));
      AppendKeepsTable(encode, header, log, snapshots, announced, Entry(bytes, opens));
      stream := stream.Write(bytes);
      log, announced := log + [Entry(bytes, opens)], false;
    }

    method ShouldRecordMessage(kind: Kind) returns (record: bool)
      modifies this`ignoredStreams
      ensures (record, ignoredStreams) == Filter(kind, old(ignoredStreams), capture)
    {
      match kind {
        case Plain => return true;
        case Stamped => return true;
        case Sync => return capture.display || capture.input || capture.audio;
        case Blob(stream) => return stream !in ignoredStreams;
        case End(stream) =>
          var erased := stream in ignoredStreams;
          ignoredStreams := ignoredStreams - {stream};
          return !erased;
        case Audio(stream) =>
          if capture.audio {
            return true;
          }
          ignoredStreams := ignoredStreams + {stream};
          return false;
        case Input => return capture.input;
        case Display => return capture.display;
      }
    }

    /** Write a message that is to be recorded, its timestamp first. */
    method WriteStamped(m: Message, ghost opens: bool)
      requires Valid() && IsRecording() && Framed(m) && (announced ==> opens && m.kind == Plain)
      modifies this`stream, this`log, this`announced
      ensures Valid() && IsRecording() && !announced
      ensures log == old(log) + if m.kind == Stamped then [Entry(m.stamp, false), Entry(m.bytes, opens)]
                                else [Entry(m.bytes, opens)]
    {
      if m.kind == Stamped {
        WriteEntry(m.stamp, false);
      }
      WriteEntry(m.bytes, opens);
    }

    method WriteMessage(m: Message, ghost opens: bool)
      requires Valid() && Framed(m) && (announced ==> opens && m.kind == Plain)
      modifies this`stream, this`log, this`announced, this`ignoredStreams
      ensures Valid() && IsRecording() == old(IsRecording()) && (IsRecording() ==> !announced)
      ensures old(IsRecording()) ==> log == old(log) + Entries(m, old(ignoredStreams), capture, opens)
      ensures old(IsRecording()) ==> ignoredStreams == Filter(m.kind, old(ignoredStreams), capture).1
      ensures !old(IsRecording()) ==> unchanged(this)
    {
      if !IsRecording() {
        return;
      }
      var record := ShouldRecordMessage(m.kind);
      if record {
        WriteStamped(m, opens);
      }
    }

    method WriteMessages(ms: seq<Message>)
      requires Valid() && IsRecording() && !announced && forall m :: m in ms ==> Framed(m)
      modifies this`stream, this`log, this`announced, this`ignoredStreams
      ensures Valid() && IsRecording() && !announced
      ensures log == old(log) + AllEntries(ms, old(ignoredStreams), capture)
    {
      var i := 0;
      while i < |ms|
        invariant 0 <= i <= |ms| && Valid() && IsRecording() && !announced
        invariant log + AllEntries(ms[i..], ignoredStreams, capture) ==
                  old(log) + AllEntries(ms, old(ignoredStreams), capture)
      {
        assert ms[i] in ms && ms[i..][1..] == ms[i + 1..];
        ghost var before, ignored := log, ignoredStreams;
        WriteMessage(ms[i], false);
        OneMoreMessage(before, ms[i..], ignored, capture);
        i := i + 1;
      }
    }

    /** The callback that describes the whole channel; nothing happens unless a file is being written. */
    method OnKeyframeInRecording(snapshot: seq<Message>)
      requires Valid() && IsSnapshot(snapshot) && ignoredStreams == {}
      modifies this`stream, this`log, this`announced, this`ignoredStreams
      ensures Valid() && IsRecording() == old(IsRecording()) && (IsRecording() ==> !announced)
      ensures old(IsRecording()) ==> log == old(log) + SnapshotEntries(snapshot, capture)
      ensures !old(IsRecording()) ==> unchanged(this)
    {
      if IsRecording() {
        WriteMessage(snapshot[0], true);
        WriteMessages(snapshot[1..]);
      }
    }

    method StartKeyframeTimer(snapshot: seq<Message>)
      requires Valid() && IsSnapshot(snapshot)
      modifies this`stream, this`log, this`announced, this`ignoredStreams, this`keyframeTimer
      ensures Valid() && Clock() == RecordingClock.StartKeyframeTimer(old(Clock())) && (IsRecording() ==> !announced)
      ensures old(IsRecording()) ==> log == old(log) + SnapshotEntries(snapshot, capture)
      ensures !old(IsRecording()) ==> announced == old(announced)
    {
      ignoredStreams := {};
      OnKeyframeInRecording(snapshot);
      if keyframeInterval == 0 {
        keyframeTimer := keyframeTimer.Cancel();
        return;
      }
      keyframeTimer := keyframeTimer.ExpiresAfter(now, keyframeInterval);
      keyframeTimer := keyframeTimer.AsyncWait(());
    }

    /** Close the file, if one is being written, with the time of its end in the header. */
    method Stop(wallTime: int) returns (stopped: Option<int>)
      requires Valid() && !announced
      modifies this`stream, this`header, this`stopTimer, this`keyframeTimer, this`finished
      ensures Valid() && Clock() == RecordingClock.Stop(old(Clock())) && !IsRecording() && !stream.isOpen
      ensures stopped == if old(IsRecording()) then Some(wallTime) else None
      ensures old(IsRecording()) ==>
                |finished| == |old(finished)| + 1 && finished[..|old(finished)|] == old(finished) &&
                finished[|old(finished)|] ==
                  Finished(old(header).(stopTime := wallTime), log, snapshots, finished[|old(finished)|].data)
      ensures !old(IsRecording()) ==> finished == old(finished)
      ensures old(finished) <= finished
    {
      if !IsRecording() {
        return None;
      }
      keyframeTimer := keyframeTimer.Cancel();
      stopTimer := stopTimer.Cancel();
      CloseFile(wallTime);
      return Some(wallTime);
    }

    /** Note the end in the header and close the file. */
    method CloseFile(wallTime: int)
      requires Valid() && IsRecording() && !announced
      modifies this`stream, this`header, this`finished
      ensures Valid() && !stream.isOpen && header == old(header).(stopTime := wallTime)
      ensures finished == old(finished) + [Finished(header, log, snapshots, stream.data)]
    {
      HeaderRewriteKeepsBody(encode, header, header.(stopTime := wallTime), stream, log);
      RetimedTablePoints(encode, header, header.(stopTime := wallTime), log, snapshots);
      header := header.(stopTime := wallTime);
      WriteFileHeader();
      finished := finished + [Finished(header, log, snapshots, stream.data)];
      stream := stream.(isOpen := false);
    }

    function EmptyTable(): seq<Keyframe>
      reads this
    {
      seq(RecordingClock.TableSize(fileDuration, keyframeInterval), _ => Keyframe(0, 0))
    }

    /** A file has just been created: it gets an empty table, and its end is set. */
    method InitFile(startTime: int)
      requires Valid() && !IsRecording() && !announced
      modifies this`stream, this`header, this`nextKeyframe, this`log, this`snapshots, this`stopTimer
      ensures stream == Stream(true, true, [], 0) && log == [] && snapshots == [] && nextKeyframe == 0
      ensures header == Header(vmId, startTime, 0, 0, EmptyTable())
      ensures stopTimer == old(stopTimer).ExpiresAfter(now, fileDuration).AsyncWait(())
    {
      stream := Stream(true, true, [], 0);
      header := Header(vmId, startTime, 0, 0, EmptyTable());
      nextKeyframe := 0;
      log, snapshots := [], [];
      stopTimer := stopTimer.ExpiresAfter(now, fileDuration);
      stopTimer := stopTimer.AsyncWait(());
    }

    method BeginFile(startTime: int)
      requires Valid() && !IsRecording() && !announced
      modifies this`stream, this`header, this`nextKeyframe, this`log, this`snapshots, this`stopTimer
      ensures Valid() && IsRecording() && log == [] && nextKeyframe == 0
      ensures header == Header(vmId, startTime, 0, 0, EmptyTable())
      ensures stopTimer == old(stopTimer).ExpiresAfter(now, fileDuration).AsyncWait(())
    {
      InitFile(startTime);
      WriteFileHeader();
    }

    /** The clock of a file that has just been begun. */
    ghost function Begun(before: RecordingClock.State): RecordingClock.State {
      before.(recording := true, keyframes := 0, capacity := RecordingClock.TableSize(before.duration, before.interval),
              stopTimer := before.stopTimer.ExpiresAfter(before.now, before.duration).AsyncWait(()))
    }

    method StartFile(startTime: int, snapshot: seq<Message>)
      requires Valid() && !IsRecording() && !announced && IsSnapshot(snapshot) && fileDuration > 0
      modifies this`stream, this`header, this`nextKeyframe, this`log, this`snapshots, this`stopTimer,
               this`announced, this`ignoredStreams, this`keyframeTimer
      ensures Valid() && !announced && Clock() == RecordingClock.Start(old(Clock()), true)
      ensures log == SnapshotEntries(snapshot, capture) && header == Header(vmId, startTime, 0, 0, EmptyTable())
    {
      ghost var before := Clock();
      BeginFile(startTime);
      assert Clock() == Begun(before);
      StartKeyframeTimer(snapshot);
    }

    /** `created` tells whether the new file could be created. */
    method Start(wallTime: int, created: bool, snapshot: seq<Message>)
      requires Valid() && !announced && IsSnapshot(snapshot)
      modifies this
      ensures Valid() && !announced && Clock() == RecordingClock.Start(old(Clock()), created) && capture == old(capture)
      ensures old(finished) <= finished
      ensures old(fileDuration) > 0 && created ==>
                log == SnapshotEntries(snapshot, capture) && header == Header(vmId, wallTime, 0, 0, old(EmptyTable()))
      ensures old(fileDuration) > 0 && old(IsRecording()) ==>
                |finished| == |old(finished)| + 1 && finished[..|old(finished)|] == old(finished) &&
                finished[|old(finished)|].log == old(log)
    {
      if fileDuration == 0 {
        return;
      }
      var stopped := Stop(wallTime);
      var startTime := if stopped.Some? then stopped.value else wallTime;
      if !created {
        return;
      }
      StartFile(startTime, snapshot);
    }

    /** Note in the header, in memory and in the file, that a snapshot starts at the end of the file. */
    method NoteKeyframe(wallTime: int)
      requires Valid() && !announced && nextKeyframe < |header.keyframes|
      modifies this`stream, this`header, this`nextKeyframe, this`snapshots, this`announced
      ensures Valid() && IsRecording() == old(IsRecording()) && announced == IsRecording()
      ensures nextKeyframe == old(nextKeyframe) + 1
      ensures header == old(header).(keyframesCount := old(header).keyframesCount + 1, keyframes := header.keyframes)
      ensures header.keyframes ==
                old(header).keyframes[old(nextKeyframe) := Keyframe(if IsRecording() then |old(stream.data)| else -1, wallTime)]
      ensures IsRecording() ==> snapshots == old(snapshots) + [|log|]
    {
      ghost var before := header;
      header := header.(keyframes := header.keyframes[nextKeyframe := Keyframe(stream.Tell(), wallTime)]);
      nextKeyframe := nextKeyframe + 1;
      header := header.(keyframesCount := header.keyframesCount + 1);
      if IsRecording() {
        HeaderRewriteKeepsBody(encode, before, header, stream, log);
        NewKeyframePoints(encode, before, header, log, snapshots);
        snapshots, announced := snapshots + [|log|], true;
      }
      WriteFileHeader();
    }

    method TakeKeyframe(wallTime: int, snapshot: seq<Message>)
      requires Valid() && !announced && IsSnapshot(snapshot) && nextKeyframe < |header.keyframes|
      modifies this`stream, this`header, this`nextKeyframe, this`snapshots, this`announced, this`log, this`ignoredStreams,
               this`keyframeTimer
      ensures Valid() && !announced
      ensures Clock() == RecordingClock.StartKeyframeTimer(old(Clock()).(keyframes := old(nextKeyframe) + 1))
      ensures old(IsRecording()) ==>
                log == old(log) + SnapshotEntries(snapshot, capture) && snapshots == old(snapshots) + [|old(log)|]
      ensures old(IsRecording()) ==>
                header.keyframes == old(header).keyframes[old(nextKeyframe) := Keyframe(|old(stream.data)|, wallTime)]
      ensures capture == old(capture) && finished == old(finished)
    {
      NoteKeyframe(wallTime);
      StartKeyframeTimer(snapshot);
    }

    /** The handler of a wait on the keyframe timer. */
    method RunKeyframeCompletion(i: nat, wallTime: int, created: bool, snapshot: seq<Message>)
      requires Valid() && !announced && IsSnapshot(snapshot) && i < |keyframeTimer.completions|
      modifies this
      ensures Valid() && Clock() == RecordingClock.DeliverKeyframe(old(Clock()), i, created)
      ensures !announced && capture == old(capture) && old(finished) <= finished
      ensures old(IsRecording() && !keyframeTimer.completions[i].aborted && nextKeyframe < |header.keyframes|) ==>
                log == old(log) + SnapshotEntries(snapshot, capture) && snapshots == old(snapshots) + [|old(log)|]
    {
      var completion := keyframeTimer.completions[i];
      keyframeTimer := keyframeTimer.Take(i);
      if completion.aborted {
        return;
      }
      if nextKeyframe == |header.keyframes| {
        Start(wallTime, created, snapshot);
        return;
      }
      TakeKeyframe(wallTime, snapshot);
    }

    /** The handler of the wait on the stop timer. */
    method RunStopCompletion(i: nat, wallTime: int, created: bool, snapshot: seq<Message>)
      requires Valid() && !announced && IsSnapshot(snapshot) && i < |stopTimer.completions|
      modifies this
      ensures Valid() && !announced && Clock() == RecordingClock.DeliverStop(old(Clock()), i, created)
      ensures capture == old(capture) && old(finished) <= finished
    {
      var completion := stopTimer.completions[i];
      stopTimer := stopTimer.Take(i);
      if completion.aborted {
        var _ := Stop(wallTime);
      } else {
        Start(wallTime, created, snapshot);
      }
    }

    method SetRecordingSettings(duration: nat, interval: nat, newCapture: Capture,
                                wallTime: int, created: bool, snapshot: seq<Message>)
      requires Valid() && !announced && IsSnapshot(snapshot)
      modifies this
      ensures Valid() && !announced && capture == newCapture && old(finished) <= finished
      ensures var captureChanged := old(capture.display) != newCapture.display || old(capture.audio) != newCapture.audio;
              Clock() == RecordingClock.SetSettings(old(Clock()), duration, interval, captureChanged, created)
      ensures old(IsRecording()) && old(stopTimer.expiry - now) >= duration ==>
                && finished == old(finished) && header == old(header)
                && log == old(log) +
                     if old(keyframeInterval) != interval || old(capture.display) != newCapture.display ||
                        old(capture.audio) != newCapture.audio
                     then SnapshotEntries(snapshot, newCapture) else []
      ensures old(IsRecording()) && old(stopTimer.expiry - now) < duration && duration > 0 ==>
                && |finished| == |old(finished)| + 1 && finished[|old(finished)|].log == old(log)
                && (created ==> log == SnapshotEntries(snapshot, newCapture) && header.startTime == wallTime)
      ensures !old(IsRecording()) ==> log == old(log) && finished == old(finished)
    {
      var createKeyframe := keyframeInterval != interval || capture.display != newCapture.display
                            || capture.audio != newCapture.audio;
      capture, fileDuration, keyframeInterval := newCapture, duration, interval;
      if !IsRecording() {
        return;
      }
      var expiration := stopTimer.expiry - now;
      if expiration < fileDuration {
        Start(wallTime, created, snapshot);
        return;
      }
      if createKeyframe {
        StartKeyframeTimer(snapshot);
      }
    }

    // -------------------------------------------------------------- whole runs

    method Tick()
      requires Valid()
      modifies this`now
      ensures Valid() && Clock() == RecordingClock.Step(old(Clock()), RecordingClock.EvTick)
    {
      now := now + 1;
    }

    method FireStopTimer()
      requires Valid()
      modifies this`stopTimer
      ensures Valid() && Clock() == RecordingClock.Step(old(Clock()), RecordingClock.EvFireStop)
    {
      stopTimer := stopTimer.Fire(now);
    }

    method FireKeyframeTimer()
      requires Valid()
      modifies this`keyframeTimer
      ensures Valid() && Clock() == RecordingClock.Step(old(Clock()), RecordingClock.EvFireKeyframe)
    {
      keyframeTimer := keyframeTimer.Fire(now);
    }

    /** The event loop. */
    method Happen(e: RecordingClock.Event, created: bool, wallTime: int, snapshot: seq<Message>)
      requires Valid() && !announced && IsSnapshot(snapshot)
      modifies this
      ensures Valid() && !announced && Clock() == RecordingClock.Act(old(Clock()), RecordingClock.Happens(e, created))
      ensures capture == old(capture) && old(finished) <= finished
      ensures !e.EvDeliverStop? && !e.EvDeliverKeyframe? ==>
                IsRecording() == old(IsRecording()) && log == old(log) && ignoredStreams == old(ignoredStreams)
    {
      match e {
        case EvTick => Tick();
        case EvFireStop => FireStopTimer();
        case EvFireKeyframe => FireKeyframeTimer();
        case EvDeliverStop(i) =>
          if i < |stopTimer.completions| { RunStopCompletion(i, wallTime, created, snapshot); }
        case EvDeliverKeyframe(i) =>
          if i < |keyframeTimer.completions| { RunKeyframeCompletion(i, wallTime, created, snapshot); }
      }
    }

    method Handle(e: Event, wallTime: int, snapshot: seq<Message>)
      requires Valid() && !announced && IsSnapshot(snapshot) && (e.Writes? ==> Framed(e.message))
      modifies this
      ensures Valid() && !announced && (Clock(), capture) == Step(old(Clock()), old(capture), e)
      ensures old(finished) <= finished
      ensures old(IsRecording()) && e.Writes? ==>
                && IsRecording() && log == old(log) + Entries(e.message, old(ignoredStreams), capture, false)
                && ignoredStreams == Filter(e.message.kind, old(ignoredStreams), capture).1
      ensures old(IsRecording()) && Passive(e) && !e.Writes? ==>
                IsRecording() && log == old(log) && ignoredStreams == old(ignoredStreams)
    {
      match e {
        case Happens(event, created) => Happen(event, created, wallTime, snapshot);
        case Starts(created) => Start(wallTime, created, snapshot);
        case Stops => var _ := Stop(wallTime);
        case Sets(duration, interval, newCapture, created) =>
          SetRecordingSettings(duration, interval, newCapture, wallTime, created, snapshot);
        case Writes(message) => WriteMessage(message, false);
      }
    }

    /** What the log will be once the messages still to be written have been. */
    ghost function LogAfter(events: seq<Event>): seq<Entry>
      reads this
    {
      log + AllEntries(Written(events), ignoredStreams, capture)
    }

    method HandleFirst(events: seq<Event>, wallTime: int, snapshot: seq<Message>)
      requires Valid() && !announced && IsSnapshot(snapshot)
      requires events != [] && (events[0].Writes? ==> Framed(events[0].message))
      modifies this
      ensures Valid() && !announced && old(finished) <= finished
      ensures RunAll(Clock(), capture, events[1..]) == RunAll(old(Clock()), old(capture), events)
      ensures old(IsRecording()) && Passive(events[0]) ==>
                IsRecording() && capture == old(capture) && LogAfter(events[1..]) == old(LogAfter(events))
    {
      WrittenNext(log, events, ignoredStreams, capture);
      Handle(events[0], wallTime, snapshot);
    }

    /** Any interleaving of calls, ticks, expiries and deliveries, each with the wall-clock time and the snapshot it finds:
        the timers take the steps of the clock, so that what holds of its runs holds here, every file is well formed, and
        none that is finished is changed or forgotten.  While no file is begun and no snapshot taken, what is added to the
        file is what the messages written add. */
    method Run(events: seq<Event>, wallTimes: seq<int>, snapshotsFound: seq<seq<Message>>)
      requires Valid() && !announced && |wallTimes| == |snapshotsFound| == |events|
      requires forall snapshot :: snapshot in snapshotsFound ==> IsSnapshot(snapshot)
      requires forall e :: e in events && e.Writes? ==> Framed(e.message)
      modifies this
      ensures Valid() && !announced && (Clock(), capture) == RunAll(old(Clock()), old(capture), events)
      ensures old(finished) <= finished && forall f :: f in finished ==> WellFormed(f)
      ensures old(IsRecording()) && (forall e :: e in events ==> Passive(e)) ==>
                IsRecording() && log == old(LogAfter(events))
    {
      ghost var clock, settings, whole := Clock(), capture, LogAfter(events);
      ghost var passive := IsRecording() && forall e :: e in events ==> Passive(e);
      var i := 0;
      assert events[0..] == events;
      while i < |events|
        invariant 0 <= i <= |events| && Valid() && !announced && old(finished) <= finished
        invariant RunAll(Clock(), capture, events[i..]) == RunAll(clock, settings, events)
        invariant passive ==> IsRecording() && LogAfter(events[i..]) == whole
      {
        assert events[i] in events && events[i..][1..] == events[i + 1..];
        HandleFirst(events[i..], wallTimes[i], snapshotsFound[i]);
        i := i + 1;
      }
      assert log + [] == log;
    }
  }
}
