/** Which of the messages that reach a recording end up in its file, said of the sequence of messages and not of the set of
    streams that the controller keeps. */
module RecordingFilter {
  import opened RecordingFiles
  import opened Recordings

  /** Before message `k`, `stream` is one whose audio is not captured: it was ignored from the start, or an audio
      instruction opened it while audio was off, and no end of it has come since. */
  ghost predicate Muted(ms: seq<Message>, ignored: set<int>, capture: Capture, k: nat, stream: int)
    requires k <= |ms|
  {
    || (stream in ignored && forall i :: 0 <= i < k ==> ms[i].kind != End(stream))
    || (exists j :: 0 <= j < k && OpensMuted(ms, capture, j, k, stream))
  }

  ghost predicate OpensMuted(ms: seq<Message>, capture: Capture, j: nat, k: nat, stream: int)
    requires j < k <= |ms|
  {
    !capture.audio && ms[j].kind == Audio(stream) && forall i :: j < i < k ==> ms[i].kind != End(stream)
  }

  /** Message `k` is to be recorded. */
  ghost predicate Wanted(ms: seq<Message>, ignored: set<int>, capture: Capture, k: nat)
    requires k < |ms|
  {
    var kind := ms[k].kind;
    && (kind == Display ==> capture.display)
    && (kind == Input ==> capture.input)
    && (kind.Audio? ==> capture.audio)
    && (kind == Sync ==> capture.display || capture.input || capture.audio)
    && (kind.Blob? || kind.End? ==> !Muted(ms, ignored, capture, k, kind.stream))
  }

  /** What a recorded message leaves in the file. */
  function Pieces(m: Message): seq<Entry> {
    (if m.kind == Stamped then [Entry(m.stamp, false)] else []) + [Entry(m.bytes, false)]
  }

  /** What the first `k` messages leave in the file: those that are wanted, each once, in order. */
  ghost function WantedEntries(ms: seq<Message>, ignored: set<int>, capture: Capture, k: nat): seq<Entry>
    requires k <= |ms|
  {
    if k == 0 then []
    else WantedEntries(ms, ignored, capture, k - 1) + if Wanted(ms, ignored, capture, k - 1) then Pieces(ms[k - 1]) else []
  }

  // ---------------------------------------------------------------- the streams the controller keeps

  function IgnoredAfter(ms: seq<Message>, ignored: set<int>, capture: Capture): set<int> {
    if ms == [] then ignored else IgnoredAfter(ms[1..], Filter(ms[0].kind, ignored, capture).1, capture)
  }

  lemma {:induction false} OneMore(ms: seq<Message>, m: Message, ignored: set<int>, capture: Capture)
    ensures AllEntries(ms + [m], ignored, capture)
         == AllEntries(ms, ignored, capture) + Entries(m, IgnoredAfter(ms, ignored, capture), capture, false)
    ensures IgnoredAfter(ms + [m], ignored, capture) == Filter(m.kind, IgnoredAfter(ms, ignored, capture), capture).1
  {
    if ms == [] {
      assert ms + [m] == [m] && [m][1..] == [];
      assert AllEntries([m][1..], Filter(m.kind, ignored, capture).1, capture) == [];
    } else {
      assert (ms + [m])[1..] == ms[1..] + [m];
      OneMore(ms[1..], m, Filter(ms[0].kind, ignored, capture).1, capture);
    }
  }

  lemma MutedAfterOneMore(ms: seq<Message>, ignored: set<int>, capture: Capture, k: nat, stream: int)
    requires k < |ms|
    ensures Muted(ms, ignored, capture, k + 1, stream) <==>
            if ms[k].kind == End(stream) then false
            else (ms[k].kind == Audio(stream) && !capture.audio) || Muted(ms, ignored, capture, k, stream)
  {
    if ms[k].kind == Audio(stream) && !capture.audio {
      assert OpensMuted(ms, capture, k, k + 1, stream);
    } else if ms[k].kind != End(stream) {
      if j :| 0 <= j < k && OpensMuted(ms, capture, j, k, stream) {
        assert OpensMuted(ms, capture, j, k + 1, stream);
      }
      var next := k + 1;
      if j :| 0 <= j < next && OpensMuted(ms, capture, j, next, stream) {
        assert j < k && OpensMuted(ms, capture, j, k, stream);
      }
    }
  }

  /** The set kept by the controller is that of the muted streams. */
  lemma {:induction false} IgnoredAreMuted(ms: seq<Message>, ignored: set<int>, capture: Capture, k: nat)
    requires k <= |ms|
    ensures forall stream :: stream in IgnoredAfter(ms[..k], ignored, capture) <==> Muted(ms, ignored, capture, k, stream)
  {
    if k == 0 {
      assert ms[..0] == [];
    } else {
      IgnoredAreMuted(ms, ignored, capture, k - 1);
      assert ms[..k] == ms[..k - 1] + [ms[k - 1]];
      OneMore(ms[..k - 1], ms[k - 1], ignored, capture);
      forall stream
        ensures stream in IgnoredAfter(ms[..k], ignored, capture) <==> Muted(ms, ignored, capture, k, stream)
      {
        MutedAfterOneMore(ms, ignored, capture, k - 1, stream);
      }
    }
  }

  lemma EntriesIfWanted(ms: seq<Message>, ignored: set<int>, capture: Capture, k: nat)
    requires k < |ms|
    ensures Entries(ms[k], IgnoredAfter(ms[..k], ignored, capture), capture, false)
         == if Wanted(ms, ignored, capture, k) then Pieces(ms[k]) else []
  {
    IgnoredAreMuted(ms, ignored, capture, k);
  }

  lemma {:induction false} PrefixIsRecorded(ms: seq<Message>, ignored: set<int>, capture: Capture, k: nat)
    requires k <= |ms|
    ensures AllEntries(ms[..k], ignored, capture) == WantedEntries(ms, ignored, capture, k)
  {
    if k == 0 {
      assert ms[..0] == [];
    } else {
      PrefixIsRecorded(ms, ignored, capture, k - 1);
      assert ms[..k] == ms[..k - 1] + [ms[k - 1]];
      OneMore(ms[..k - 1], ms[k - 1], ignored, capture);
      EntriesIfWanted(ms, ignored, capture, k - 1);
    }
  }

  /** The file gets exactly the wanted messages, each once, in the order in which they came, with the timestamps of those
      that ask for one. */
  lemma RecordedAreTheWanted(ms: seq<Message>, ignored: set<int>, capture: Capture)
    ensures AllEntries(ms, ignored, capture) == WantedEntries(ms, ignored, capture, |ms|)
  {
    assert ms[..|ms|] == ms;
    PrefixIsRecorded(ms, ignored, capture, |ms|);
  }

  // ---------------------------------------------------------------- what is left out

  /** With a kind of message not captured, any sequence of such messages leaves nothing in the file. */
  lemma {:induction false} UncapturedLeavesNothing(ms: seq<Message>, ignored: set<int>, capture: Capture)
    requires forall m :: m in ms ==>
               || (m.kind == Display && !capture.display) || (m.kind == Input && !capture.input)
               || (m.kind.Audio? && !capture.audio)
    ensures AllEntries(ms, ignored, capture) == []
  {
    if ms != [] {
      assert ms[0] in ms;
      UncapturedLeavesNothing(ms[1..], Filter(ms[0].kind, ignored, capture).1, capture);
    }
  }

  /** An audio stream opened while audio is not captured is left out whole, its end included; after its end the number of
      the stream can be used again, and is recorded unless it is opened for audio once more. */
  lemma AudioIsLeftOutWhole(ms: seq<Message>, ignored: set<int>, capture: Capture, first: nat, last: nat, stream: int)
    requires first < last < |ms| && !capture.audio
    requires ms[first].kind == Audio(stream) && ms[last].kind == End(stream)
    requires forall i :: first < i < last ==> ms[i].kind != End(stream)
    ensures !Wanted(ms, ignored, capture, first) && !Wanted(ms, ignored, capture, last)
    ensures forall k :: first < k < last && ms[k].kind == Blob(stream) ==> !Wanted(ms, ignored, capture, k)
    ensures forall k :: last < k < |ms| && (ms[k].kind == Blob(stream) || ms[k].kind == End(stream)) ==>
              Wanted(ms, ignored, capture, k) || exists i :: last < i < k && ms[i].kind == Audio(stream)
  {
    forall k | first < k <= last
      ensures Muted(ms, ignored, capture, k, stream)
    {
      assert OpensMuted(ms, capture, first, k, stream);
    }
    forall k | last < k < |ms| && forall i :: last < i < k ==> ms[i].kind != Audio(stream)
      ensures !Muted(ms, ignored, capture, k, stream)
    {
    }
  }
}
