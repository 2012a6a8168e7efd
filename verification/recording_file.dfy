/** A recording file: a header, rewritten in place, and after it the messages recorded so far. */
module RecordingFiles {
  import opened Bytes

  datatype Keyframe = Keyframe(fileOffset: int, timestamp: int)

  datatype Header = Header(vmId: nat, startTime: int, stopTime: int, keyframesCount: nat, keyframes: seq<Keyframe>)

  /** An output file stream.  A failed operation leaves it open but no longer good. */
  datatype Stream = Stream(isOpen: bool, good: bool, data: seq<Byte>, put: nat) {

    function Tell(): int {
      if isOpen && good then put else -1
    }

    function Seek(position: int): Stream {
      if !good then this
      else if !isOpen || position < 0 then this.(good := false)
      else this.(put := position)
    }

    function Write(bytes: seq<Byte>): Stream {
      if !isOpen || !good || put > |data| then this.(good := false)
      else this.(data := Overlay(data, put, bytes), put := put + |bytes|)
    }
  }

  function Overlay(data: seq<Byte>, at: nat, bytes: seq<Byte>): seq<Byte>
    requires at <= |data|
  {
    var end := at + |bytes|;
    data[..at] + bytes + (if end <= |data| then data[end..] else [])
  }

  /** What the header looks like in the file; its length depends on the size of the keyframe table alone. */
  type Encoder = Header -> seq<Byte>

  ghost predicate FixedLength(encode: Encoder) {
    && (forall h: Header, k: Header :: |h.keyframes| == |k.keyframes| ==> |encode(h)| == |encode(k)|)
    && (forall h: Header :: encode(h) != [])
  }

  /** One framed message in the file; `opensSnapshot` marks the first message of a snapshot. */
  datatype Entry = Entry(bytes: seq<Byte>, opensSnapshot: bool)

  function Concat(log: seq<Entry>): seq<Byte> {
    if log == [] then [] else Concat(log[..|log| - 1]) + log[|log| - 1].bytes
  }

  ghost predicate Layout(encode: Encoder, header: Header, stream: Stream, log: seq<Entry>) {
    stream.data == encode(header) + Concat(log) && stream.put == |stream.data|
  }

  function EntryOffset(encode: Encoder, header: Header, log: seq<Entry>, k: nat): nat
    requires k <= |log|
  {
    |encode(header)| + |Concat(log[..k])|
  }

  /** The entries of the keyframe table point at the messages of the log that open the snapshots `snapshots`; if
      `announced`, the last of them is the message about to be written. */
  ghost predicate TablePoints(encode: Encoder, header: Header, log: seq<Entry>, snapshots: seq<nat>, announced: bool) {
    && |snapshots| == header.keyframesCount <= |header.keyframes|
    && (announced ==> snapshots != [] && snapshots[|snapshots| - 1] == |log|)
    && (forall i :: 0 <= i < |snapshots| ==>
          snapshots[i] <= |log| && header.keyframes[i].fileOffset == EntryOffset(encode, header, log, snapshots[i]))
    && (forall i :: 0 <= i < (if announced then |snapshots| - 1 else |snapshots|) ==>
          snapshots[i] < |log| && log[snapshots[i]].opensSnapshot)
    && (forall i, j :: 0 <= i < j < |snapshots| ==> snapshots[i] < snapshots[j])
    && (forall e :: e in log ==> e.bytes != [])
  }

  // ---------------------------------------------------------------- how the layout survives

  /** Rewriting the header in place touches no message. */
  lemma HeaderRewriteKeepsBody(encode: Encoder, before: Header, after: Header, stream: Stream, log: seq<Entry>)
    requires FixedLength(encode) && |before.keyframes| == |after.keyframes|
    requires Layout(encode, before, stream, log)
    ensures Layout(encode, after, stream.(data := Overlay(stream.data, 0, encode(after))), log)
  {
    assert |encode(before)| == |encode(after)|;
    assert stream.data[|encode(after)|..] == Concat(log);
  }

  lemma AppendKeepsLayout(encode: Encoder, header: Header, stream: Stream, log: seq<Entry>, e: Entry)
    requires Layout(encode, header, stream, log) && stream.isOpen && stream.good
    ensures Layout(encode, header, stream.Write(e.bytes), log + [e])
  {
    assert (log + [e])[..|log|] == log;
    assert Overlay(stream.data, |stream.data|, e.bytes) == stream.data + e.bytes;
  }

  lemma {:induction false} ConcatGrows(log: seq<Entry>, j: nat, k: nat)
    requires j <= k <= |log| && forall e :: e in log ==> e.bytes != []
    ensures |Concat(log[..j])| + (k - j) <= |Concat(log[..k])|
    decreases k
  {
    if j < k {
      ConcatGrows(log, j, k - 1);
      assert log[..k][..k - 1] == log[..k - 1];
      assert log[k - 1] in log;
    }
  }

  /** The offsets in the table increase strictly. */
  lemma OffsetsIncrease(encode: Encoder, header: Header, log: seq<Entry>, snapshots: seq<nat>)
    requires TablePoints(encode, header, log, snapshots, false)
    ensures forall i, j :: 0 <= i < j < header.keyframesCount ==>
              header.keyframes[i].fileOffset < header.keyframes[j].fileOffset
  {
    forall i, j | 0 <= i < j < header.keyframesCount
      ensures header.keyframes[i].fileOffset < header.keyframes[j].fileOffset
    {
      ConcatGrows(log, snapshots[i], snapshots[j]);
    }
  }

  /** More messages leave the table pointing where it did, and an announced snapshot must come next. */
  lemma AppendKeepsTable(encode: Encoder, header: Header, log: seq<Entry>, snapshots: seq<nat>, announced: bool, e: Entry)
    requires TablePoints(encode, header, log, snapshots, announced) && e.bytes != [] && (announced ==> e.opensSnapshot)
    ensures TablePoints(encode, header, log + [e], snapshots, false)
  {
    forall i | 0 <= i < |snapshots|
      ensures (log + [e])[..snapshots[i]] == log[..snapshots[i]]
    {
    }
  }

  /** A keyframe noted at the end of the file points at the message written next. */
  lemma NewKeyframePoints(encode: Encoder, header: Header, next: Header, log: seq<Entry>, snapshots: seq<nat>)
    requires FixedLength(encode) && TablePoints(encode, header, log, snapshots, false)
    requires |next.keyframes| == |header.keyframes| && header.keyframesCount < |header.keyframes|
    requires next.keyframesCount == header.keyframesCount + 1
    requires next.keyframes[..header.keyframesCount] == header.keyframes[..header.keyframesCount]
    requires next.keyframes[header.keyframesCount].fileOffset == |encode(header)| + |Concat(log)|
    ensures TablePoints(encode, next, log, snapshots + [|log|], true)
  {
    assert |encode(next)| == |encode(header)|;
    assert log[..|log|] == log;
    forall i | 0 <= i < |snapshots|
      ensures next.keyframes[i] == header.keyframes[i]
    {
      assert next.keyframes[i] == next.keyframes[..header.keyframesCount][i];
    }
  }
}
