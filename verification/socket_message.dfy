/** The two builders of a segment table: the one that frames a shared message without copying it, and the one that fills
    a table through a cursor. */
module SocketMessages {
  import opened Bytes
  import opened StreamFraming

  /** A buffer handed to the socket: the first words of the segment table, or the bytes of a segment. */
  datatype Buffer = TableView(words: nat) | SegmentView(bytes: seq<Byte>)

  /** The bytes a buffer stands for when it is sent. */
  function View(table: seq<Word32>, b: Buffer): seq<Byte> {
    match b
    case TableView(words) => if words <= |table| then WordsBytes(table[..words]) else []
    case SegmentView(bytes) => bytes
  }

  function Sent(table: seq<Word32>, buffers: seq<Buffer>): seq<Byte> {
    if buffers == [] then [] else View(table, buffers[0]) + Sent(table, buffers[1..])
  }

  lemma {:induction false} SegmentsSent(table: seq<Word32>, segments: seq<Segment>, buffers: seq<Buffer>)
    requires |buffers| == |segments| && forall i :: 0 <= i < |segments| ==> buffers[i] == SegmentView(segments[i])
    ensures Sent(table, buffers) == Contents(segments)
  {
    if segments != [] {
      SegmentsSent(table, segments[1..], buffers[1..]);
    }
  }

  /** The words of the table for `count` segments, rounded up to a whole number of eight-byte words. */
  function FrameSize(count: nat): nat {
    (count + 2) / 2 * 2
  }

  lemma TableFillsFrame(sizes: seq<nat>)
    ensures |FrameWords(sizes)| == FrameSize(|sizes|)
  {
  }

  class SharedSocketMessage {
    const segments: Message           // the segments of the message under construction
    var frame: seq<Word32>            // the segment table
    var capacity: nat                 // the words the table can hold without moving in memory
    var framedBuffers: seq<Buffer>    // views of the table and the segments

    ghost predicate Framed()
      reads this
    {
      && frame == FrameWords(Sizes(segments)) && capacity == |frame|
      && |framedBuffers| == 1 + |segments| && framedBuffers[0] == TableView(|frame|)
      && forall i :: 0 <= i < |segments| ==> framedBuffers[1 + i] == SegmentView(segments[i])
    }

    ghost predicate Valid()
      reads this
    {
      if framedBuffers == [] then frame == [] else Framed()
    }

    constructor (segments: Message)
      ensures Valid() && framedBuffers == [] && this.segments == segments
    {
      this.segments, frame, capacity, framedBuffers := segments, [], 0, [];
    }

    /** Append a word.  The views stay good only because the table never outgrows what was reserved for it. */
    method Push(word: Word32)
      requires |frame| < capacity
      modifies this`frame
      ensures frame == old(frame) + [word]
    {
      frame := frame + [word];
    }

    method CreateFrame()
      requires Valid()
      modifies this
      ensures Framed()
    {
      if framedBuffers != [] {
        return;
      }
      var segmentCount := |segments|;
      ghost var table := FrameWords(Sizes(segments));
      TableFillsFrame(Sizes(segments));
      var frameSize := FrameSize(segmentCount);
      capacity := frameSize;
      Push((segmentCount - 1) % U32);
      framedBuffers := [TableView(frameSize)];
      var i := 0;
      while i < segmentCount
        invariant 0 <= i <= segmentCount && capacity == frameSize
        invariant frame == table[..1 + i]
        invariant |framedBuffers| == 1 + i && framedBuffers[0] == TableView(frameSize)
        invariant forall j :: 0 <= j < i ==> framedBuffers[1 + j] == SegmentView(segments[j])
      {
        Push(|segments[i]| / 8 % U32);
        framedBuffers := framedBuffers + [SegmentView(segments[i])];
        i := i + 1;
      }
      if segmentCount % 2 == 0 {
        Push(0);
      }
      assert frame == table;
    }

    /** What goes over the socket is the framing of the message. */
    method GetBuffers() returns (buffers: seq<Buffer>)
      requires Framed()
      ensures buffers == framedBuffers && Sent(frame, buffers) == Encode(segments)
    {
      buffers := framedBuffers;
      assert frame[..|frame|] == frame;
      SegmentsSent(frame, segments, buffers[1..]);
    }
  }

  class CapnpMessageFrameBuilder {
    var frame: seq<Word32>
    var segmentNum: nat

    constructor ()
      ensures frame == []
    {
      frame, segmentNum := [], 0;
    }

    /** Cut the table to `size` words, or fill it up with zeros. */
    method Resize(size: nat)
      modifies this`frame
      ensures |frame| == size && forall i :: 0 <= i < size ==> frame[i] == if i < |old(frame)| then old(frame)[i] else 0
    {
      frame := if size <= |frame| then frame[..size] else frame + seq(size - |frame|, _ => 0);
    }

    method Init(segmentCount: nat)
      requires segmentCount > 0
      modifies this
      ensures |frame| == FrameSize(segmentCount) && frame[0] == (segmentCount - 1) % U32 && segmentNum == 1
    {
      Resize(FrameSize(segmentCount));
      frame := frame[0 := (segmentCount - 1) % U32];
      segmentNum := 1;
    }

    method AddSegment(segmentSize: nat)
      requires segmentNum < |frame|
      modifies this
      ensures frame == old(frame)[old(segmentNum) := segmentSize % U32] && segmentNum == old(segmentNum) + 1
    {
      frame := frame[segmentNum := segmentSize % U32];
      segmentNum := segmentNum + 1;
    }

    method Finalize(segmentCount: nat)
      requires |frame| == FrameSize(segmentCount)
      modifies this`frame
      ensures frame == if segmentCount % 2 == 0 then old(frame)[segmentCount + 1 := 0] else old(frame)
    {
      if segmentCount % 2 == 0 {
        frame := frame[segmentCount + 1 := 0];
      }
    }

    /** Used as intended, whatever it held before, the builder makes the same table as the shared message. */
    method Build(sizes: seq<nat>)
      requires sizes != []
      modifies this
      ensures frame == FrameWords(sizes)
    {
      ghost var table := FrameWords(sizes);
      TableFillsFrame(sizes);
      Init(|sizes|);
      var i := 0;
      while i < |sizes|
        invariant 0 <= i <= |sizes| && segmentNum == 1 + i
        invariant |frame| == |table| && frame[..1 + i] == table[..1 + i]
      {
        AddSegment(sizes[i]);
        i := i + 1;
      }
      Finalize(|sizes|);
      assert frame == table;
    }
  }
}
