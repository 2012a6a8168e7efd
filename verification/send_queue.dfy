/** The outgoing messages of a socket: one write at a time, and a queue of what arrives meanwhile. */
module SendQueues {
  import opened Counting
  import opened Options
  import opened Bytes
  import opened StreamFraming

  datatype Event =
    | EvQueue(message: Message)
    | EvQueueBatch(batch: seq<Option<Message>>)     // the messages of a batch may be null
    | EvWritten(ok: bool)                           // the outstanding write completes

  function NonNull(batch: seq<Option<Message>>): seq<Message> {
    if batch == [] then []
    else (if batch[0].Some? then [batch[0].value] else []) + NonNull(batch[1..])
  }

  /** How many messages of a batch are not null. */
  function Present(batch: seq<Option<Message>>): nat {
    if batch == [] then 0 else Present(batch[..|batch| - 1]) + Bit(batch[|batch| - 1].Some?)
  }

  lemma {:induction false} NonNullAppend(a: seq<Option<Message>>, b: seq<Option<Message>>)
    ensures NonNull(a + b) == NonNull(a) + NonNull(b)
  {
    if a == [] {
      assert a + b == b;
    } else {
      assert (a + b)[1..] == a[1..] + b;
      NonNullAppend(a[1..], b);
    }
  }

  lemma {:induction false} NonNullCounts(batch: seq<Option<Message>>)
    ensures |NonNull(batch)| == Present(batch)
  {
    if batch != [] {
      var n := |batch| - 1;
      NonNullCounts(batch[..n]);
      NonNullAppend(batch[..n], [batch[n]]);
      var last := [batch[n]];
      assert batch == batch[..n] + last && last[1..] == batch[|batch|..];
    }
  }

  /** Of a batch, every message that is not null is kept, once, behind those that are kept of what comes before it, and
      nothing else is. */
  lemma BatchIsKeptInOrder(batch: seq<Option<Message>>, k: nat)
    requires k < |batch|
    ensures |NonNull(batch)| == Present(batch)
    ensures batch[k].Some? ==> Present(batch[..k]) < |NonNull(batch)| && NonNull(batch)[Present(batch[..k])] == batch[k].value
    ensures NonNull(batch) == NonNull(batch[..k]) + NonNull(batch[k..])
  {
    assert batch == batch[..k] + batch[k..];
    NonNullAppend(batch[..k], batch[k..]);
    NonNullCounts(batch);
    NonNullCounts(batch[..k]);
  }

  /** The messages an event hands to the socket. */
  function Enqueued(e: Event): seq<Message> {
    match e
    case EvQueue(m) => [m]
    case EvQueueBatch(batch) => NonNull(batch)
    case EvWritten(_) => []
  }

  function AllEnqueued(events: seq<Event>): seq<Message> {
    if events == [] then [] else Enqueued(events[0]) + AllEnqueued(events[1..])
  }

  lemma Associate(a: seq<Message>, b: seq<Message>, c: seq<Message>)
    ensures a + b + c == a + (b + c)
  {
  }

  class SendQueue {
    var queue: seq<Message>
    var sending: bool
    ghost var written: seq<Message>     // the messages of the completed writes
    ghost var inFlight: seq<Message>    // the messages of the write that is outstanding or has failed
    var outstanding: bool               // the socket is at work on a write
    ghost var failed: bool
    ghost var wire: seq<Byte>           // the bytes handed to the socket so far

    ghost function Accepted(): seq<Message>
      reads this
    {
      written + inFlight + queue
    }

    ghost predicate Valid()
      reads this
    {
      && sending == (outstanding || failed) && !(outstanding && failed)
      && (!sending ==> inFlight == [] && queue == [])
      && (sending ==> inFlight != [])
      && wire == EncodeAll(written + inFlight)
    }

    constructor ()
      ensures Valid() && Accepted() == [] && !sending && !failed
    {
      queue, sending, written, inFlight, outstanding, failed, wire := [], false, [], [], false, false, [];
    }

    /** Start a write on the socket; there must be no other, and none may have failed. */
    method WriteMessage(messages: seq<Message>)
      requires !outstanding && !failed && inFlight == [] && wire == EncodeAll(written)
      modifies this`inFlight, this`outstanding, this`wire
      ensures inFlight == messages && outstanding && wire == EncodeAll(written + messages)
    {
      EncodeAllAppend(written, messages);
      inFlight, outstanding, wire := messages, true, wire + EncodeAll(messages);
    }

    method SendMessage(message: Message)
      requires !outstanding && !failed && inFlight == [] && wire == EncodeAll(written) && sending
      modifies this`inFlight, this`outstanding, this`wire
      ensures Valid() && inFlight == [message]
    {
      WriteMessage([message]);
    }

    method SendMessageBatch()
      requires !outstanding && !failed && inFlight == [] && wire == EncodeAll(written) && sending && queue != []
      modifies this`inFlight, this`outstanding, this`wire, this`queue
      ensures Valid() && inFlight == old(queue) && queue == []
    {
      var socketMessages := [queue[0]];
      queue := queue[1..];
      while queue != []
        invariant socketMessages + queue == old(queue)
        invariant inFlight == [] && wire == EncodeAll(written) && !outstanding && socketMessages != []
        decreases |queue|
      {
        socketMessages := socketMessages + [queue[0]];
        queue := queue[1..];
      }
      WriteMessage(socketMessages);
    }

    /** The completion of the outstanding write; after a failure the socket is closed and nothing more is sent. */
    method SendMessageCallback(ok: bool)
      requires Valid() && outstanding
      modifies this
      ensures Valid() && Accepted() == old(Accepted())
      ensures failed == !ok
      ensures !ok ==> wire == old(wire) && written == old(written)
      ensures ok ==> written == old(written + inFlight) && inFlight == old(queue) && queue == []
    {
      outstanding := false;
      if !ok {
        failed := true;
        return;
      }
      written, inFlight := written + inFlight, [];
      assert written + [] == written;
      match |queue| {
        case 0 =>
          sending := false;
        case 1 =>
          assert queue == [queue[0]];
          SendMessage(queue[0]);
          queue := queue[1..];
        case _ =>
          SendMessageBatch();
      }
    }

    method QueueMessage(message: Message)
      requires Valid()
      modifies this
      ensures Valid() && Accepted() == old(Accepted()) + [message]
      ensures failed == old(failed) && (old(sending) ==> wire == old(wire))
      ensures written == old(written) && (old(outstanding) ==> outstanding)
    {
      if sending {
        queue := queue + [message];
      } else {
        sending := true;
        assert written + [] == written;
        SendMessage(message);
      }
    }

    /** Queue what a batch holds, leaving out what is null. */
    method PushAll(batch: seq<Option<Message>>)
      modifies this`queue
      ensures queue == old(queue) + NonNull(batch)
    {
      var i := 0;
      assert batch[0..] == batch;
      while i < |batch|
        invariant 0 <= i <= |batch|
        invariant queue + NonNull(batch[i..]) == old(queue) + NonNull(batch)
      {
        assert batch[i..][1..] == batch[i + 1..];
        if batch[i].Some? {
          Associate(queue, [batch[i].value], NonNull(batch[i + 1..]));
          queue := queue + [batch[i].value];
        }
        i := i + 1;
      }
      assert batch[i..] == [] && queue + [] == queue;
    }

    /** Start writing the queue on an idle socket. */
    method WriteBatch()
      requires !outstanding && !failed && inFlight == [] && wire == EncodeAll(written + inFlight) && sending && queue != []
      modifies this`inFlight, this`outstanding, this`wire, this`queue
      ensures Valid() && outstanding && Accepted() == old(Accepted())
    {
      assert written + [] == written;
      SendMessageBatch();
      assert written + inFlight + [] == written + inFlight;
    }

    method QueueMessageBatch(batch: seq<Option<Message>>)
      requires Valid()
      modifies this
      ensures Valid() && Accepted() == old(Accepted()) + NonNull(batch)
      ensures failed == old(failed) && (old(sending) ==> wire == old(wire))
      ensures written == old(written) && (old(outstanding) ==> outstanding)
    {
      PushAll(batch);
      Associate(written + inFlight, old(queue), NonNull(batch));
      if queue != [] && !sending {
        sending := true;
        WriteBatch();
      }
    }

    method Handle(e: Event)
      requires Valid()
      modifies this
      ensures Valid() && Accepted() == old(Accepted()) + Enqueued(e)
      ensures old(failed) ==> failed && wire == old(wire)
    {
      match e {
        case EvQueue(message) => QueueMessage(message);
        case EvQueueBatch(batch) => QueueMessageBatch(batch);
        case EvWritten(ok) => if outstanding { SendMessageCallback(ok); }
      }
    }

    /** Reading the wire gives back the messages handed to the socket, in order. */
    lemma WireIsReadable()
      requires Valid() && forall m :: m in Accepted() ==> Frameable(m)
      ensures DecodeMany(wire, |written + inFlight|) == Some((written + inFlight, []))
    {
      assert forall m :: m in written + inFlight ==> m in Accepted();
      BatchRoundTrip(written + inFlight);
    }

    /** In every interleaving of sends, batches and completions, what has been written, what is in flight and what is
        queued grow by exactly the messages enqueued, in order; after a failed write nothing more is handed to the
        socket. */
    method Run(events: seq<Event>)
      requires Valid()
      modifies this
      ensures Valid() && Accepted() == old(Accepted()) + AllEnqueued(events)
      ensures old(failed) ==> failed && wire == old(wire)
    {
      var i := 0;
      assert events[0..] == events;
      while i < |events|
        invariant 0 <= i <= |events| && Valid()
        invariant Accepted() + AllEnqueued(events[i..]) == old(Accepted()) + AllEnqueued(events)
        invariant old(failed) ==> failed && wire == old(wire)
      {
        ghost var before := Accepted();
        assert events[i..][1..] == events[i + 1..];
        Handle(events[i]);
        Associate(before, Enqueued(events[i]), AllEnqueued(events[i + 1..]));
        i := i + 1;
      }
      assert Accepted() + [] == Accepted();
    }
  }
}
