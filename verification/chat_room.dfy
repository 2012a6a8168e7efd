/** A channel's chat history: a ring of fixed text slots that are overwritten in place. */
module ChatRooms {

  const MAX_HISTORY := 100

  datatype UserType = Guest | Regular | Admin

  /** A slot of the ring. Its texts always fill their reserved space. */
  datatype Slot = Slot(message: seq<char>, sender: seq<char>, userType: UserType, timestamp: int)

  /** A message as it was sent to the channel. */
  datatype Message = Message(message: seq<char>, sender: seq<char>, userType: UserType, timestamp: int)

  datatype ChannelMessage = ChannelMessage(channel: nat, message: Message)

  function Nuls(n: nat): (s: seq<char>)
    ensures |s| == n && forall i :: 0 <= i < n ==> s[i] == '\0'
  {
    seq(n, _ => '\0')
  }

  function Padded(text: seq<char>, size: nat): (s: seq<char>)
    requires |text| <= size
    ensures |s| == size
  {
    text + Nuls(size - |text|)
  }

  /** What a reader takes a padded text for. */
  function UpToNul(text: seq<char>): seq<char> {
    if text == [] || text[0] == '\0' then [] else [text[0]] + UpToNul(text[1..])
  }

  lemma {:induction false} NothingBeforeNuls(n: nat)
    ensures UpToNul(Nuls(n)) == []
  {
  }

  /** A stored text reads back as the message exactly when the message has no NUL in it. */
  lemma {:induction false} PaddedReadsBackIff(text: seq<char>, size: nat)
    requires |text| <= size
    ensures UpToNul(Padded(text, size)) == text <==> '\0' !in text
  {
    if text == [] {
      NothingBeforeNuls(size);
      assert Padded(text, size) == Nuls(size);
    } else {
      PaddedReadsBackIff(text[1..], size - 1);
      assert Padded(text, size)[1..] == Padded(text[1..], size - 1);
      assert text == [text[0]] + text[1..];
    }
  }

  /** Copy a text into the reserved space and clear what is left of it. */
  method CopyStringToTextBuilder(text: seq<char>, builder: seq<char>) returns (after: seq<char>)
    requires |text| <= |builder|
    ensures after == Padded(text, |builder|)
  {
    after := builder;
    for i := 0 to |text|
      invariant |after| == |builder| && after[..i] == text[..i]
    {
      after := after[i := text[i]];
    }
    for i := |text| to |builder|
      invariant |after| == |builder| && after[..|text|] == text
      invariant forall j :: |text| <= j < i ==> after[j] == '\0'
    {
      after := after[i := '\0'];
    }
  }

  function Min(a: int, b: int): int {
    if a < b then a else b
  }

  /** The space reserved for the texts of a slot. */
  datatype Limits = Limits(maxUsernameLen: nat, maxMessageLen: nat)

  predicate Fits(limits: Limits, m: Message) {
    |m.message| <= limits.maxMessageLen && |m.sender| <= limits.maxUsernameLen
  }

  /** What a slot holds of a message. The sender's type is not stored. */
  function Stored(limits: Limits, m: Message): Slot
    requires Fits(limits, m)
  {
    Slot(Padded(m.message, limits.maxMessageLen), Padded(m.sender, limits.maxUsernameLen), Guest, m.timestamp)
  }

  function Blank(limits: Limits): Slot {
    Slot(Nuls(limits.maxMessageLen), Nuls(limits.maxUsernameLen), Guest, 0)
  }

  /** The slot of the message with a given number. */
  function SlotOf(k: nat): (i: nat)
    ensures i < MAX_HISTORY
  {
    k % MAX_HISTORY
  }

  /** The ring holds the last messages, each in the slot of its number, and blank slots where none has been. */
  ghost predicate Holds(limits: Limits, slots: seq<Slot>, log: seq<Message>) {
    && |slots| == MAX_HISTORY
    && (forall k :: 0 <= k < |log| ==> Fits(limits, log[k]))
    && (forall k: nat :: |log| - MAX_HISTORY <= k < |log| ==> slots[SlotOf(k)] == Stored(limits, log[k]))
    && forall i :: |log| <= i < MAX_HISTORY ==> slots[i] == Blank(limits)
  }

  lemma SlotsAreFull(limits: Limits, slots: seq<Slot>, log: seq<Message>)
    requires Holds(limits, slots, log)
    ensures var slot := slots[SlotOf(|log|)];
            && |slot.message| == limits.maxMessageLen && |slot.sender| == limits.maxUsernameLen
            && slot.userType == Guest
  {
    if |log| >= MAX_HISTORY {
      var k: nat := |log| - MAX_HISTORY;
      assert SlotOf(k) == SlotOf(|log|);
      assert Fits(limits, log[k]);
    }
  }

  lemma OtherSlot(k: nat, n: nat)
    requires n - MAX_HISTORY < k < n
    ensures SlotOf(k) != SlotOf(n)
  {
  }

  lemma NextSlot(k: nat)
    ensures (SlotOf(k) + 1) % MAX_HISTORY == SlotOf(k + 1)
  {
  }

  /** Overwriting the oldest slot makes the ring hold one message more. */
  lemma OverwriteOldest(limits: Limits, slots: seq<Slot>, log: seq<Message>, m: Message)
    requires Holds(limits, slots, log) && Fits(limits, m)
    ensures Holds(limits, slots[SlotOf(|log|) := Stored(limits, m)], log + [m])
  {
    var slots', log' := slots[SlotOf(|log|) := Stored(limits, m)], log + [m];
    forall k: nat | |log'| - MAX_HISTORY <= k < |log'|
      ensures slots'[SlotOf(k)] == Stored(limits, log'[k])
    {
      if k < |log| {
        OtherSlot(k, |log|);
        assert log'[k] == log[k];
      }
    }
  }

  class CollabVmChatRoom {
    const id: nat
    const limits: Limits
    const messages: array<Slot>
    var count: nat
    var nextMessageOffset: nat
    ghost var log: seq<Message>

    ghost predicate Valid()
      reads this, messages
    {
      && Holds(limits, messages[..], log)
      && count == Min(|log|, MAX_HISTORY) && nextMessageOffset == SlotOf(|log|)
    }

    constructor (id: nat, limits: Limits)
      ensures Valid() && log == [] && fresh(messages) && this.id == id && this.limits == limits
    {
      this.id, this.limits := id, limits;
      messages := new Slot[MAX_HISTORY](_ => Blank(limits));
      count, nextMessageOffset, log := 0, 0, [];
    }

    method AddUserMessage(username: seq<char>, userType: UserType, message: seq<char>, timestamp: int)
      returns (sent: ChannelMessage)
      requires Valid() && Fits(limits, Message(message, username, userType, timestamp))
      modifies this, messages
      ensures Valid() && log == old(log) + [Message(message, username, userType, timestamp)]
      ensures sent == ChannelMessage(id, log[|log| - 1])
    {
      SlotsAreFull(limits, messages[..], log);
      sent := ChannelMessage(id, Message(message, username, userType, timestamp));
      OverwriteOldest(limits, messages[..], log, sent.message);
      NextSlot(|log|);
      count := Min(count + 1, MAX_HISTORY);
      var slot := messages[nextMessageOffset];
      var text := CopyStringToTextBuilder(message, slot.message);
      var sender := CopyStringToTextBuilder(username, slot.sender);
      messages[nextMessageOffset] := slot.(message := text, sender := sender, timestamp := timestamp);
      assert messages[..] == old(messages[..])[SlotOf(|log|) := Stored(limits, sent.message)];
      nextMessageOffset := (nextMessageOffset + 1) % MAX_HISTORY;
      log := log + [sent.message];
    }

    /** The history is the last hundred messages, oldest first, with nothing left over from older ones. */
    method GetChatHistory() returns (history: seq<Slot>)
      requires Valid()
      ensures |history| == Min(|log|, MAX_HISTORY)
      ensures forall i :: 0 <= i < |history| ==>
                Fits(limits, log[|log| - |history| + i]) && history[i] == Stored(limits, log[|log| - |history| + i])
    {
      ghost var oldest: nat := |log| - count;
      var index := if count == MAX_HISTORY then nextMessageOffset else 0;
      OldestSlot(|log|, count);
      history := [];
      for i := 0 to count
        invariant |history| == i && index == SlotOf(oldest + i)
        invariant forall j :: 0 <= j < i ==> history[j] == Stored(limits, log[oldest + j])
      {
        assert messages[..][SlotOf(oldest + i)] == Stored(limits, log[oldest + i]);
        history := history + [messages[index]];
        NextSlot(oldest + i);
        index := (index + 1) % messages.Length;
      }
    }
  }

  lemma OldestSlot(n: nat, count: nat)
    requires count == Min(n, MAX_HISTORY)
    ensures SlotOf(n - count) == if count == MAX_HISTORY then SlotOf(n) else 0
  {
  }
}
