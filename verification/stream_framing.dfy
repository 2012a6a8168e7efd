/** The framing of "Serialization Over a Stream" in the Cap'n Proto encoding specification: the number of segments minus
    one, the size of each segment in words, padding to a word boundary, then the segments. */
module StreamFraming {
  import opened Options
  import opened Bytes

  const U32 := 0x1_0000_0000

  type Word32 = w: nat | w < U32

  /** Segments are whole numbers of eight-byte words. */
  type Segment = s: seq<Byte> | |s| % 8 == 0

  const NO_WORDS: Segment := []

  type Message = m: seq<Segment> | |m| > 0 witness [NO_WORDS]

  /** The message is small enough for its segment table. */
  ghost predicate Frameable(m: Message) {
    |m| <= U32 && forall i :: 0 <= i < |m| ==> |m[i]| / 8 < U32
  }

  function U32Bytes(n: Word32): seq<Byte> {
    [n % 256, n / 256 % 256, n / 65536 % 256, n / 16777216]
  }

  function WordsBytes(words: seq<Word32>): seq<Byte> {
    if words == [] then [] else U32Bytes(words[0]) + WordsBytes(words[1..])
  }

  function Sizes(segments: seq<Segment>): seq<nat> {
    seq(|segments|, i requires 0 <= i < |segments| => |segments[i]| / 8)
  }

  function Contents(segments: seq<Segment>): seq<Byte> {
    if segments == [] then [] else segments[0] + Contents(segments[1..])
  }

  function Padding(count: nat): seq<Word32> {
    if count % 2 == 0 then [0] else []
  }

  function Truncated(sizes: seq<nat>): seq<Word32> {
    seq(|sizes|, i requires 0 <= i < |sizes| => sizes[i] % U32)
  }

  /** The segment table as the code computes it, in 32-bit words. */
  function FrameWords(sizes: seq<nat>): seq<Word32> {
    [(|sizes| - 1) % U32] + Truncated(sizes) + Padding(|sizes|)
  }

  function Encode(m: Message): seq<Byte> {
    WordsBytes(FrameWords(Sizes(m))) + Contents(m)
  }

  // ---------------------------------------------------------------- reading a stream back

  function TakeU32(b: seq<Byte>): Option<(nat, seq<Byte>)> {
    if |b| < 4 then None
    else
      var b0: nat, b1: nat, b2: nat, b3: nat := b[0], b[1], b[2], b[3];
      Some((b0 + 256 * b1 + 65536 * b2 + 16777216 * b3, b[4..]))
  }

  function TakeWords(b: seq<Byte>, count: nat): Option<(seq<nat>, seq<Byte>)>
    decreases count
  {
    if count == 0 then Some(([], b))
    else match TakeU32(b)
      case None => None
      case Some((word, rest)) =>
        match TakeWords(rest, count - 1)
        case None => None
        case Some((words, rest)) => Some(([word] + words, rest))
  }

  function TakeSegments(b: seq<Byte>, sizes: seq<nat>): Option<(seq<Segment>, seq<Byte>)>
    decreases |sizes|
  {
    if sizes == [] then Some(([], b))
    else if |b| < sizes[0] * 8 then None
    else match TakeSegments(b[sizes[0] * 8..], sizes[1..])
      case None => None
      case Some((segments, rest)) =>
        var first: Segment := b[..sizes[0] * 8];
        Some(([first] + segments, rest))
  }

  /** Read one message, as the specification describes its framing. */
  function Decode(b: seq<Byte>): Option<(seq<Segment>, seq<Byte>)> {
    match TakeU32(b)
    case None => None
    case Some((last, rest)) =>
      var count := last + 1;
      match TakeWords(rest, count)
      case None => None
      case Some((sizes, rest)) =>
        match TakeWords(rest, |Padding(count)|)
        case None => None
        case Some((_, rest)) => TakeSegments(rest, sizes)
  }

  lemma FourDigits(n: nat)
    requires n < U32
    ensures n % 256 + 256 * (n / 256 % 256) + 65536 * (n / 65536 % 256) + 16777216 * (n / 16777216) == n
  {
    assert n / 65536 == n / 256 / 256 && n / 16777216 == n / 65536 / 256;
  }

  lemma U32RoundTrip(n: Word32, rest: seq<Byte>)
    ensures TakeU32(U32Bytes(n) + rest) == Some((n, rest))
  {
    FourDigits(n);
    assert (U32Bytes(n) + rest)[4..] == rest;
  }

  lemma {:induction false} WordsRoundTrip(words: seq<Word32>, rest: seq<Byte>)
    ensures TakeWords(WordsBytes(words) + rest, |words|) == Some((words, rest))
  {
    if words == [] {
      assert WordsBytes(words) + rest == rest;
    } else {
      var tail := WordsBytes(words[1..]) + rest;
      assert WordsBytes(words) + rest == U32Bytes(words[0]) + tail;
      U32RoundTrip(words[0], tail);
      WordsRoundTrip(words[1..], rest);
      assert [words[0]] + words[1..] == words;
    }
  }

  lemma {:induction false} SegmentsRoundTrip(segments: seq<Segment>, rest: seq<Byte>)
    ensures TakeSegments(Contents(segments) + rest, Sizes(segments)) == Some((segments, rest))
  {
    if segments == [] {
      assert Contents(segments) + rest == rest;
    } else {
      var b := Contents(segments) + rest;
      var tail := Contents(segments[1..]) + rest;
      assert b == segments[0] + tail;
      assert b[|segments[0]|..] == tail && b[..|segments[0]|] == segments[0];
      assert Sizes(segments)[0] * 8 == |segments[0]| && Sizes(segments)[1..] == Sizes(segments[1..]);
      SegmentsRoundTrip(segments[1..], rest);
      assert [segments[0]] + segments[1..] == segments;
    }
  }

  lemma {:induction false} WordsBytesAppend(a: seq<Word32>, b: seq<Word32>)
    ensures WordsBytes(a + b) == WordsBytes(a) + WordsBytes(b)
  {
    if a == [] {
      assert a + b == b;
    } else {
      assert (a + b)[1..] == a[1..] + b;
      WordsBytesAppend(a[1..], b);
    }
  }

  /** The little-endian number in the `k`th group of four bytes. */
  function WordAt(b: seq<Byte>, k: nat): nat
    requires 4 * k + 4 <= |b|
  {
    var b0: nat, b1: nat, b2: nat, b3: nat := b[4 * k], b[4 * k + 1], b[4 * k + 2], b[4 * k + 3];
    b0 + 256 * b1 + 65536 * b2 + 16777216 * b3
  }

  lemma {:induction false} WordsAreLittleEndian(words: seq<Word32>, k: nat)
    requires k < |words|
    ensures |WordsBytes(words)| == 4 * |words| && WordAt(WordsBytes(words), k) == words[k]
  {
    var rest := WordsBytes(words[1..]);
    WordsHaveFourBytes(words[1..]);
    if k == 0 {
      FourDigits(words[0]);
    } else {
      WordsAreLittleEndian(words[1..], k - 1);
      assert WordsBytes(words)[4..] == rest;
      assert forall j :: 0 <= j < |rest| ==> WordsBytes(words)[4 + j] == rest[j];
    }
  }

  lemma {:induction false} WordsHaveFourBytes(words: seq<Word32>)
    ensures |WordsBytes(words)| == 4 * |words|
  {
    if words != [] {
      WordsHaveFourBytes(words[1..]);
    }
  }

  lemma {:induction false} ContentsAreWords(segments: seq<Segment>)
    ensures |Contents(segments)| % 8 == 0
  {
    if segments != [] {
      ContentsAreWords(segments[1..]);
    }
  }

  /** How many four-byte numbers the segment table has, padding included. */
  function TableLength(m: Message): nat {
    |m| + 1 + if |m| % 2 == 0 then 1 else 0
  }

  lemma TableWords(m: Message, k: nat)
    requires Frameable(m) && k < |m|
    ensures var words := FrameWords(Sizes(m));
            && |words| == TableLength(m) && words[0] == |m| - 1 && words[1 + k] == |m[k]| / 8
            && (|m| % 2 == 0 ==> words[|m| + 1] == 0)
  {
    assert Sizes(m)[k] == |m[k]| / 8;
  }

  lemma SameStart(a: seq<Byte>, b: seq<Byte>, k: nat)
    requires 4 * k + 4 <= |a|
    ensures WordAt(a + b, k) == WordAt(a, k)
  {
  }

  /** A framed message as the specification lays it out: four-byte little-endian numbers, the first the number of segments
      minus one, then the size of each segment in words, then a zero if the table would otherwise end off a word boundary;
      after that, on a boundary, the segments; and it ends on a boundary, so that the next message starts on one. */
  lemma FrameLayout(m: Message, k: nat)
    requires Frameable(m) && k < |m|
    ensures var b, n := Encode(m), TableLength(m);
            && n % 2 == 0 && |b| % 8 == 0 && |b| >= 4 * n
            && WordAt(b, 0) == |m| - 1
            && WordAt(b, 1 + k) * 8 == |m[k]|
            && (|m| % 2 == 0 ==> WordAt(b, |m| + 1) == 0)
            && b[4 * n..] == Contents(m)
  {
    TableWords(m, k);
    ContentsFollowTable(m);
    TableStartsFrame(m, 0);
    TableStartsFrame(m, 1 + k);
    if |m| % 2 == 0 {
      TableStartsFrame(m, |m| + 1);
    }
  }

  lemma ContentsFollowTable(m: Message)
    requires Frameable(m)
    ensures TableLength(m) % 2 == 0 && |Encode(m)| % 8 == 0 && |Encode(m)| >= 4 * TableLength(m)
    ensures Encode(m)[4 * TableLength(m)..] == Contents(m)
  {
    var words, contents := FrameWords(Sizes(m)), Contents(m);
    WordsHaveFourBytes(words);
    TableWords(m, 0);
    TableIsEven(m);
    ContentsAreWords(m);
    Behind(WordsBytes(words), contents);
    WholeWords(TableLength(m), |contents|);
  }

  lemma TableIsEven(m: Message)
    ensures TableLength(m) % 2 == 0
  {
  }

  lemma Behind(a: seq<Byte>, b: seq<Byte>)
    ensures |a + b| == |a| + |b| && (a + b)[|a|..] == b
  {
  }

  lemma WholeWords(n: nat, length: nat)
    requires n % 2 == 0 && length % 8 == 0
    ensures (4 * n + length) % 8 == 0
  {
  }

  lemma TableStartsFrame(m: Message, i: nat)
    requires i < |FrameWords(Sizes(m))|
    ensures |Encode(m)| >= 4 * i + 4 && WordAt(Encode(m), i) == FrameWords(Sizes(m))[i]
  {
    var words := FrameWords(Sizes(m));
    WordsAreLittleEndian(words, i);
    SameStart(WordsBytes(words), Contents(m), i);
  }

  lemma FrameBytes(first: Word32, words: seq<Word32>, padding: seq<Word32>)
    ensures WordsBytes([first] + words + padding) == U32Bytes(first) + WordsBytes(words) + WordsBytes(padding)
  {
    WordsBytesAppend([first] + words, padding);
    WordsBytesAppend([first], words);
    assert WordsBytes([first]) == U32Bytes(first) + WordsBytes([]);
  }

  lemma Regroup<T>(a: seq<T>, b: seq<T>, c: seq<T>, d: seq<T>, e: seq<T>)
    ensures a + b + c + d + e == a + (b + (c + (d + e)))
  {
  }

  lemma FrameParts(m: Message, rest: seq<Byte>, first: Word32, words: seq<Word32>, padding: seq<Word32>)
    requires FrameWords(Sizes(m)) == [first] + words + padding
    ensures Encode(m) + rest == U32Bytes(first) + (WordsBytes(words) + (WordsBytes(padding) + (Contents(m) + rest)))
  {
    FrameBytes(first, words, padding);
    Regroup(U32Bytes(first), WordsBytes(words), WordsBytes(padding), Contents(m), rest);
  }

  lemma NothingTruncated(m: Message)
    requires Frameable(m)
    ensures Truncated(Sizes(m)) == Sizes(m) && (|m| - 1) % U32 == |m| - 1
  {
  }

  /** Reading what was framed gives back the message and leaves what follows it. */
  lemma FrameRoundTrip(m: Message, rest: seq<Byte>)
    requires Frameable(m)
    ensures Decode(Encode(m) + rest) == Some((m, rest))
  {
    NothingTruncated(m);
    var first: Word32, words, padding, body := |m| - 1, Truncated(Sizes(m)), Padding(|m|), Contents(m) + rest;
    FrameParts(m, rest, first, words, padding);
    U32RoundTrip(first, WordsBytes(words) + (WordsBytes(padding) + body));
    WordsRoundTrip(words, WordsBytes(padding) + body);
    WordsRoundTrip(padding, body);
    SegmentsRoundTrip(m, rest);
  }

  // ---------------------------------------------------------------- several messages in one write

  function EncodeAll(messages: seq<Message>): seq<Byte> {
    if messages == [] then [] else Encode(messages[0]) + EncodeAll(messages[1..])
  }

  function DecodeMany(b: seq<Byte>, count: nat): Option<(seq<seq<Segment>>, seq<Byte>)>
    decreases count
  {
    if count == 0 then Some(([], b))
    else match Decode(b)
      case None => None
      case Some((message, rest)) =>
        match DecodeMany(rest, count - 1)
        case None => None
        case Some((messages, rest)) => Some(([message] + messages, rest))
  }

  /** Messages written one after the other are read back in order. */
  lemma {:induction false} BatchRoundTrip(messages: seq<Message>)
    requires forall m :: m in messages ==> Frameable(m)
    ensures DecodeMany(EncodeAll(messages), |messages|) == Some((messages, []))
  {
    if messages != [] {
      FrameRoundTrip(messages[0], EncodeAll(messages[1..]));
      BatchRoundTrip(messages[1..]);
      assert [messages[0]] + messages[1..] == messages;
    }
  }

  lemma {:induction false} EncodeAllAppend(a: seq<Message>, b: seq<Message>)
    ensures EncodeAll(a + b) == EncodeAll(a) + EncodeAll(b)
  {
    if a == [] {
      assert a + b == b;
    } else {
      assert (a + b)[1..] == a[1..] + b;
      EncodeAllAppend(a[1..], b);
    }
  }
}
