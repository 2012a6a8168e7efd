/** One-time passwords: the program's code against the definitions of RFC 4226 and RFC 6238. The keyed hash is a parameter. */
module Totp {
  import opened Bytes

  type Digest = d: seq<Byte> | |d| == 20 witness seq(20, _ => 0)

  /** The size of the hashed counter in bytes. */
  const TIMER_SIZE: nat := 8

  type Hmac = (seq<Byte>, seq<Byte>) -> Digest

  function Pow10(digits: nat): (p: nat)
    ensures p > 0
  {
    if digits == 0 then 1 else 10 * Pow10(digits - 1)
  }

  // ---------------------------------------------------------------- the standards

  /** The counter in two's complement, the most significant byte first. */
  function CounterBytes(counter: int, bytes: nat): (s: seq<Byte>)
    ensures |s| == bytes
    decreases bytes
  {
    if bytes == 0 then [] else CounterBytes(counter / 256, bytes - 1) + [counter % 256]
  }

  /** Four bytes as a number, the first being the most significant. */
  function BigEndian(b0: int, b1: int, b2: int, b3: int): int {
    ((b0 * 256 + b1) * 256 + b2) * 256 + b3
  }

  /** Dynamic truncation, section 5.3 of RFC 4226. */
  function DynamicTruncation(d: Digest): (n: nat)
    ensures n < 0x8000_0000
  {
    var offset := d[19] % 16;
    BigEndian(d[offset] % 128, d[offset + 1], d[offset + 2], d[offset + 3])
  }

  /** The value of a counter, section 5.3 of RFC 4226. */
  function Hotp(hmac: Hmac, key: seq<Byte>, counter: int, digits: nat): nat {
    DynamicTruncation(hmac(key, CounterBytes(counter, TIMER_SIZE))) % Pow10(digits)
  }

  // ---------------------------------------------------------------- the program

  /** Four bytes read as a machine integer, the least significant first. */
  function LoadInt(d: seq<Byte>, at: nat): (n: int)
    requires at + 4 <= |d|
    ensures -0x8000_0000 <= n < 0x8000_0000
  {
    Signed(BigEndian(d[at + 3], d[at + 2], d[at + 1], d[at]))
  }

  function Signed(n: nat): (m: int)
    requires n < 0x1_0000_0000
    ensures -0x8000_0000 <= m < 0x8000_0000 && (m == n || m == n - 0x1_0000_0000)
  {
    if n < 0x8000_0000 then n else n - 0x1_0000_0000
  }

  /** The bytes of a machine integer in the opposite order. */
  function EndianReverse(n: int): int {
    var u0 := n % 0x1_0000_0000;
    var u1 := u0 / 256;
    var u2 := u1 / 256;
    Signed(BigEndian(u0 % 256, u1 % 256, u2 % 256, u2 / 256))
  }

  /** Division that rounds towards zero. */
  function Quotient(n: int, d: nat): int
    requires d > 0
  {
    if n >= 0 then n / d else -(-n / d)
  }

  /** The lowest 31 bits of the integer at the offset that the last four bits of the digest give. */
  function GenerateTotp(hmac: Hmac, key: seq<Byte>, digits: nat, timeStep: nat, timeWindow: int, timestamp: int): nat
    requires 1 <= digits <= 9 && timeStep > 0
  {
    var timer := Quotient(timestamp, timeStep) - timeWindow;
    var digest := hmac(key, CounterBytes(timer, TIMER_SIZE));
    var offset := digest[19] % 16;
    var binary := EndianReverse(LoadInt(digest, offset)) % 0x8000_0000;
    binary % Pow10(digits)
  }

  /** Does the test hold for a number of the range? */
  predicate AnyOf(from: nat, end: nat, test: nat -> bool)
    decreases end - from
  {
    from < end && (test(from) || AnyOf(from + 1, end, test))
  }

  /** The test of one window. */
  function IsGenerated(hmac: Hmac, input: int, key: seq<Byte>, digits: nat, timeStep: nat, now: int): nat -> bool
    requires 1 <= digits <= 9 && timeStep > 0
  {
    window => GenerateTotp(hmac, key, digits, timeStep, window, now) == input
  }

  predicate ValidateTotp(hmac: Hmac, input: int, key: seq<Byte>, digits: nat, timeStep: nat, timeWindow: nat, now: int)
    requires 1 <= digits <= 9 && timeStep > 0
  {
    AnyOf(0, timeWindow + 1, IsGenerated(hmac, input, key, digits, timeStep, now))
  }

  // ---------------------------------------------------------------- the program meets the standards

  lemma SplitByte(high: int, low: int)
    requires 0 <= low < 256
    ensures (high * 256 + low) / 256 == high && (high * 256 + low) % 256 == low
  {
  }

  lemma ReversedBytes(b0: int, b1: int, b2: int, b3: int)
    requires 0 <= b0 < 256 && 0 <= b1 < 256 && 0 <= b2 < 256 && 0 <= b3 < 256
    ensures 0 <= BigEndian(b3, b2, b1, b0) < 0x1_0000_0000 && 0 <= BigEndian(b0, b1, b2, b3) < 0x1_0000_0000
    ensures EndianReverse(Signed(BigEndian(b3, b2, b1, b0))) == Signed(BigEndian(b0, b1, b2, b3))
  {
    var u := BigEndian(b3, b2, b1, b0);
    SplitByte((b3 * 256 + b2) * 256 + b1, b0);
    SplitByte(b3 * 256 + b2, b1);
    SplitByte(b3, b2);
    assert Signed(u) % 0x1_0000_0000 == u;
  }

  /** For every digest the program's code is the standard's, and has at most the digits asked for. */
  lemma GenerateMeetsTheStandard(hmac: Hmac, key: seq<Byte>, digits: nat, timeStep: nat, timeWindow: int, timestamp: int)
    requires 1 <= digits <= 9 && timeStep > 0
    ensures GenerateTotp(hmac, key, digits, timeStep, timeWindow, timestamp)
         == Hotp(hmac, key, Quotient(timestamp, timeStep) - timeWindow, digits)
    ensures GenerateTotp(hmac, key, digits, timeStep, timeWindow, timestamp) < Pow10(digits)
  {
    var digest := hmac(key, CounterBytes(Quotient(timestamp, timeStep) - timeWindow, TIMER_SIZE));
    var offset := digest[19] % 16;
    ReversedBytes(digest[offset], digest[offset + 1], digest[offset + 2], digest[offset + 3]);
    LowBits(digest[offset], digest[offset + 1], digest[offset + 2], digest[offset + 3]);
  }

  /** The sign of the integer is the highest bit of its first byte, which both mask out. */
  lemma LowBits(b0: int, b1: int, b2: int, b3: int)
    requires 0 <= b0 < 256 && 0 <= b1 < 256 && 0 <= b2 < 256 && 0 <= b3 < 256
    ensures Signed(BigEndian(b0, b1, b2, b3)) % 0x8000_0000 == BigEndian(b0 % 128, b1, b2, b3)
  {
    var u, low := BigEndian(b0, b1, b2, b3), BigEndian(b0 % 128, b1, b2, b3);
    assert 0 <= low < 0x8000_0000;
    if b0 < 128 {
      assert Signed(u) == low;
    } else {
      assert b0 % 128 == b0 - 128;
      assert Signed(u) == low - 0x8000_0000;
    }
  }

  ghost predicate HoldsForSome(from: nat, end: nat, test: nat -> bool) {
    exists i :: from <= i < end && test(i)
  }

  lemma ItHolds(from: nat, end: nat, test: nat -> bool, i: nat)
    requires from <= i < end && test(i)
    ensures HoldsForSome(from, end, test)
  {
  }

  lemma {:induction false} AnyOfIff(from: nat, end: nat, test: nat -> bool)
    ensures AnyOf(from, end, test) <==> HoldsForSome(from, end, test)
    decreases end - from
  {
    if from < end {
      AnyOfIff(from + 1, end, test);
    }
  }

  /** The code of a counter some steps before the newest. */
  function CodeBefore(hmac: Hmac, key: seq<Byte>, digits: nat, newest: int, back: nat): nat {
    Hotp(hmac, key, newest - back, digits)
  }

  /** The input is the code of the newest counter or of one of those before it. */
  ghost predicate IsRecentCode(hmac: Hmac, key: seq<Byte>, digits: nat, input: int, newest: int, timeWindow: nat) {
    exists back: nat :: back <= timeWindow && CodeBefore(hmac, key, digits, newest, back) == input
  }

  lemma OneTest(hmac: Hmac, input: int, key: seq<Byte>, digits: nat, timeStep: nat, now: int, window: nat)
    requires 1 <= digits <= 9 && timeStep > 0
    ensures IsGenerated(hmac, input, key, digits, timeStep, now)(window)
       <==> CodeBefore(hmac, key, digits, Quotient(now, timeStep), window) == input
  {
    GenerateMeetsTheStandard(hmac, key, digits, timeStep, window, now);
  }

  lemma AcceptedIsRecent(hmac: Hmac, input: int, key: seq<Byte>, digits: nat, timeStep: nat, timeWindow: nat, now: int)
    requires 1 <= digits <= 9 && timeStep > 0
    ensures HoldsForSome(0, timeWindow + 1, IsGenerated(hmac, input, key, digits, timeStep, now))
        ==> IsRecentCode(hmac, key, digits, input, Quotient(now, timeStep), timeWindow)
  {
    if window: nat :| window < timeWindow + 1 && IsGenerated(hmac, input, key, digits, timeStep, now)(window) {
      OneTest(hmac, input, key, digits, timeStep, now, window);
    }
  }

  lemma RecentIsAccepted(hmac: Hmac, input: int, key: seq<Byte>, digits: nat, timeStep: nat, timeWindow: nat, now: int)
    requires 1 <= digits <= 9 && timeStep > 0
    ensures IsRecentCode(hmac, key, digits, input, Quotient(now, timeStep), timeWindow)
        ==> HoldsForSome(0, timeWindow + 1, IsGenerated(hmac, input, key, digits, timeStep, now))
  {
    if back: nat :| back <= timeWindow && CodeBefore(hmac, key, digits, Quotient(now, timeStep), back) == input {
      OneTest(hmac, input, key, digits, timeStep, now, back);
      ItHolds(0, timeWindow + 1, IsGenerated(hmac, input, key, digits, timeStep, now), back);
    }
  }

  /** Validation accepts exactly the codes of the current counter and of the given number of counters before it, the time
      counters of section 4.2 of RFC 6238. */
  lemma ValidatesExactlyTheWindow(hmac: Hmac, input: int, key: seq<Byte>, digits: nat, timeStep: nat, timeWindow: nat,
                                  now: int)
    requires 1 <= digits <= 9 && timeStep > 0
    ensures ValidateTotp(hmac, input, key, digits, timeStep, timeWindow, now)
       <==> IsRecentCode(hmac, key, digits, input, Quotient(now, timeStep), timeWindow)
  {
    AnyOfIff(0, timeWindow + 1, IsGenerated(hmac, input, key, digits, timeStep, now));
    AcceptedIsRecent(hmac, input, key, digits, timeStep, timeWindow, now);
    RecentIsAccepted(hmac, input, key, digits, timeStep, timeWindow, now);
  }

  lemma MulMonotone(x: nat, y: nat, step: nat)
    requires x <= y
    ensures x * step <= y * step
  {
  }

  lemma QuotientAtMost(n: nat, step: nat, q: nat)
    requires step > 0 && n < (q + 1) * step
    ensures n / step <= q
  {
    if n / step > q {
      MulMonotone(q + 1, n / step, step);
    }
  }

  lemma QuotientAtLeast(n: nat, step: nat, q: nat)
    requires step > 0 && q * step <= n
    ensures q <= n / step
  {
    assert (n / step + 1) * step == n / step * step + step;
    if n / step < q {
      MulMonotone(n / step + 1, q, step);
    }
  }

  lemma QuotientGrows(t: nat, later: nat, step: nat, window: nat)
    requires step > 0 && t <= later <= t + window * step
    ensures t / step <= later / step <= t / step + window
  {
    var q := t / step;
    assert q * step <= t < q * step + step;
    QuotientAtLeast(later, step, q);
    assert (q + window + 1) * step == q * step + window * step + step;
    QuotientAtMost(later, step, q + window);
  }

  lemma MadeIsRecent(hmac: Hmac, key: seq<Byte>, digits: nat, timeStep: nat, timeWindow: nat, made: nat, now: nat)
    requires 1 <= digits <= 9 && timeStep > 0
    requires Quotient(made, timeStep) <= Quotient(now, timeStep) <= Quotient(made, timeStep) + timeWindow
    ensures IsRecentCode(hmac, key, digits, GenerateTotp(hmac, key, digits, timeStep, 0, made), Quotient(now, timeStep),
                         timeWindow)
  {
    var code := GenerateTotp(hmac, key, digits, timeStep, 0, made);
    var back: nat := Quotient(now, timeStep) - Quotient(made, timeStep);
    GenerateMeetsTheStandard(hmac, key, digits, timeStep, 0, made);
    assert CodeBefore(hmac, key, digits, Quotient(now, timeStep), back) == code;
  }

  /** A code made at some time is accepted for as many further steps as the window allows. */
  lemma AcceptedThroughoutTheWindow(hmac: Hmac, key: seq<Byte>, digits: nat, timeStep: nat, timeWindow: nat,
                                    made: nat, now: nat)
    requires 1 <= digits <= 9 && timeStep > 0 && made <= now <= made + timeWindow * timeStep
    ensures ValidateTotp(hmac, GenerateTotp(hmac, key, digits, timeStep, 0, made), key, digits, timeStep, timeWindow, now)
  {
    var code := GenerateTotp(hmac, key, digits, timeStep, 0, made);
    QuotientGrows(made, now, timeStep, timeWindow);
    MadeIsRecent(hmac, key, digits, timeStep, timeWindow, made, now);
    ValidatesExactlyTheWindow(hmac, code, key, digits, timeStep, timeWindow, now);
  }

  function CounterOf(bytes: seq<Byte>): nat {
    if bytes == [] then 0 else CounterOf(bytes[..|bytes| - 1]) * 256 + bytes[|bytes| - 1]
  }

  function Pow256(n: nat): (p: nat)
    ensures p > 0
  {
    if n == 0 then 1 else 256 * Pow256(n - 1)
  }

  /** The bytes hashed determine the counter, so that different counters of 64 bits are hashed differently. */
  lemma {:induction false} CounterRoundTrip(counter: nat, bytes: nat)
    requires counter < Pow256(bytes)
    ensures CounterOf(CounterBytes(counter, bytes)) == counter
  {
    if bytes > 0 {
      CounterRoundTrip(counter / 256, bytes - 1);
      var s := CounterBytes(counter, bytes);
      assert s[..bytes - 1] == CounterBytes(counter / 256, bytes - 1);
    }
  }
}
