/** Extraction with retries and the backoff between attempts. */
module Retry {
  import opened Wrappers

  /* ---- the retry loop ---- */

  datatype Code = UnreadableImage | NoQuestionsFound | PartialExtraction | Other(code: string)

  // What one call of the extractor gives back: a transport error, or a reply that may carry an error.
  datatype Reply<T> = Transport(message: string) | Reply(result: T, error: Option<Code>)

  // Retried: transport errors, unreadable images and empty extractions.
  predicate Retryable<T>(r: Reply<T>) {
    r.Transport? || r.error == Some(UnreadableImage) || r.error == Some(NoQuestionsFound)
  }

  predicate Repeated<T>(r: Reply<T>) {
    match r
    case Transport(_) => true
    case Reply(_, None) => false
    case Reply(_, Some(UnreadableImage)) => true
    case Reply(_, Some(NoQuestionsFound)) => true
    case Reply(_, Some(PartialExtraction)) => false
    case Reply(_, Some(Other(_))) => false
  }

  datatype Verdict<T> = Canceled | Unavailable(message: string) | Final(reply: Reply<T>) | NeverTried

  function VerdictOf<T>(r: Reply<T>): Verdict<T> {
    if r.Transport? then Unavailable(r.message) else Final(r)
  }

  // The first attempt that is not worth repeating, or the last one allowed; attempts count from 1.
  predicate Decides<T>(attempts: nat -> Reply<T>, max: nat, n: nat) {
    && 1 <= n <= max
    && (n == max || !Retryable(attempts(n)))
    && forall k :: 1 <= k < n ==> Retryable(attempts(k))
  }

  // The context is seen as cancelled at checkpoint 2 * (n - 1) before attempt n and at checkpoint
  // 2 * n - 1 during the pause that follows it; `cancelFrom` is the first such checkpoint.
  method ExtractWithRetries<T>(attempts: nat -> Reply<T>, max: int, cancelFrom: nat)
    returns (verdict: Verdict<T>, calls: nat)
    ensures max < 1 ==> verdict == NeverTried && calls == 0
    ensures max >= 1 ==> calls <= max
    ensures max >= 1 && !verdict.Canceled? ==>
      Decides(attempts, max, calls) && verdict == VerdictOf(attempts(calls))
    // in the replies themselves: transport errors, unreadable images and empty extractions are repeated,
    // nothing else is, and a transport error is what is left of a service that never answered
    ensures forall k :: 1 <= k < calls ==> Repeated(attempts(k))
    ensures max >= 1 && !verdict.Canceled? && calls < max ==> !Repeated(attempts(calls))
    ensures max >= 1 && !verdict.Canceled? ==>
      match attempts(calls)
      case Transport(message) => verdict == Unavailable(message)
      case Reply(_, _) => verdict == Final(attempts(calls))
    ensures max >= 1 && verdict.Canceled? ==>
      (forall k :: 1 <= k <= calls ==> Retryable(attempts(k))) && calls < max
      && (cancelFrom == 2 * calls || (calls >= 1 && cancelFrom == 2 * calls - 1))
  {
    calls := 0;
    verdict := NeverTried;
    var attempt := 1;
    while attempt <= max
      invariant calls == attempt - 1
      invariant attempt == 1 ==> verdict == NeverTried
      invariant attempt > 1 ==> verdict == VerdictOf(attempts(calls)) && attempt <= max
      invariant forall k :: 1 <= k <= calls ==> Retryable(attempts(k))
      invariant cancelFrom >= 2 * calls
    {
      if cancelFrom <= 2 * (attempt - 1) {
        return Canceled, calls;
      }
      var reply := attempts(attempt);
      calls := attempt;
      verdict := VerdictOf(reply);
      if reply.Reply? && reply.error.None? {
        return;
      }
      if reply.Reply? {
        match reply.error.value {
          case PartialExtraction => return;
          case UnreadableImage =>
          case NoQuestionsFound =>
          case Other(_) => return;
        }
      }
      if attempt == max {
        return;
      }
      if cancelFrom <= 2 * attempt - 1 {
        return Canceled, calls;
      }
      attempt := attempt + 1;
    }
  }

  // There is exactly one deciding attempt, so the loop's result is determined.
  lemma {:induction false} DecidesOnce<T>(attempts: nat -> Reply<T>, max: nat, m: nat, n: nat)
    requires Decides(attempts, max, m) && Decides(attempts, max, n)
    ensures m == n
  {
    assert m < n ==> Retryable(attempts(m));
    assert n < m ==> Retryable(attempts(n));
  }

  lemma {:induction false} SomeAttemptDecides<T>(attempts: nat -> Reply<T>, max: nat, from: nat) returns (n: nat)
    requires 1 <= from <= max && forall k :: 1 <= k < from ==> Retryable(attempts(k))
    ensures Decides(attempts, max, n)
    decreases max - from
  {
    if from == max || !Retryable(attempts(from)) {
      n := from;
    } else {
      n := SomeAttemptDecides(attempts, max, from + 1);
    }
  }

  /* ---- backoff ---- */

  const SECOND := 1_000_000_000
  const BACKOFF_CAP := 8 * SECOND

  function Pow2(n: nat): (p: nat)
    ensures p >= 1
  {
    if n == 0 then 1 else 2 * Pow2(n - 1)
  }

  const TWO63 := 0x8000_0000_0000_0000
  const TWO64 := 0x1_0000_0000_0000_0000

  // Two's complement 64-bit value of an unbounded product.
  function Wrap64(x: nat): int {
    var r := x % TWO64;
    if r < TWO63 then r else r - TWO64
  }

  // The unjittered wait in nanoseconds: a 64-bit shift, capped when it is too large or negative.
  function BackoffCenter(attempt: int): int {
    var a := if attempt < 1 then 1 else attempt;
    var d := Wrap64(SECOND * Pow2(a - 1));
    if d > BACKOFF_CAP || d < 0 then BACKOFF_CAP else d
  }

  // With a factor drawn from [0.8, 1.2); the conversion to a duration truncates.
  function DefaultBackoff(attempt: int, factor: real): int {
    (BackoffCenter(attempt) as real * factor).Floor
  }

  function IdealCenter(attempt: int): nat {
    if attempt < 1 then SECOND
    else if attempt <= 4 then SECOND * Pow2(attempt - 1)
    else BACKOFF_CAP
  }

  // One, two, four and then eight seconds.
  lemma {:induction false} IdealSteps(attempt: int)
    ensures attempt <= 1 ==> IdealCenter(attempt) == 1_000_000_000
    ensures attempt == 2 ==> IdealCenter(attempt) == 2_000_000_000
    ensures attempt == 3 ==> IdealCenter(attempt) == 4_000_000_000
    ensures attempt >= 4 ==> IdealCenter(attempt) == 8_000_000_000
  {
    assert Pow2(1) == 2 && Pow2(2) == 4 && Pow2(3) == 8;
  }

  lemma {:induction false} Pow2Adds(m: nat, n: nat)
    ensures Pow2(m + n) == Pow2(m) * Pow2(n)
  {
    if m > 0 {
      Pow2Adds(m - 1, n);
      assert Pow2(m + n) == 2 * (Pow2(m - 1) * Pow2(n));
    }
  }

  lemma {:induction false} Pow2Monotone(m: nat, n: nat)
    requires m <= n
    ensures Pow2(m) <= Pow2(n)
    decreases n
  {
    if m < n {
      Pow2Monotone(m, n - 1);
    }
  }

  lemma {:induction false} Pow2Small()
    ensures Pow2(4) == 16 && Pow2(8) == 256 && Pow2(9) == 512 && Pow2(16) == 65536
  {
    assert Pow2(4) == 16;
    Pow2Adds(4, 4);
    Pow2Adds(8, 1);
    Pow2Adds(8, 8);
  }

  lemma {:induction false} Pow2Values()
    ensures Pow2(4) == 16 && Pow2(9) == 512 && Pow2(33) == 0x2_0000_0000 && Pow2(64) == TWO64
  {
    Pow2Small();
    Pow2Adds(16, 16);
    Pow2Adds(1, 32);
    Pow2Adds(32, 32);
  }

  // 5^9; one second is 5^9 * 2^9 nanoseconds.
  const FIVE9 := 1953125

  lemma {:induction false} OddRemainder(q: nat)
    requires q >= 1
    ensures FIVE9 % (2 * q) >= 1
  {
    var c, r := FIVE9 / (2 * q), FIVE9 % (2 * q);
    assert r == FIVE9 - (2 * q) * c;
    assert (2 * q) * c == 2 * (q * c);
    assert r % 2 == 1;
  }

  lemma {:induction false} SameQuotient(b: nat, d: nat, r: nat, d': int, r': int)
    requires r < b && 0 <= r' < b && b * d + r == b * d' + r'
    ensures r == r'
  {
    assert b * (d - d') == r' - r;
    assert d - d' >= 1 ==> b * (d - d') >= b;
    assert d' - d >= 1 ==> b * (d' - d) >= b;
    assert b * (d' - d) == r - r';
  }

  lemma {:induction false} ModOfSum(b: nat, d: nat, r: nat)
    requires r < b
    ensures (b * d + r) % b == r
  {
    var x := b * d + r;
    var q := x / b;
    assert x == b * q + x % b;
    SameQuotient(b, d, r, q, x % b);
  }

  lemma {:induction false} ModScaled(x: nat, p: nat, q: nat)
    requires p >= 1 && q >= 1
    ensures p * q >= 1
    ensures (p * x) % (p * q) == p * (x % q)
  {
    var d, r := x / q, x % q;
    assert x == q * d + r;
    assert p * (q * d + r) == p * (q * d) + p * r;
    assert p * (q * d) == (p * q) * d;
    assert p * r < p * q;
    ModOfSum(p * q, d, p * r);
  }

  lemma {:induction false} SecondsShifted(s: nat)
    ensures SECOND * Pow2(s) == Pow2(9 + s) * FIVE9
  {
    Pow2Values();
    Pow2Adds(9, s);
    assert SECOND == FIVE9 * 512;
    assert FIVE9 * 512 * Pow2(s) == FIVE9 * (512 * Pow2(s));
  }

  lemma {:induction false} Product(p: nat, r: nat)
    requires r >= 1 && p > BACKOFF_CAP
    ensures p * r > BACKOFF_CAP
  {
    assert p * r == p + p * (r - 1);
  }

  // While some bits are left the shifted value is over the cap or negative...
  lemma {:induction false} LargeShift(s: nat)
    requires 24 <= s < 55
    ensures Wrap64(SECOND * Pow2(s)) > BACKOFF_CAP || Wrap64(SECOND * Pow2(s)) < 0
  {
    var p, q := Pow2(9 + s), Pow2(54 - s);
    SecondsShifted(s);
    Pow2Values();
    Pow2Monotone(33, 9 + s);
    Pow2Adds(9 + s, 55 - s);
    assert Pow2(55 - s) == 2 * q;
    ModScaled(FIVE9, p, 2 * q);
    OddRemainder(q);
    Product(p, FIVE9 % (2 * q));
  }

  // ... and zero once all bits have been shifted out.
  lemma {:induction false} EmptyShift(s: nat)
    requires s >= 55
    ensures Wrap64(SECOND * Pow2(s)) == 0
  {
    var c := Pow2(s - 55);
    SecondsShifted(s);
    Pow2Values();
    Pow2Adds(64, s - 55);
    assert TWO64 * c * FIVE9 == TWO64 * (c * FIVE9);
    ModOfSum(TWO64, c * FIVE9, 0);
  }

  lemma {:induction false} SmallShift(s: nat)
    requires s < 24
    ensures Wrap64(SECOND * Pow2(s)) == SECOND * Pow2(s)
    ensures s <= 3 ==> SECOND * Pow2(s) <= BACKOFF_CAP
    ensures s >= 4 ==> SECOND * Pow2(s) > BACKOFF_CAP
  {
    Pow2Values();
    Pow2Monotone(s, 33);
    if s <= 3 {
      Pow2Monotone(s, 3);
      assert Pow2(3) == 8;
    } else {
      Pow2Monotone(4, s);
    }
  }

  // The 64-bit computation meets the documented center exactly up to attempt 55; later attempts
  // would not wait at all.
  lemma {:induction false} BackoffExact(attempt: int)
    ensures BackoffCenter(attempt) == IdealCenter(attempt) <==> attempt <= 55
    ensures attempt > 55 ==> BackoffCenter(attempt) == 0
  {
    var s := if attempt < 1 then 0 else attempt - 1;
    if s < 24 {
      SmallShift(s);
    } else if s < 55 {
      LargeShift(s);
    } else {
      EmptyShift(s);
    }
  }

  lemma {:induction false} Scaled(c: real, factor: real)
    requires c > 0.0 && 0.8 <= factor < 1.2
    ensures 0.8 * c <= c * factor < 1.2 * c
  {
  }

  lemma {:induction false} FloorWithin(x: real, least: int, limit: real)
    requires least as real <= x < limit
    ensures least <= x.Floor && x.Floor as real < limit
  {
  }

  // The center is a whole number of seconds, so that 0.8 of it is a whole number of nanoseconds.
  lemma {:induction false} IdealSeconds(attempt: int) returns (seconds: nat)
    ensures seconds >= 1 && IdealCenter(attempt) == SECOND * seconds
    ensures 0.8 * (IdealCenter(attempt) as real) == (800_000_000 * seconds) as real
  {
    seconds := if attempt < 1 then 1 else if attempt <= 4 then Pow2(attempt - 1) else 8;
  }

  lemma {:induction false} BackoffBounds(attempt: int, factor: real)
    requires 0.8 <= factor < 1.2
    ensures attempt <= 55 ==>
      var c := IdealCenter(attempt) as real;
      0.8 * c <= DefaultBackoff(attempt, factor) as real < 1.2 * c
  {
    BackoffExact(attempt);
    var seconds := IdealSeconds(attempt);
    var c := IdealCenter(attempt) as real;
    Scaled(c, factor);
    FloorWithin(c * factor, 800_000_000 * seconds, 1.2 * c);
  }
}
