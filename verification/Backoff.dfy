/** Delays between retries of a gateway call, and the retry loop. */
module Backoff {

  datatype Strategy = Exponential | Linear | NoDelay

  /** Attempts and counts are in 32 bits. */
  type U32 = n: nat | n < 0x1_0000_0000

  /** Durations are in milliseconds. */
  datatype Policy = Policy(maxAttempts: U32, strategy: Strategy, baseMs: nat, capMs: nat, jitter: bool)

  const U32_MAX: U32 := 0xFFFF_FFFF

  /** The largest whole number of milliseconds a `Duration` holds. */
  const DURATION_MAX := 0xFFFF_FFFF_FFFF_FFFF * 1000 + 999

  function Min(a: nat, b: nat): nat {
    if a <= b then a else b
  }

  function SaturatingMul(ms: nat, factor: nat): nat {
    Min(ms * factor, DURATION_MAX)
  }

  function Pow2(n: nat): (p: nat)
    ensures p >= 1
  {
    if n == 0 then 1 else 2 * Pow2(n - 1)
  }

  /** `1u32.checked_shl(attempt).unwrap_or(u32::MAX)`. */
  function ShiftFactor(attempt: U32): nat {
    if attempt < 32 then Pow2(attempt) else U32_MAX
  }

  /** `attempt + 1` as a release build computes it. */
  function Succ(attempt: U32): U32 {
    if attempt == U32_MAX then 0 else attempt + 1
  }

  /** Before jitter. */
  function BaseDelay(p: Policy, attempt: U32): nat {
    match p.strategy
    case Exponential => Min(SaturatingMul(p.baseMs, ShiftFactor(attempt)), p.capMs)
    case Linear => Min(SaturatingMul(p.baseMs, Succ(attempt)), p.capMs)
    case NoDelay => 0
  }

  function Fract(x: real): real {
    x - x.Floor as real
  }

  function JitterFactor(attempt: U32): real {
    0.75 + 0.5 * Fract(attempt as real * 0.618)
  }

  function Scaled(delay: nat, factor: real): int {
    (delay as real * factor).Floor
  }

  function DelayForAttempt(p: Policy, attempt: U32): int {
    var delay := BaseDelay(p, attempt);
    if p.jitter && delay != 0 then Scaled(delay, JitterFactor(attempt)) else delay
  }

  lemma {:induction false} Pow2Monotone(m: nat, n: nat)
    requires m <= n
    ensures Pow2(m) <= Pow2(n)
    decreases n
  {
    if m < n {
      Pow2Monotone(m, n - 1);
    }
  }

  lemma ShiftMonotone(m: U32, n: U32)
    requires m <= n
    ensures ShiftFactor(m) <= ShiftFactor(n)
  {
    if n < 32 {
      Pow2Monotone(m, n);
    } else if m < 32 {
      Pow2Monotone(m, 31);
      Pow2At31();
    }
  }

  lemma Pow2At31()
    ensures Pow2(31) == 0x8000_0000
  {
    assert Pow2(8) == 256;
    assert Pow2(16) == 65536;
    assert Pow2(24) == 0x100_0000;
  }

  lemma ProductMonotone(a: nat, m: nat, n: nat)
    requires m <= n
    ensures a * m <= a * n
  {
  }

  /** Main result: without jitter no attempt waits longer than the cap, and a
      later one never waits less, but for the linear strategy's last attempt
      number, whose successor wraps to zero. */
  lemma DelaysGrowToCap(p: Policy, m: U32, n: U32)
    requires m <= n
    ensures BaseDelay(p, n) <= p.capMs
    ensures p.strategy != Linear || n < U32_MAX ==> BaseDelay(p, m) <= BaseDelay(p, n)
    ensures p.strategy == Linear ==> BaseDelay(p, U32_MAX) == 0
  {
    match p.strategy
    case Exponential =>
      ShiftMonotone(m, n);
      ProductMonotone(p.baseMs, ShiftFactor(m), ShiftFactor(n));
    case Linear =>
      if n < U32_MAX {
        ProductMonotone(p.baseMs, m + 1, n + 1);
      }
    case NoDelay =>
  }

  /** Exponential: the base first, twice as long each time until the cap is met
      or the shift runs out, and the cap from then on. */
  lemma ExponentialLaw(p: Policy, attempt: U32)
    requires p.strategy == Exponential && p.capMs <= DURATION_MAX
    ensures BaseDelay(p, 0) == if p.baseMs <= p.capMs then p.baseMs else p.capMs
    ensures attempt < 31 && BaseDelay(p, attempt) < p.capMs ==>
            BaseDelay(p, attempt + 1) == Min(2 * BaseDelay(p, attempt), p.capMs)
    ensures attempt < 31 && BaseDelay(p, attempt) == p.capMs ==> BaseDelay(p, attempt + 1) == p.capMs
    ensures attempt >= 32 ==> BaseDelay(p, attempt) == Min(p.baseMs * 0xFFFF_FFFF, p.capMs)
  {
    if attempt < 31 {
      assert p.baseMs * Pow2(attempt + 1) == 2 * (p.baseMs * Pow2(attempt));
    }
  }

  /** Linear: the base once more each time, up to the cap. */
  lemma LinearLaw(p: Policy, attempt: U32)
    requires p.strategy == Linear && p.capMs <= DURATION_MAX && attempt < U32_MAX
    ensures BaseDelay(p, attempt) == Min(p.baseMs * (attempt + 1), p.capMs)
  {
  }

  lemma OtherwiseNone(p: Policy, attempt: U32)
    requires p.strategy == NoDelay
    ensures DelayForAttempt(p, attempt) == 0
  {
  }

  // Jitter, over the reals

  lemma JitterRange(attempt: U32)
    ensures 0.75 <= JitterFactor(attempt) < 1.25
  {
  }

  lemma FloorBounds(delay: nat, scaled: real)
    requires 0.75 * delay as real <= scaled <= 1.25 * delay as real
    ensures 3 * delay - 4 < 4 * scaled.Floor <= 5 * delay && scaled.Floor >= 0
  {
    assert (4 * scaled.Floor) as real <= (5 * delay) as real;
  }

  lemma RealProduct(x: real, y: real)
    requires x >= 0.0 && y >= 0.0
    ensures x * y >= 0.0
  {
  }

  lemma RealScale(x: real, factor: real, scaled: real)
    requires x >= 0.0 && 0.75 <= factor <= 1.25 && scaled == x * factor
    ensures 0.75 * x <= scaled <= 1.25 * x
  {
    RealProduct(x, factor - 0.75);
    RealProduct(x, 1.25 - factor);
    assert x * (factor - 0.75) == scaled - 0.75 * x && x * (1.25 - factor) == 1.25 * x - scaled;
  }

  lemma ScaledBounds(delay: nat, factor: real)
    requires 0.75 <= factor < 1.25
    ensures 3 * delay - 4 < 4 * Scaled(delay, factor) <= 5 * delay && Scaled(delay, factor) >= 0
  {
    var scaled := delay as real * factor;
    RealScale(delay as real, factor, scaled);
    FloorBounds(delay, scaled);
  }

  /** Jitter keeps a delay within a quarter of its base, rounded down. */
  lemma JitterBounds(p: Policy, attempt: U32)
    ensures var base, delay := BaseDelay(p, attempt), DelayForAttempt(p, attempt);
            3 * base - 4 < 4 * delay <= 5 * base && delay >= 0
    ensures 4 * DelayForAttempt(p, attempt) <= 5 * p.capMs
  {
    var base := BaseDelay(p, attempt);
    JitterRange(attempt);
    ScaledBounds(base, JitterFactor(attempt));
    DelaysGrowToCap(p, attempt, attempt);
  }

  /** The factors of the first three attempts. */
  lemma JitterLaw(p: Policy)
    ensures JitterFactor(0) == 0.75 && JitterFactor(1) == 1.059 && JitterFactor(2) == 0.868
    ensures !p.jitter ==> forall attempt: U32 :: DelayForAttempt(p, attempt) == BaseDelay(p, attempt)
    ensures p.jitter && BaseDelay(p, 1) == 1000 ==> DelayForAttempt(p, 1) == 1059
  {
    assert (0.618).Floor == 0 && (1.236).Floor == 1;
    assert (1.0 * 0.618) == 0.618 && (2.0 * 0.618) == 1.236;
  }

  // The retry loop

  datatype Reply<T, E> = Done(value: T) | Failure(error: E)

  /** What is slept before the call number `calls`. */
  function TotalDelay(p: Policy, calls: U32): int {
    if calls == 0 then 0 else TotalDelay(p, calls - 1) + DelayForAttempt(p, calls - 1)
  }

  lemma {:induction false} TotalDelayBound(p: Policy, calls: U32)
    ensures 0 <= 4 * TotalDelay(p, calls) <= 5 * p.capMs * calls
  {
    if calls > 0 {
      TotalDelayBound(p, calls - 1);
      JitterBounds(p, calls - 1);
      assert 5 * p.capMs * calls == 5 * p.capMs * (calls - 1) + 5 * p.capMs;
    }
  }

  lemma Doubles(base: nat, x: nat)
    ensures base * (x - 1) + base * x == base * (2 * x - 1)
  {
  }

  lemma WaitIs(p: Policy, n: U32, calls: U32)
    requires p.strategy == Exponential && !p.jitter && p.capMs <= DURATION_MAX && calls <= 31 && n + 1 == calls
    requires p.baseMs * Pow2(calls) <= p.capMs
    ensures p.baseMs * Pow2(n) <= p.capMs && DelayForAttempt(p, n) == p.baseMs * Pow2(n)
  {
    Pow2Monotone(n, calls);
    ProductMonotone(p.baseMs, Pow2(n), Pow2(calls));
  }

  /** Short of the cap and without jitter, n waits double up to base * (2^n - 1). */
  lemma {:induction false} WaitsDouble(p: Policy, calls: U32)
    requires p.strategy == Exponential && !p.jitter && p.capMs <= DURATION_MAX && calls <= 31
    requires p.baseMs * Pow2(calls) <= p.capMs
    ensures TotalDelay(p, calls) == p.baseMs * (Pow2(calls) - 1)
  {
    if calls == 0 {
    } else {
      var n: U32 := calls - 1;
      WaitIs(p, n, calls);
      WaitsDouble(p, n);
      Doubles(p.baseMs, Pow2(n));
    }
  }

  /** `action(k)` is what the k-th call of the action returns. The loop returns
      the first success, or the last error once its attempts are used up. */
  method WithRetry<T, E>(p: Policy, action: nat -> Reply<T, E>, disabled: E)
    returns (reply: Reply<T, E>, calls: U32, slept: int)
    ensures 1 <= calls <= (if p.maxAttempts > 1 then p.maxAttempts else 1)
    ensures reply == action(calls - 1)
    ensures forall k | 0 <= k < calls - 1 :: action(k).Failure?
    ensures reply.Failure? ==> calls == if p.maxAttempts > 1 then p.maxAttempts else 1
    ensures slept == TotalDelay(p, calls - 1)
    ensures 0 <= 4 * slept <= 5 * p.capMs * (calls - 1)
  {
    var max: U32 := if p.maxAttempts > 1 then p.maxAttempts else 1;
    var lastError := disabled;
    calls, slept := 0, 0;
    for attempt := 0 to max
      invariant calls == attempt
      invariant forall k | 0 <= k < attempt :: action(k).Failure?
      invariant attempt > 0 ==> action(attempt - 1) == Failure(lastError)
      invariant slept == TotalDelay(p, if attempt < max then attempt else max - 1)
    {
      calls := calls + 1;
      match action(attempt)
      case Done(value) =>
        TotalDelayBound(p, attempt);
        return Done(value), calls, slept;
      case Failure(e) =>
        lastError := e;
        if attempt + 1 < max {
          var delay := DelayForAttempt(p, attempt);
          if delay != 0 {
            slept := slept + delay;
          }
        }
    }
    TotalDelayBound(p, max - 1);
    return Failure(lastError), calls, slept;
  }
}
