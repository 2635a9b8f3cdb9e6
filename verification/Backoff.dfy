/** The exponential backoff between retries (src/retry.rs), and the saturating arithmetic other pacing shares. */
module Backoff {
  import opened Bytes

  function Min(x: int, y: int): int { if x < y then x else y }

  function SaturatingMul(x: U64, y: U64): U64 { if x * y > U64_MAX then U64_MAX else x * y }

  lemma {:induction false} Pow2Monotone(m: nat, n: nat)
    requires m <= n
    ensures Pow2(m) <= Pow2(n)
  {
    if m == n {
    } else {
      Pow2Monotone(m, n - 1);
    }
  }

  lemma ShiftFits(n: nat)
    requires n < 64
    ensures Pow2(n) < U64_SIZE
  {
    Pow2Of64();
    Pow2Monotone(n, 63);
  }

  /** 1 << n, or nothing when the shift is as wide as the word. */
  function CheckedShl(n: U32): Option<U64> {
    if n < 64 then
      ShiftFits(n);
      Some(Pow2(n))
    else None
  }

  // ---- Request retries ----

  datatype RetryConfig = RetryConfig(baseDelayMs: U64, maxDelayMs: U64, jitterMs: U64)

  /** The delay before jitter. */
  function ExponentialDelay(attempt: U32, c: RetryConfig): U64 {
    var shifted := CheckedShl(attempt);
    Min(SaturatingMul(c.baseDelayMs, if shifted.Some? then shifted.value else U64_MAX), c.maxDelayMs)
  }

  /** The saturating, shift-checked arithmetic computes the exact min(base * 2^attempt, max) for every attempt. */
  lemma DelayIsExact(attempt: U32, c: RetryConfig)
    ensures ExponentialDelay(attempt, c) == Min(c.baseDelayMs * Pow2(attempt), c.maxDelayMs)
  {
    if attempt >= 64 {
      WideShiftSaturates(attempt, c.baseDelayMs, c.maxDelayMs);
    }
  }

  lemma WideShiftSaturates(attempt: nat, base: U64, max: U64)
    requires attempt >= 64
    ensures Min(SaturatingMul(base, U64_MAX), max) == Min(base * Pow2(attempt), max)
  {
    Pow2Of64();
    Pow2Monotone(64, attempt);
    var p := Pow2(attempt);
    if base > 0 {
      ProductAtLeast(base, p);
      ProductAtLeast(base, U64_MAX);
    }
  }

  lemma ProductAtLeast(x: nat, y: nat)
    requires x >= 1
    ensures x * y >= y
  {
    assert x * y == y + (x - 1) * y;
  }

  /** The delay with a draw from the jitter range. */
  method BackoffDelay(attempt: U32, c: RetryConfig) returns (delay: U64)
    ensures ExponentialDelay(attempt, c) <= delay
    ensures delay <= ExponentialDelay(attempt, c) + (if c.jitterMs > 0 then c.jitterMs - 1 else 0)
  {
    var jitter: U64 := 0;
    if c.jitterMs > 0 {
      assert 0 <= 0 < c.jitterMs;
      jitter :| 0 <= jitter < c.jitterMs;
    }
    delay := SaturatingAdd(ExponentialDelay(attempt, c), jitter);
  }
}
