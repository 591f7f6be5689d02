/** How long the two clients wait before they try again. */
module Backoff {
  import opened Words

  // ---------- The asynchronous client ----------

  /** Retry settings; milliseconds are integers, the multiplier is a real number. */
  datatype Retry = Retry(enabled: bool, maxAttempts: int, initial: int, maxDelay: int, multiplier: real)

  function Power(m: real, n: nat): real {
    if n == 0 then 1.0 else Power(m, n - 1) * m
  }

  /** Multiplying the delay once for every attempt after the first. */
  function Uncapped(c: Retry, n: nat): real
    requires n >= 1
  {
    if n == 1 then c.initial as real else Uncapped(c, n - 1) * c.multiplier
  }

  function Delay(c: Retry, n: nat): real
    requires n >= 1
  {
    var d := Uncapped(c, n);
    if d > c.maxDelay as real then c.maxDelay as real else d
  }

  /** The cast to an integer type: towards zero. */
  function Truncate(x: real): int {
    if x >= 0.0 then x.Floor else -((-x).Floor)
  }

  function DelayMs(c: Retry, n: nat): int
    requires n >= 1
  {
    Truncate(Delay(c, n))
  }

  /** The delay loop of `schedule_reconnect`. */
  method RetryDelay(c: Retry, retryCount: nat) returns (ms: int)
    requires retryCount >= 1
    ensures ms == DelayMs(c, retryCount)
  {
    var delay := c.initial as real;
    var i := 1;
    while i < retryCount
      invariant 1 <= i <= retryCount
      invariant delay == Uncapped(c, i)
    {
      delay := delay * c.multiplier;
      i := i + 1;
    }
    if delay > c.maxDelay as real {
      delay := c.maxDelay as real;
    }
    ms := Truncate(delay);
  }

  lemma Associate(x: real, y: real, z: real)
    ensures (x * y) * z == x * (y * z)
  {
  }

  lemma {:induction false} UncappedClosedForm(c: Retry, n: nat)
    requires n >= 1
    ensures Uncapped(c, n) == c.initial as real * Power(c.multiplier, n - 1)
  {
    if n > 1 {
      UncappedClosedForm(c, n - 1);
      var i, p := c.initial as real, Power(c.multiplier, n - 2);
      hide Uncapped, Power;
      assert Uncapped(c, n) == (i * p) * c.multiplier && Power(c.multiplier, n - 1) == p * c.multiplier by {
        PowerStep(c, n);
      }
      Associate(i, p, c.multiplier);
    }
  }

  lemma PowerStep(c: Retry, n: nat)
    requires n > 1
    ensures Uncapped(c, n) == Uncapped(c, n - 1) * c.multiplier
    ensures Power(c.multiplier, n - 1) == Power(c.multiplier, n - 2) * c.multiplier
  {
  }

  /** Truncation goes towards zero by less than 1. */
  lemma TruncateExact(x: real)
    ensures var t := Truncate(x);
            if x >= 0.0 then t >= 0 && t as real <= x < t as real + 1.0
            else t <= 0 && t as real - 1.0 < x <= t as real
  {
  }

  lemma {:induction false} PowerLaw(m: real, i: nat, j: nat)
    ensures Power(m, 0) == 1.0 && Power(m, 1) == m && Power(m, i + j) == Power(m, i) * Power(m, j)
  {
    if j > 0 {
      PowerLaw(m, i, j - 1);
      Associate(Power(m, i), Power(m, j - 1), m);
    }
  }

  /** The loop computes min(initial * multiplier^(n-1), max), cut towards zero to whole milliseconds. */
  lemma DelayClosedForm(c: Retry, n: nat)
    requires n >= 1
    ensures var d := c.initial as real * Power(c.multiplier, n - 1);
            var capped := if d > c.maxDelay as real then c.maxDelay as real else d;
            var ms := DelayMs(c, n);
            && Delay(c, n) == capped
            && (if capped >= 0.0 then ms >= 0 && ms as real <= capped < ms as real + 1.0
                else ms <= 0 && ms as real - 1.0 < capped <= ms as real)
  {
    UncappedClosedForm(c, n);
    TruncateExact(Delay(c, n));
    hide Power, Uncapped, Truncate;
  }

  lemma {:induction false} UncappedGrows(c: Retry, n: nat)
    requires n >= 1 && c.multiplier >= 1.0 && c.initial >= 0
    ensures 0.0 <= Uncapped(c, n) <= Uncapped(c, n + 1)
  {
    if n > 1 {
      UncappedGrows(c, n - 1);
    }
    Scale(Uncapped(c, n), 1.0, c.multiplier);
  }

  lemma TruncateMonotone(x: real, y: real)
    requires x <= y
    ensures Truncate(x) <= Truncate(y)
  {
  }

  /** With a multiplier of at least 1 and a delay that is not negative, attempts never come closer together. */
  lemma {:induction false} DelayMonotone(c: Retry, m: nat, n: nat)
    requires 1 <= m <= n && c.multiplier >= 1.0 && c.initial >= 0
    ensures DelayMs(c, m) <= DelayMs(c, n)
  {
    if m < n {
      DelayMonotone(c, m, n - 1);
      UncappedGrows(c, n - 1);
      TruncateMonotone(Delay(c, n - 1), Delay(c, n));
    }
  }

  lemma Scale(i: real, x: real, y: real)
    requires i >= 0.0 && x <= y
    ensures i * x <= i * y
  {
    assert i * (y - x) >= 0.0;
  }

  // ---------- The polled client ----------

  const BASE_RECONNECT_DELAY_MS := 1000

  /** `calculate_backoff_ms` in its 32-bit arithmetic. */
  function CalculateBackoffMs(attempts: U32): (ms: U32) {
    var shift := if attempts < 10 then attempts else 10;
    var backoff := Wrap32(BASE_RECONNECT_DELAY_MS * Wrap32(Pow2(shift)));
    if backoff < 30000 then backoff else 30000
  }

  lemma {:induction false} Pow2Grows(n: nat)
    requires n >= 5
    ensures Pow2(n) >= 32
  {
    if n == 5 {
      assert Pow2(5) == 2 * Pow2(4) && Pow2(4) == 2 * Pow2(3);
    } else {
      Pow2Grows(n - 1);
    }
  }

  /** Neither the clamp of the shift nor the 32-bit products change the capped exponential. */
  lemma BackoffIsCappedExponential(attempts: U32)
    ensures CalculateBackoffMs(attempts) == var d := 1000 * Pow2(attempts); if d < 30000 then d else 30000
  {
    assert Pow2(2) == 4 && Pow2(4) == 16;
    if attempts >= 5 {
      Pow2Grows(attempts);
      var shift := if attempts < 10 then attempts else 10;
      Pow2Grows(shift);
      Pow2Bound(shift);
    }
  }

  lemma {:induction false} Pow2Bound(n: nat)
    requires n <= 10
    ensures Pow2(n) <= 1024
  {
    assert Pow2(3) == 8 && Pow2(5) == 32 && Pow2(7) == 128 && Pow2(9) == 512 && Pow2(10) == 1024;
  }

  /** The delays of the polled client, in milliseconds. */
  lemma BackoffTable(attempts: U32)
    ensures CalculateBackoffMs(attempts) ==
              match attempts
              case 0 => 1000
              case 1 => 2000
              case 2 => 4000
              case 3 => 8000
              case 4 => 16000
              case _ => 30000
  {
    BackoffIsCappedExponential(attempts);
    hide CalculateBackoffMs;
    assert Pow2(1) == 2 && Pow2(3) == 8;
    if attempts >= 5 { Pow2Grows(attempts); }
  }
}
