/** Exponential waiting times: internal/http/retry.go, internal/core/polling.go. Durations are in nanoseconds. */
module Backoff {
  import opened Common

  /** A finite float converted to an integer type truncates towards zero. */
  function Trunc(x: real): int {
    if x >= 0.0 then x.Floor else -((-x).Floor)
  }

  function Pow(m: real, n: nat): real {
    if n == 0 then 1.0 else m * Pow(m, n - 1)
  }

  function IntPow(m: int, n: nat): int {
    if n == 0 then 1 else m * IntPow(m, n - 1)
  }

  lemma {:induction false} PowInt(m: int, n: nat)
    ensures Pow(m as real, n) == IntPow(m, n) as real
  {
    if n > 0 {
      PowInt(m, n - 1);
    }
  }

  lemma TruncInt(n: int)
    ensures Trunc(n as real) == n
  {
  }

  // ----- Retry -----

  datatype RetryConfig = RetryConfig(maxAttempts: int, baseDelay: int, maxDelay: int, multiplier: real, jitter: int)

  /** CalculateBackoff, with the random jitter given. */
  function CalculateBackoff(attempt: nat, c: RetryConfig, jitter: int): int
    requires attempt > 0
  {
    var exponential := c.baseDelay as real * Pow(c.multiplier, attempt - 1);
    Trunc(if exponential < c.maxDelay as real then exponential else c.maxDelay as real) + jitter
  }

  /** The time waited after the first n attempts; attempt k is followed by jitter(k). */
  function TotalWait(c: RetryConfig, jitter: nat -> int, n: nat): int {
    if n == 0 then 0 else TotalWait(c, jitter, n - 1) + CalculateBackoff(n, c, jitter(n))
  }

  lemma DoublingDelay(attempt: nat, c: RetryConfig, jitter: int)
    requires attempt > 0 && c.multiplier == 2.0
    ensures CalculateBackoff(attempt, c, jitter) == Min(c.baseDelay * IntPow(2, attempt - 1), c.maxDelay) + jitter
  {
    PowInt(2, attempt - 1);
    var exponential := c.baseDelay * IntPow(2, attempt - 1);
    assert c.baseDelay as real * Pow(2.0, attempt - 1) == exponential as real;
    TruncInt(Min(exponential, c.maxDelay));
  }

  /** A loop that doubles its delay waits no longer than the geometric sum, nor than the cap each time;
      until the cap is reached it waits exactly the geometric sum plus its jitter. */
  lemma {:induction false} DoublingTotal(c: RetryConfig, jitter: nat -> int, n: nat)
    requires c.multiplier == 2.0
    requires forall k :: 0 <= jitter(k) <= c.jitter
    ensures TotalWait(c, jitter, n) <= Min(c.baseDelay * (IntPow(2, n) - 1), n * c.maxDelay) + n * c.jitter
    ensures c.baseDelay >= 0 && (n > 0 ==> c.baseDelay * IntPow(2, n - 1) <= c.maxDelay) ==>
      0 <= TotalWait(c, jitter, n) - c.baseDelay * (IntPow(2, n) - 1) <= n * c.jitter
  {
    if n > 0 {
      DoublingTotal(c, jitter, n - 1);
      DoublingDelay(n, c, jitter(n));
      GeometricStep(c.baseDelay, n);
      Next(c.maxDelay, n);
      Next(c.jitter, n);
    }
  }

  lemma Next(x: int, n: nat)
    requires n > 0
    ensures n * x == (n - 1) * x + x
  {
  }

  lemma GeometricStep(base: int, n: nat)
    requires n > 0
    ensures base * (IntPow(2, n) - 1) == base * (IntPow(2, n - 1) - 1) + base * IntPow(2, n - 1)
    ensures base >= 0 && n > 1 ==> base * IntPow(2, n - 2) <= base * IntPow(2, n - 1)
  {
    var p := IntPow(2, n - 1);
    assert IntPow(2, n) == 2 * p;
    assert base * (2 * p - 1) == base * (p - 1) + base * p;
    if base >= 0 && n > 1 {
      var q := IntPow(2, n - 2);
      PowPositive(2, n - 2);
      assert p == 2 * q;
      assert base * (2 * q) == base * q + base * q;
      assert base * q >= 0;
    }
  }

  lemma {:induction false} PowPositive(m: int, n: nat)
    requires m >= 1
    ensures IntPow(m, n) >= 1
  {
    if n > 0 {
      PowPositive(m, n - 1);
    }
  }

  datatype Answer<T> = Success(value: T) | Error(recoverable: bool)

  /** Ends the loop at this attempt: a success, an error that must not be retried, or the last attempt. */
  predicate Stops<T>(c: RetryConfig, fn: nat -> Answer<T>, attempt: nat) {
    fn(attempt).Success? || !fn(attempt).recoverable || attempt >= c.maxAttempts
  }

  /** WithRetry over a function given by its answer to each call. With no attempts allowed the function
      is not called and Go's zero value comes back with a nil error: None. */
  method WithRetry<T>(fn: nat -> Answer<T>, c: RetryConfig, jitter: nat -> int)
    returns (r: Option<Answer<T>>, calls: nat, waited: int)
    ensures c.maxAttempts <= 0 <==> r.None?
    ensures r.None? ==> calls == 0 && waited == 0
    ensures r.Some? ==> 1 <= calls <= c.maxAttempts && r.value == fn(calls) && Stops(c, fn, calls)
    ensures forall k :: 1 <= k < calls ==> !Stops(c, fn, k)
    ensures r.Some? ==> waited == TotalWait(c, jitter, calls - 1)
  {
    r, calls, waited := None, 0, 0;
    var attempt := 1;
    while attempt <= c.maxAttempts
      invariant 1 <= attempt && calls == attempt - 1
      invariant attempt > 1 ==> attempt <= c.maxAttempts
      invariant r.None? <==> attempt == 1
      invariant forall k :: 1 <= k < attempt ==> !Stops(c, fn, k)
      invariant waited == TotalWait(c, jitter, attempt - 1)
      decreases c.maxAttempts - attempt
    {
      calls := calls + 1;
      r := Some(fn(attempt));
      if r.value.Success? || !r.value.recoverable || attempt >= c.maxAttempts {
        return;
      }
      waited := waited + CalculateBackoff(attempt, c, jitter(attempt));
      attempt := attempt + 1;
    }
  }

  // ----- Polling -----

  datatype PollingConfig = PollingConfig(interval: int, jitter: int, multiplier: real, maxInterval: int)

  function NextInterval(c: PollingConfig, current: int): int {
    Min(Trunc(current as real * c.multiplier), c.maxInterval)
  }

  class PollingManager {
    const config: PollingConfig
    var currentInterval: int
    var consecutiveErrors: nat

    constructor (config: PollingConfig)
      ensures this.config == config && currentInterval == config.interval && consecutiveErrors == 0
    {
      this.config, currentInterval, consecutiveErrors := config, config.interval, 0;
    }

    method OnSuccess()
      modifies this
      ensures currentInterval == config.interval && consecutiveErrors == 0
    {
      consecutiveErrors, currentInterval := 0, config.interval;
    }

    method OnError()
      modifies this
      ensures currentInterval == NextInterval(config, old(currentInterval))
      ensures consecutiveErrors == old(consecutiveErrors) + 1
    {
      consecutiveErrors := consecutiveErrors + 1;
      var newInterval := Trunc(currentInterval as real * config.multiplier);
      if newInterval > config.maxInterval {
        newInterval := config.maxInterval;
      }
      currentInterval := newInterval;
    }

    /** `fraction` is the random number the jitter is scaled by. */
    method GetNextDelay(fraction: real) returns (delay: int)
      requires 0.0 <= fraction < 1.0
      ensures config.jitter >= 0 ==> currentInterval <= delay <= currentInterval + config.jitter
    {
      assert config.jitter >= 0 ==> 0.0 <= fraction * config.jitter as real <= config.jitter as real;
      delay := currentInterval + Trunc(fraction * config.jitter as real);
    }
  }

  function AfterErrors(c: PollingConfig, k: nat): int {
    if k == 0 then c.interval else NextInterval(c, AfterErrors(c, k - 1))
  }

  lemma IntervalStep(c: PollingConfig, m: int, current: int)
    requires c.multiplier == m as real
    ensures NextInterval(c, current) == Min(current * m, c.maxInterval)
  {
    assert current as real * m as real == (current * m) as real;
    TruncInt(current * m);
  }

  lemma CapStays(x: int, m: int, cap: int)
    requires m >= 1 && 0 <= x && 0 <= cap
    ensures Min(Min(x, cap) * m, cap) == Min(x * m, cap)
  {
    assert x * m >= x && cap * m >= cap;
  }

  lemma Scale(x: int, m: int, p: int)
    requires x >= 0 && p >= 1
    ensures x * p * m == x * (m * p) && x * p >= 0
  {
  }

  /** After k consecutive failed polls the interval is the capped exponential. */
  lemma {:induction false} PollingClosedForm(c: PollingConfig, m: int, k: nat)
    requires c.multiplier == m as real && m >= 1 && 0 <= c.interval <= c.maxInterval
    ensures AfterErrors(c, k) == Min(c.interval * IntPow(m, k), c.maxInterval)
  {
    if k > 0 {
      PollingClosedForm(c, m, k - 1);
      IntervalStep(c, m, AfterErrors(c, k - 1));
      PowPositive(m, k - 1);
      Scale(c.interval, m, IntPow(m, k - 1));
      CapStays(c.interval * IntPow(m, k - 1), m, c.maxInterval);
    }
  }
}
