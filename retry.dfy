/** Retry with exponential backoff, and `safe_api_call`, which is retry with
    the default settings. The retried function is given by what each of
    its calls does; `random.random()` by the draw taken before each sleep;
    `time.sleep` is recorded as the list of lengths slept. */
module Retry {
  import opened Wrappers

  /** What one call of the retried function does. */
  datatype Attempt<+T, +E> = Succeeded(value: T) | Failed(error: E)

  /** How the retry ends. `RaisedTypeError` is `raise None` (no attempt was
      made, so there is no exception to re-raise); `InvalidSleep` is the
      `ValueError` that `time.sleep` raises for a negative length. */
  datatype Outcome<+T, +E> =
    | Returned(value: T)
    | Reraised(error: E)
    | RaisedTypeError
    | InvalidSleep(length: real)

  /** The outcome, the number of calls made, and the sleeps in order. */
  datatype Run<+T, +E> = Run(outcome: Outcome<T, E>, calls: nat, sleeps: seq<real>)

  datatype Config = Config(
    maxRetries: int,
    baseDelay: real,
    maxDelay: real,
    backoffFactor: real,
    jitter: bool)

  /** The keyword defaults, which `safe_api_call` uses. */
  const Defaults := Config(3, 1.0, 60.0, 2.0, true)

  function Pow(x: real, n: nat): real {
    if n == 0 then 1.0 else x * Pow(x, n - 1)
  }

  function Min(a: real, b: real): real {
    if a <= b then a else b
  }

  /** The delay after failed attempt `i` before jitter. */
  function Delay(cfg: Config, i: nat): real {
    Min(cfg.baseDelay * Pow(cfg.backoffFactor, i), cfg.maxDelay)
  }

  /** The length slept after failed attempt `i`, with draw `draws(i)`. */
  function Slept(cfg: Config, draws: nat -> real, i: nat): real {
    if cfg.jitter then Jitter(Delay(cfg, i), draws(i)) else Delay(cfg, i)
  }

  /** `delay * (0.5 + random.random() * 0.5)`. */
  function Jitter(delay: real, r: real): real {
    delay * (0.5 + r * 0.5)
  }

  /** The sleeps after the first `k` attempts. */
  function Sleeps(cfg: Config, draws: nat -> real, k: nat): (r: seq<real>)
    ensures |r| == k
  {
    seq(k, i requires 0 <= i < k => Slept(cfg, draws, i))
  }

  /** Attempt `k` ends the retry: it succeeds, it is the last one, or the
      sleep after it is rejected. */
  predicate Stops<T, E>(cfg: Config, op: nat -> Attempt<T, E>, draws: nat -> real, k: nat) {
    op(k).Succeeded? || k == cfg.maxRetries || Slept(cfg, draws, k) < 0.0
  }

  /** The first attempt at or after `from` that ends the retry. */
  function FirstStop<T, E>(cfg: Config, op: nat -> Attempt<T, E>, draws: nat -> real, from: nat): (k: nat)
    requires from <= cfg.maxRetries
    ensures from <= k <= cfg.maxRetries && Stops(cfg, op, draws, k)
    ensures forall j :: from <= j < k ==> !Stops(cfg, op, draws, j)
    decreases cfg.maxRetries - from
  {
    if Stops(cfg, op, draws, from) then from else FirstStop(cfg, op, draws, from + 1)
  }

  /** An attempt that ends the retry with none before it is the first stop. */
  lemma {:induction false} FirstStopAt<T, E>(cfg: Config, op: nat -> Attempt<T, E>, draws: nat -> real, k: nat)
    requires k <= cfg.maxRetries && Stops(cfg, op, draws, k)
    requires forall j :: 0 <= j < k ==> !Stops(cfg, op, draws, j)
    ensures FirstStop(cfg, op, draws, 0) == k
  {
  }

  /** `raise last_exception`, where `None` is not an exception. */
  function RaiseLast<T, E>(last: Option<E>): Outcome<T, E> {
    match last
    case None => RaisedTypeError
    case Some(e) => Reraised(e)
  }

  /** What the retry does, stated by the attempt that ends it. */
  function Retry<T, E>(cfg: Config, op: nat -> Attempt<T, E>, draws: nat -> real): Run<T, E> {
    if cfg.maxRetries < 0 then Run(RaisedTypeError, 0, [])
    else
      var k := FirstStop(cfg, op, draws, 0);
      var outcome :=
        if op(k).Succeeded? then Returned(op(k).value)
        else if k == cfg.maxRetries then Reraised(op(k).error)
        else InvalidSleep(Slept(cfg, draws, k));
      Run(outcome, k + 1, Sleeps(cfg, draws, k))
  }

  /** `retry_with_exponential_backoff(func, ...)`. */
  method RetryWithBackoff<T, E>(cfg: Config, op: nat -> Attempt<T, E>, draws: nat -> real)
    returns (outcome: Outcome<T, E>, calls: nat, sleeps: seq<real>)
    ensures Run(outcome, calls, sleeps) == Retry(cfg, op, draws)
  {
    var lastError: Option<E> := None;
    calls := 0;
    sleeps := [];
    var attempt: nat := 0;
    while attempt < cfg.maxRetries + 1
      invariant cfg.maxRetries >= 0 ==> attempt <= cfg.maxRetries
      invariant cfg.maxRetries < 0 ==> attempt == 0
      invariant calls == attempt && sleeps == Sleeps(cfg, draws, attempt)
      invariant forall j :: 0 <= j < attempt ==> !Stops(cfg, op, draws, j)
      invariant attempt == 0 ==> lastError == None
      invariant attempt > 0 ==> !Stops(cfg, op, draws, attempt - 1) && lastError == Some(op(attempt - 1).error)
      decreases cfg.maxRetries + 1 - attempt
    {
      var result := op(attempt);
      calls := calls + 1;
      if result.Succeeded? {
        outcome := Returned(result.value);
        FirstStopAt(cfg, op, draws, attempt);
        return;
      }
      lastError := Some(result.error);
      if attempt == cfg.maxRetries {
        outcome := RaiseLast(lastError);
        FirstStopAt(cfg, op, draws, attempt);
        return;
      }
      var delay := Min(cfg.baseDelay * Pow(cfg.backoffFactor, attempt), cfg.maxDelay);
      assert delay == Delay(cfg, attempt);
      if cfg.jitter {
        delay := Jitter(delay, draws(attempt));
      }
      assert delay == Slept(cfg, draws, attempt);
      if delay < 0.0 {
        outcome := InvalidSleep(delay);
        FirstStopAt(cfg, op, draws, attempt);
        return;
      }
      assert Sleeps(cfg, draws, attempt + 1) == Sleeps(cfg, draws, attempt) + [delay];
      sleeps := sleeps + [delay];
      attempt := attempt + 1;
    }
    outcome := RaiseLast(lastError);
  }

  /** `safe_api_call(func)`: the retry with its defaults. */
  method SafeApiCall<T, E>(op: nat -> Attempt<T, E>, draws: nat -> real)
    returns (outcome: Outcome<T, E>, calls: nat, sleeps: seq<real>)
    ensures Run(outcome, calls, sleeps) == Retry(Defaults, op, draws)
    ensures 1 <= calls <= 4
  {
    outcome, calls, sleeps := RetryWithBackoff(Defaults, op, draws);
    CallsBounded(Defaults, op, draws);
  }

  // ---------------------------------------------------------------------
  // Properties of the retry

  /** `random.random()` draws from `[0, 1)`. */
  ghost predicate UnitDraws(draws: nat -> real) {
    forall i: nat :: 0.0 <= draws(i) < 1.0
  }

  /** Settings under which no delay is negative. */
  predicate NonNegativeDelays(cfg: Config) {
    cfg.baseDelay >= 0.0 && cfg.maxDelay >= 0.0 && cfg.backoffFactor >= 0.0
  }

  /** The function is called at most `max_retries + 1` times, at least once
      when `max_retries >= 0`, and never when it is negative; one sleep
      separates each call from the next, none follows the last. */
  lemma {:induction false} CallsBounded<T, E>(cfg: Config, op: nat -> Attempt<T, E>, draws: nat -> real)
    ensures var r := Retry(cfg, op, draws);
            && (cfg.maxRetries < 0 ==> r.calls == 0 && r.outcome == RaisedTypeError && r.sleeps == [])
            && (cfg.maxRetries >= 0 ==> 1 <= r.calls <= cfg.maxRetries + 1 && |r.sleeps| == r.calls - 1)
  {
  }

  /** The first successful call's value is returned at once: `k` failed
      calls before it and exactly `k` sleeps. */
  lemma {:induction false} FirstSuccessReturned<T, E>(cfg: Config, op: nat -> Attempt<T, E>, draws: nat -> real, k: nat)
    requires NonNegativeDelays(cfg) && UnitDraws(draws)
    requires k <= cfg.maxRetries && op(k).Succeeded?
    requires forall j :: 0 <= j < k ==> op(j).Failed?
    ensures Retry(cfg, op, draws) == Run(Returned(op(k).value), k + 1, Sleeps(cfg, draws, k))
  {
    forall j | 0 <= j < k
      ensures !Stops(cfg, op, draws, j)
    {
      SleptNonNegative(cfg, draws, j);
    }
    FirstStopAt(cfg, op, draws, k);
  }

  /** When every call fails, the exception of the final call is re-raised
      after `max_retries + 1` calls and `max_retries` sleeps. */
  lemma {:induction false} LastErrorReraised<T, E>(cfg: Config, op: nat -> Attempt<T, E>, draws: nat -> real)
    requires NonNegativeDelays(cfg) && UnitDraws(draws)
    requires cfg.maxRetries >= 0
    requires forall j :: 0 <= j <= cfg.maxRetries ==> op(j).Failed?
    ensures Retry(cfg, op, draws)
         == Run(Reraised(op(cfg.maxRetries).error), cfg.maxRetries + 1, Sleeps(cfg, draws, cfg.maxRetries))
  {
    forall j | 0 <= j < cfg.maxRetries
      ensures !Stops(cfg, op, draws, j)
    {
      SleptNonNegative(cfg, draws, j);
    }
  }

  /** With non-negative settings and draws from `[0, 1)`, `time.sleep` never
      rejects a length: the retry ends by returning or re-raising. */
  lemma {:induction false} NoInvalidSleep<T, E>(cfg: Config, op: nat -> Attempt<T, E>, draws: nat -> real)
    requires NonNegativeDelays(cfg) && UnitDraws(draws)
    ensures !Retry(cfg, op, draws).outcome.InvalidSleep?
  {
    if cfg.maxRetries >= 0 {
      SleptNonNegative(cfg, draws, FirstStop(cfg, op, draws, 0));
    }
  }

  /** The default settings: at most four calls and three sleeps. */
  lemma {:induction false} SafeApiCallBounded<T, E>(op: nat -> Attempt<T, E>, draws: nat -> real)
    ensures 1 <= Retry(Defaults, op, draws).calls <= 4
    ensures |Retry(Defaults, op, draws).sleeps| <= 3
  {
    CallsBounded(Defaults, op, draws);
  }

  lemma {:induction false} PowNonNegative(x: real, n: nat)
    requires x >= 0.0
    ensures Pow(x, n) >= 0.0
  {
    if n > 0 {
      PowNonNegative(x, n - 1);
    }
  }

  lemma {:induction false} PowMonotone(x: real, i: nat, j: nat)
    requires x >= 1.0 && i <= j
    ensures 1.0 <= Pow(x, i) <= Pow(x, j)
    decreases j
  {
    if i < j {
      PowMonotone(x, i, j - 1);
      assert Pow(x, j) == x * Pow(x, j - 1);
    } else if i > 0 {
      PowMonotone(x, i - 1, i - 1);
    }
  }

  /** The delay before jitter is `min(base_delay * backoff_factor ** i,
      max_delay)`: never above `max_delay` nor above the uncapped
      exponential, and never below zero with
      non-negative settings. */
  lemma {:induction false} DelayCapped(cfg: Config, i: nat)
    ensures Delay(cfg, i) <= cfg.maxDelay
    ensures Delay(cfg, i) == cfg.maxDelay || Delay(cfg, i) == cfg.baseDelay * Pow(cfg.backoffFactor, i)
    ensures Delay(cfg, i) <= cfg.baseDelay * Pow(cfg.backoffFactor, i)
    ensures NonNegativeDelays(cfg) ==> Delay(cfg, i) >= 0.0
  {
    var uncapped := cfg.baseDelay * Pow(cfg.backoffFactor, i);
    assert Delay(cfg, i) == Min(uncapped, cfg.maxDelay);
    if NonNegativeDelays(cfg) {
      PowNonNegative(cfg.backoffFactor, i);
    }
  }

  /** With `backoff_factor >= 1` the delay does not decrease from one
      attempt to a later one. */
  lemma {:induction false} DelayMonotone(cfg: Config, i: nat, j: nat)
    requires cfg.baseDelay >= 0.0 && cfg.backoffFactor >= 1.0 && i <= j
    ensures Delay(cfg, i) <= Delay(cfg, j)
  {
    PowMonotone(cfg.backoffFactor, i, j);
    var a := Pow(cfg.backoffFactor, i);
    var b := Pow(cfg.backoffFactor, j);
    assert cfg.baseDelay * a <= cfg.baseDelay * b by {
      assert cfg.baseDelay * b - cfg.baseDelay * a == cfg.baseDelay * (b - a);
    }
  }

  /** With jitter the length slept lies in `[d / 2, d)` for a positive
      delay `d`, and is `d` itself without jitter. */
  lemma {:induction false} JitterBounds(cfg: Config, draws: nat -> real, i: nat)
    requires 0.0 <= draws(i) < 1.0
    ensures var d := Delay(cfg, i);
            && (!cfg.jitter ==> Slept(cfg, draws, i) == d)
            && (cfg.jitter && d > 0.0 ==> d / 2.0 <= Slept(cfg, draws, i) < d)
  {
    var d := Delay(cfg, i);
    var m := 0.5 + draws(i) * 0.5;
    if cfg.jitter && d > 0.0 {
      assert 0.5 <= m < 1.0;
      Scale(d, 0.5, m);
      Scale(d, m, 1.0);
    }
  }

  /** Multiplying by a positive number keeps a strict or weak order. */
  lemma {:induction false} Scale(d: real, a: real, b: real)
    requires d > 0.0
    ensures a <= b ==> d * a <= d * b
    ensures a < b ==> d * a < d * b
  {
  }

  lemma {:induction false} SleptNonNegative(cfg: Config, draws: nat -> real, i: nat)
    requires NonNegativeDelays(cfg) && 0.0 <= draws(i) < 1.0
    ensures Slept(cfg, draws, i) >= 0.0
  {
    DelayCapped(cfg, i);
    var d := Delay(cfg, i);
    if cfg.jitter {
      assert d * (0.5 + draws(i) * 0.5) >= 0.0;
    }
  }
}
