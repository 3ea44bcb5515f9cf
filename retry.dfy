/**
 * `withRetry` (src/retry.ts): calls an operation until it succeeds, waiting
 * between failures with a capped exponential backoff, and gives up after a
 * fixed number of attempts by rethrowing the last error.
 *
 * The operation is a function from the call index (0, 1, 2, ...) to that
 * call's outcome. The sleeps are not performed. They are returned as the
 * sequence of delays the loop would wait, in milliseconds.
 */
module Retry {
  import opened Js

  /** The caller's `RetryOptions`: every field may be absent. */
  datatype Options = Options(maxRetries: Option<int>, initialBackoffMs: Option<int>,
                             maxBackoffMs: Option<int>, backoffFactor: Option<int>,
                             logging: Option<bool>)

  /** The options after merging with the defaults. */
  datatype Config = Config(maxRetries: int, initialBackoffMs: int, maxBackoffMs: int,
                           backoffFactor: int, logging: bool)

  /** `DEFAULT_RETRY_OPTIONS`. */
  const Defaults := Config(5, 1000, 60000, 2, true)

  const NoOptions := Options(None, None, None, None, None)

  /** One call of the operation: a value, or an error that may carry a `retry-after` in seconds. */
  datatype Attempt<T, E> = Success(value: T) | Failure(error: E, retryAfterSec: Option<int>)

  /** How `withRetry` ends: with the operation's value, or by rethrowing an error. */
  datatype Outcome<T, E> = Returned(value: T) | Thrown(error: E)

  function OrElse<V>(o: Option<V>, d: V): V { if o.Some? then o.value else d }

  /** `{ ...DEFAULT_RETRY_OPTIONS, ...options }`: each given field wins, each absent one is the default. */
  function Merge(o: Options): (c: Config)
    ensures o.maxRetries.Some? ==> c.maxRetries == o.maxRetries.value
    ensures o.maxRetries.None? ==> c.maxRetries == 5
    ensures o.initialBackoffMs.Some? ==> c.initialBackoffMs == o.initialBackoffMs.value
    ensures o.initialBackoffMs.None? ==> c.initialBackoffMs == 1000
    ensures o.maxBackoffMs.Some? ==> c.maxBackoffMs == o.maxBackoffMs.value
    ensures o.maxBackoffMs.None? ==> c.maxBackoffMs == 60000
    ensures o.backoffFactor.Some? ==> c.backoffFactor == o.backoffFactor.value
    ensures o.backoffFactor.None? ==> c.backoffFactor == 2
    ensures o.logging.Some? ==> c.logging == o.logging.value
    ensures o.logging.None? ==> c.logging
  {
    Config(OrElse(o.maxRetries, Defaults.maxRetries),
           OrElse(o.initialBackoffMs, Defaults.initialBackoffMs),
           OrElse(o.maxBackoffMs, Defaults.maxBackoffMs),
           OrElse(o.backoffFactor, Defaults.backoffFactor),
           OrElse(o.logging, Defaults.logging))
  }

  /** With no options at all, the configuration is exactly the defaults. */
  lemma MergeOfNothingIsDefaults()
    ensures Merge(NoOptions) == Defaults
  {
  }

  /**
   * The most calls `withRetry` makes: the attempt counter is compared with
   * `maxRetries` only after it has been incremented, so at least one call is
   * always made.
   */
  function MaxCalls(c: Config): (n: nat)
    ensures n >= 1 && n >= c.maxRetries
    ensures c.maxRetries >= 1 ==> n == c.maxRetries
    ensures c.maxRetries <= 1 ==> n == 1
  {
    if c.maxRetries <= 1 then 1 else c.maxRetries
  }

  /** The backoff after `n` waits: the initial one, multiplied by the factor and capped after each wait. */
  function Backoff(c: Config, n: nat): int
  {
    if n == 0 then c.initialBackoffMs
    else Min(Backoff(c, n - 1) * c.backoffFactor, c.maxBackoffMs)
  }

  /** The wait after the failure `a` of call `n`: its `retry-after` in milliseconds, else the backoff, capped. */
  function Delay<T, E>(c: Config, a: Attempt<T, E>, n: nat): (d: int)
    requires a.Failure?
    ensures d <= c.maxBackoffMs
    ensures a.retryAfterSec.Some? ==> d == Min(a.retryAfterSec.value * 1000, c.maxBackoffMs)
    ensures a.retryAfterSec.None? ==> d == Min(Backoff(c, n), c.maxBackoffMs)
  {
    var wanted := if a.retryAfterSec.Some? then a.retryAfterSec.value * 1000 else Backoff(c, n);
    Min(wanted, c.maxBackoffMs)
  }

  /**
   * With `0 <= initialBackoffMs <= maxBackoffMs` and a factor of at least 1,
   * the backoff never decreases and never exceeds the cap.
   */
  lemma {:induction false} BackoffGrowsWithinCap(c: Config, n: nat)
    requires 0 <= c.initialBackoffMs <= c.maxBackoffMs && c.backoffFactor >= 1
    ensures c.initialBackoffMs <= Backoff(c, n) <= Backoff(c, n + 1) <= c.maxBackoffMs
  {
    if n > 0 {
      BackoffGrowsWithinCap(c, n - 1);
    }
    var b := Backoff(c, n);
    assert b * c.backoffFactor >= b * 1 by {
      MultiplyByAtLeastOne(b, c.backoffFactor);
    }
  }

  lemma MultiplyByAtLeastOne(b: int, f: int)
    requires b >= 0 && f >= 1
    ensures b * f >= b
  {
    assert b * f == b + b * (f - 1);
  }

  /** Without `retry-after` headers and with a sane configuration, every wait is at least the initial backoff. */
  lemma {:induction false} BackoffDelayAtLeastInitial<T, E>(c: Config, a: Attempt<T, E>, n: nat)
    requires 0 <= c.initialBackoffMs <= c.maxBackoffMs && c.backoffFactor >= 1
    requires a.Failure? && a.retryAfterSec.None?
    ensures c.initialBackoffMs <= Delay(c, a, n) <= c.maxBackoffMs
  {
    BackoffGrowsWithinCap(c, n);
  }

  /**
   * `withRetry(fn, options)`. Returns how it ends, how many times `fn` was
   * called, and the waits made between calls.
   */
  method WithRetry<T, E>(fn: nat -> Attempt<T, E>, options: Options)
    returns (outcome: Outcome<T, E>, calls: nat, delays: seq<int>)
    ensures 1 <= calls <= MaxCalls(Merge(options))
    // every call but the last failed, so the first success is returned at once
    ensures forall i: nat :: i < calls - 1 ==> fn(i).Failure?
    ensures outcome.Returned? <==> fn(calls - 1).Success?
    ensures outcome.Returned? ==> outcome.value == fn(calls - 1).value
    // giving up happens only after the last allowed call, with that call's error
    ensures outcome.Thrown? ==> calls == MaxCalls(Merge(options)) && outcome.error == fn(calls - 1).error
    // one wait between consecutive calls, none before the first or after the last
    ensures |delays| == calls - 1
    ensures forall i: nat :: i < |delays| ==> delays[i] == Delay(Merge(options), fn(i), i)
  {
    var opts := Merge(options);
    var attempt: nat := 0;
    var backoffMs := opts.initialBackoffMs;
    delays := [];
    while true
      invariant attempt < MaxCalls(opts)
      invariant backoffMs == Backoff(opts, attempt)
      invariant forall i: nat :: i < attempt ==> fn(i).Failure?
      invariant |delays| == attempt
      invariant forall i: nat :: i < attempt ==> delays[i] == Delay(opts, fn(i), i)
      decreases MaxCalls(opts) - attempt
    {
      var result := fn(attempt);
      if result.Success? {
        return Returned(result.value), attempt + 1, delays;
      }
      attempt := attempt + 1;
      if attempt >= opts.maxRetries {
        return Thrown(result.error), attempt, delays;
      }
      var retryAfterMs := backoffMs;
      if result.retryAfterSec.Some? {
        retryAfterMs := result.retryAfterSec.value * 1000;
      }
      retryAfterMs := Min(retryAfterMs, opts.maxBackoffMs);
      delays := delays + [retryAfterMs];
      backoffMs := Min(backoffMs * opts.backoffFactor, opts.maxBackoffMs);
    }
  }
}
