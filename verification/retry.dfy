/**
 * `withRetry` of `src/lib/firebaseHealth.ts`: run an operation up to
 * `maxRetries` times, retrying only failures `isRetryableError` accepts.
 * The operation is given as the outcome of its k-th invocation (k from 1);
 * the waits between attempts are recorded without their random jitter.
 */
module Retry {
  import opened FirebaseErrors

  /** What one invocation of the operation did. */
  datatype Attempt<T> = Succeeded(value: T) | Failed(error: ErrorInfo)

  /**
   * How `withRetry` settled. `ThrewUndefined` is the rejection with the
   * never-assigned `lastError`, reached only when the loop never runs.
   */
  datatype Outcome<T> = Returned(value: T) | Threw(error: ErrorInfo) | ThrewUndefined

  /** A failure that `withRetry` would try again. */
  predicate RetryableFailure<T>(a: Attempt<T>) {
    a.Failed? && IsRetryableError(a.error)
  }

  /** 2 to the power `n`. */
  function Pow2(n: nat): (p: nat)
    ensures p >= 1
  {
    if n == 0 then 1 else 2 * Pow2(n - 1)
  }

  /** The deterministic part of the wait after failed attempt `attempt`: `baseDelay * 2^(attempt-1)`. */
  function Backoff(baseDelay: int, attempt: nat): int
    requires attempt >= 1
  {
    baseDelay * Pow2(attempt - 1)
  }

  /**
   * `withRetry(operation, maxRetries, baseDelay)`. `calls` is the number of
   * invocations, `waits` the backoff before each retry.
   */
  method WithRetry<T>(op: nat -> Attempt<T>, maxRetries: int, baseDelay: int)
    returns (outcome: Outcome<T>, calls: nat, waits: seq<int>)
    ensures maxRetries < 1 ==> calls == 0 && outcome == ThrewUndefined && waits == []
    ensures maxRetries >= 1 ==> 1 <= calls <= maxRetries && !outcome.ThrewUndefined?
    ensures forall k :: 1 <= k < calls ==> RetryableFailure(op(k))
    ensures outcome.Returned? ==> op(calls) == Succeeded(outcome.value)
    ensures outcome.Threw? ==> op(calls) == Failed(outcome.error)
    ensures outcome.Threw? ==> calls == maxRetries || !IsRetryableError(outcome.error)
    ensures calls >= 1 ==> |waits| == calls - 1
    ensures forall k :: 0 <= k < |waits| ==> waits[k] == Backoff(baseDelay, k + 1)
  {
    var attempt: nat := 1;
    calls := 0;
    waits := [];
    outcome := ThrewUndefined;
    while attempt <= maxRetries
      invariant 1 <= attempt && calls == attempt - 1 && |waits| == attempt - 1
      invariant attempt == 1 || attempt <= maxRetries
      invariant forall k :: 1 <= k < attempt ==> RetryableFailure(op(k))
      invariant forall k :: 0 <= k < |waits| ==> waits[k] == Backoff(baseDelay, k + 1)
      invariant outcome == ThrewUndefined
      decreases maxRetries - attempt
    {
      var result := op(attempt);
      calls := attempt;
      match result {
        case Succeeded(v) =>
          outcome := Returned(v);
          return;
        case Failed(e) =>
          if IsRetryableError(e) && attempt < maxRetries {
            waits := waits + [Backoff(baseDelay, attempt)];
            attempt := attempt + 1;
          } else {
            outcome := Threw(e);
            return;
          }
      }
    }
  }

  /** Powers of two grow with the exponent. */
  lemma {:induction false} Pow2Monotone(m: nat, n: nat)
    requires m <= n
    ensures Pow2(m) <= Pow2(n)
    decreases n
  {
    if m < n {
      Pow2Monotone(m, n - 1);
    }
  }

  /** With a non-negative base delay, later waits are never shorter than earlier ones. */
  lemma BackoffNonDecreasing(baseDelay: int, a: nat, b: nat)
    requires baseDelay >= 0 && 1 <= a <= b
    ensures Backoff(baseDelay, a) <= Backoff(baseDelay, b)
  {
    Pow2Monotone(a - 1, b - 1);
  }
}
