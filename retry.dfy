/** `retry_with_backoff`: call an operation up to `max_retries + 1` times,
    sleeping `min(base_delay * exponential_base^attempt, max_delay)` between
    attempts, retrying only the error kinds the caller names retryable.
    Delays are whole seconds here. */
module Retry {

  /** What one call of the wrapped operation does: return or raise. */
  datatype Attempt<T, E> = Returned(value: T) | Raised(error: E)

  /** The keyword arguments of `retry_with_backoff`; `Default` are its defaults. */
  datatype Policy = Policy(maxRetries: nat, baseDelay: nat, maxDelay: nat, expBase: nat)

  const Default := Policy(3, 1, 30, 2)

  /** What a whole retry run did: its final outcome, how often the operation
      was called, and the delays slept, in order. */
  datatype Run<T, E> = Run(outcome: Attempt<T, E>, calls: nat, sleeps: seq<nat>)

  function Pow(b: nat, k: nat): nat
  {
    if k == 0 then 1 else b * Pow(b, k - 1)
  }

  function Min(a: nat, b: nat): nat
  {
    if a <= b then a else b
  }

  /** The delay slept after failed attempt number `k` (counting from 0). */
  function Delay(p: Policy, k: nat): (d: nat)
    ensures d <= p.maxDelay
    ensures d <= p.baseDelay * Pow(p.expBase, k)
    ensures d == p.maxDelay || d == p.baseDelay * Pow(p.expBase, k)
  {
    Min(p.baseDelay * Pow(p.expBase, k), p.maxDelay)
  }

  /** An error that the `except retryable_exceptions` clause catches. */
  predicate Retries<T, E>(a: Attempt<T, E>, retryable: E -> bool)
  {
    a.Raised? && retryable(a.error)
  }

  /** The run from attempt `k` onwards; `call(i)` is what the `i`-th call of
      the operation does. */
  function RunFrom<T, E>(call: nat -> Attempt<T, E>, retryable: E -> bool, p: Policy, k: nat): Run<T, E>
    requires k <= p.maxRetries
    decreases p.maxRetries - k
  {
    var a := call(k);
    if !Retries(a, retryable) || k == p.maxRetries then Run(a, 1, [])
    else
      var rest := RunFrom(call, retryable, p, k + 1);
      Run(rest.outcome, rest.calls + 1, [Delay(p, k)] + rest.sleeps)
  }

  /** The delays after attempts `k`, ..., `j - 1`. */
  function Delays(p: Policy, k: nat, j: nat): (r: seq<nat>)
    requires k <= j
    ensures |r| == j - k
    ensures forall i :: 0 <= i < j - k ==> r[i] == Delay(p, k + i)
    decreases j - k
  {
    if k == j then [] else [Delay(p, k)] + Delays(p, k + 1, j)
  }

  /** The loop of `retry_with_backoff`, one iteration per attempt. */
  method RetryWithBackoff<T, E>(call: nat -> Attempt<T, E>, retryable: E -> bool, p: Policy)
    returns (outcome: Attempt<T, E>, calls: nat, sleeps: seq<nat>)
    ensures Run(outcome, calls, sleeps) == RunFrom(call, retryable, p, 0)
  {
    var attempt: nat := 0;
    var lastError: E;
    calls, sleeps := 0, [];
    while true
      invariant attempt <= p.maxRetries
      invariant calls == attempt
      invariant RunFrom(call, retryable, p, 0) ==
        var r := RunFrom(call, retryable, p, attempt);
        Run(r.outcome, attempt + r.calls, sleeps + r.sleeps)
      decreases p.maxRetries - attempt
    {
      var a := call(attempt);
      calls := calls + 1;
      if !Retries(a, retryable) {
        // a return value, or an error the except clause does not catch
        return a, calls, sleeps;
      }
      lastError := a.error;
      if attempt == p.maxRetries {
        break;
      }
      sleeps := sleeps + [Delay(p, attempt)];
      attempt := attempt + 1;
    }
    outcome := Raised(lastError);
  }

  /** The run stops at the first attempt `j` that does not raise a retryable
      error, or at the last allowed attempt: its outcome is that attempt's, it
      made `j - k + 1` calls and slept the delays of the attempts before. */
  lemma {:induction false} RunFromStops<T, E>(call: nat -> Attempt<T, E>, retryable: E -> bool, p: Policy, k: nat, j: nat)
    requires k <= j <= p.maxRetries
    requires forall i :: k <= i < j ==> Retries(call(i), retryable)
    requires !Retries(call(j), retryable) || j == p.maxRetries
    ensures RunFrom(call, retryable, p, k) == Run(call(j), j - k + 1, Delays(p, k, j))
    decreases j - k
  {
    if k < j {
      RunFromStops(call, retryable, p, k + 1, j);
    }
  }

  /** The operation is called at least once and at most `max_retries + 1`
      times, and there is one sleep between any two calls. */
  lemma {:induction false} RetryCallBounds<T, E>(call: nat -> Attempt<T, E>, retryable: E -> bool, p: Policy, k: nat)
    requires k <= p.maxRetries
    ensures 1 <= RunFrom(call, retryable, p, k).calls <= p.maxRetries - k + 1
    ensures |RunFrom(call, retryable, p, k).sleeps| == RunFrom(call, retryable, p, k).calls - 1
    decreases p.maxRetries - k
  {
    if Retries(call(k), retryable) && k < p.maxRetries {
      RetryCallBounds(call, retryable, p, k + 1);
    }
  }

  /** The sleep before retry `i` is `min(base_delay * exponential_base^i, max_delay)`. */
  lemma {:induction false} RetrySleepSchedule<T, E>(call: nat -> Attempt<T, E>, retryable: E -> bool, p: Policy, k: nat)
    requires k <= p.maxRetries
    ensures forall i :: 0 <= i < |RunFrom(call, retryable, p, k).sleeps| ==>
      RunFrom(call, retryable, p, k).sleeps[i] == Min(p.baseDelay * Pow(p.expBase, k + i), p.maxDelay)
    decreases p.maxRetries - k
  {
    if Retries(call(k), retryable) && k < p.maxRetries {
      RetrySleepSchedule(call, retryable, p, k + 1);
    }
  }

  /** An error outside the retryable kinds on the first call propagates after
      exactly one call and no sleep. */
  lemma NonRetryablePropagates<T, E>(call: nat -> Attempt<T, E>, retryable: E -> bool, p: Policy)
    requires call(0).Raised? && !retryable(call(0).error)
    ensures RunFrom(call, retryable, p, 0) == Run(Raised(call(0).error), 1, [])
  {
  }

  /** When every allowed attempt raises a retryable error, the run raises the
      last one after `max_retries + 1` calls and `max_retries` sleeps. */
  lemma RetryExhausted<T, E>(call: nat -> Attempt<T, E>, retryable: E -> bool, p: Policy)
    requires forall i :: 0 <= i <= p.maxRetries ==> Retries(call(i), retryable)
    ensures RunFrom(call, retryable, p, 0).outcome.Raised?
    ensures RunFrom(call, retryable, p, 0).outcome == call(p.maxRetries)
    ensures RunFrom(call, retryable, p, 0).calls == p.maxRetries + 1
    ensures RunFrom(call, retryable, p, 0).sleeps == Delays(p, 0, p.maxRetries)
  {
    RunFromStops(call, retryable, p, 0, p.maxRetries);
  }

  /** A success after `j` retryable failures is returned after `j + 1` calls. */
  lemma RetrySucceeds<T, E>(call: nat -> Attempt<T, E>, retryable: E -> bool, p: Policy, j: nat)
    requires j <= p.maxRetries && call(j).Returned?
    requires forall i :: 0 <= i < j ==> Retries(call(i), retryable)
    ensures RunFrom(call, retryable, p, 0) == Run(call(j), j + 1, Delays(p, 0, j))
  {
    RunFromStops(call, retryable, p, 0, j);
  }

  /** With base 1, cap 3 and doubling, five retries sleep 1, 2, 3, 3, 3. */
  lemma CappedScheduleExample<T, E>(call: nat -> Attempt<T, E>, retryable: E -> bool)
    requires forall i :: 0 <= i <= 5 ==> Retries(call(i), retryable)
    ensures RunFrom(call, retryable, Policy(5, 1, 3, 2), 0).sleeps == [1, 2, 3, 3, 3]
  {
    var p := Policy(5, 1, 3, 2);
    RetryExhausted(call, retryable, p);
    assert Pow(2, 2) == 4;
    assert Delays(p, 0, 5) == [1, 2, 3, 3, 3];
  }
}
