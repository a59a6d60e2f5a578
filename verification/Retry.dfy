/** The retry loop: attempts until one settles the matter, with capped exponential waits between them. */
module Retry {
  import opened Prelude

  /** An exception, by the name of its class. */
  datatype Failure = Failure(kind: string)

  datatype Attempt<V> = Value(value: V) | Raises(failure: Failure)

  /** `retryable` lists the exception classes to retry, subclasses included; empty means all. */
  datatype RetryPolicy = RetryPolicy(maxRetries: int, initialDelay: real, maxDelay: real, backoffFactor: real,
                                     retryable: set<string>)

  predicate ShouldRetry(p: RetryPolicy, f: Failure) {
    p.retryable == {} || f.kind in p.retryable
  }

  /** Attempt `k` (from 0) ends the loop: it succeeds, or its failure may not be retried, or no retry is left. */
  predicate Settles<V>(p: Option<RetryPolicy>, attempts: nat -> Attempt<V>, k: nat) {
    match attempts(k)
    case Value(_) => true
    case Raises(f) => p.None? || k >= p.value.maxRetries || !ShouldRetry(p.value, f)
  }

  /** The first attempt from `k` on that settles. */
  function Settled<V>(p: Option<RetryPolicy>, attempts: nat -> Attempt<V>, k: nat): (n: nat)
    ensures k <= n && Settles(p, attempts, n)
    ensures forall i :: k <= i < n ==> !Settles(p, attempts, i)
    decreases if p.Some? then p.value.maxRetries - k else 0
  {
    if Settles(p, attempts, k) then k else Settled(p, attempts, k + 1)
  }

  /** What the caller of the loop sees: the settling attempt's value or exception. */
  function Outcome<V>(p: Option<RetryPolicy>, attempts: nat -> Attempt<V>): Attempt<V> {
    attempts(Settled(p, attempts, 0))
  }

  function Power(b: real, k: nat): real {
    if k == 0 then 1.0 else b * Power(b, k - 1)
  }

  /** The loop's delay before the `k`-th wait, from 0. */
  function Delay(p: RetryPolicy, k: nat): real {
    p.initialDelay * Power(p.backoffFactor, k)
  }

  /** The `k`-th wait, from 0. */
  function Wait(p: RetryPolicy, k: nat): real {
    MinReal(Delay(p, k), p.maxDelay)
  }

  function Sum(waits: seq<real>): real {
    if waits == [] then 0.0 else Sum(waits[..|waits| - 1]) + waits[|waits| - 1]
  }

  lemma BackoffStep(p: RetryPolicy, k: nat)
    ensures Delay(p, k + 1) == Delay(p, k) * p.backoffFactor
  {
  }

  /** There are at most `maxRetries + 1` attempts, and one if retries are not positive. */
  lemma AttemptsAreBounded<V>(p: Option<RetryPolicy>, attempts: nat -> Attempt<V>)
    ensures p.None? || p.value.maxRetries <= 0 ==> Settled(p, attempts, 0) == 0
    ensures p.Some? && p.value.maxRetries >= 0 ==> Settled(p, attempts, 0) <= p.value.maxRetries
  {
    assert Settles(p, attempts, 0) || (p.Some? && p.value.maxRetries > 0);
    if p.Some? && p.value.maxRetries >= 0 {
      assert Settles(p, attempts, p.value.maxRetries);
    }
  }

  /** The loop returns the first success when every failure before it may be retried and retries suffice. */
  lemma FirstSuccessWins<V>(p: RetryPolicy, attempts: nat -> Attempt<V>, n: nat)
    requires attempts(n).Value? && n <= p.maxRetries
    requires forall k: nat :: k < n ==> attempts(k).Raises? && ShouldRetry(p, attempts(k).failure)
    ensures Outcome(Some(p), attempts) == attempts(n)
  {
    assert forall k: nat :: k < n ==> !Settles(Some(p), attempts, k);
    assert Settles(Some(p), attempts, n);
  }

  /** What the loop raises is a failure that may not be retried, or the last one allowed. */
  lemma RaisesOnlyWhenDone<V>(p: RetryPolicy, attempts: nat -> Attempt<V>)
    requires Outcome(Some(p), attempts).Raises?
    ensures var n := Settled(Some(p), attempts, 0);
            && (forall k: nat :: k < n ==> attempts(k).Raises? && ShouldRetry(p, attempts(k).failure))
            && (!ShouldRetry(p, attempts(n).failure) || n == MaxInt(0, p.maxRetries))
  {
    AttemptsAreBounded(Some(p), attempts);
    var n := Settled(Some(p), attempts, 0);
    forall k: nat | k < n
      ensures attempts(k).Raises? && ShouldRetry(p, attempts(k).failure)
    {
      assert !Settles(Some(p), attempts, k);
    }
  }

  /**
   A further attempt is made exactly if all so far have failed, retries are left, and each failure is of a
   class listed as retryable or none is listed.
   */
  lemma RetriedIff<V>(p: RetryPolicy, attempts: nat -> Attempt<V>, k: nat)
    ensures Settled(Some(p), attempts, 0) > k
            <==> && k < p.maxRetries
                 && forall i: nat :: i <= k ==>
                      attempts(i).Raises? && (p.retryable == {} || attempts(i).failure.kind in p.retryable)
  {
    var n := Settled(Some(p), attempts, 0);
    if n > k {
      forall i: nat | i <= k
        ensures attempts(i).Raises? && i < p.maxRetries && ShouldRetry(p, attempts(i).failure)
      {
        assert !Settles(Some(p), attempts, i);
      }
      assert attempts(k).Raises? && k < p.maxRetries;
    } else {
      assert Settles(Some(p), attempts, n);
      assert attempts(n).Raises? ==> n >= p.maxRetries || !ShouldRetry(p, attempts(n).failure);
    }
  }

  /** The first wait is the initial delay, and each further one the last times the factor, until the cap is reached. */
  lemma WaitsGrow(p: RetryPolicy, k: nat)
    ensures Wait(p, 0) == MinReal(p.initialDelay, p.maxDelay)
    ensures Wait(p, k) < p.maxDelay ==> Wait(p, k + 1) == MinReal(Wait(p, k) * p.backoffFactor, p.maxDelay)
    ensures p.initialDelay >= 0.0 && p.backoffFactor >= 1.0 && Wait(p, k) == p.maxDelay ==> Wait(p, k + 1) == p.maxDelay
  {
    hide Delay, Wait;
    BackoffStep(p, k);
    FirstWait(p);
    if p.initialDelay >= 0.0 && p.backoffFactor >= 1.0 {
      DelayPositive(p, k);
    }
    NextWait(p, k);
  }

  lemma NextWait(p: RetryPolicy, k: nat)
    requires Delay(p, k + 1) == Delay(p, k) * p.backoffFactor
    ensures Wait(p, k) < p.maxDelay ==> Wait(p, k + 1) == MinReal(Wait(p, k) * p.backoffFactor, p.maxDelay)
    ensures Delay(p, k) >= 0.0 && p.backoffFactor >= 1.0 && Wait(p, k) == p.maxDelay ==> Wait(p, k + 1) == p.maxDelay
  {
    hide Delay;
    if Delay(p, k) >= 0.0 && p.backoffFactor >= 1.0 {
      ProductGrows(Delay(p, k), p.backoffFactor);
    }
  }

  lemma FirstWait(p: RetryPolicy)
    ensures Wait(p, 0) == MinReal(p.initialDelay, p.maxDelay)
  {
    hide Delay;
    FirstDelay(p);
  }

  lemma FirstDelay(p: RetryPolicy)
    ensures Delay(p, 0) == p.initialDelay
  {
  }

  lemma DelayPositive(p: RetryPolicy, k: nat)
    requires p.initialDelay >= 0.0 && p.backoffFactor >= 1.0
    ensures Delay(p, k) >= 0.0
  {
    hide Power;
    PowerPositive(p.backoffFactor, k);
    ProductGrows(p.initialDelay, Power(p.backoffFactor, k));
  }

  lemma ProductGrows(x: real, y: real)
    requires x >= 0.0 && y >= 1.0
    ensures x * y >= x
  {
  }

  lemma {:induction false} PowerPositive(b: real, k: nat)
    requires b >= 1.0
    ensures Power(b, k) >= 1.0
    decreases k
  {
    if k > 0 {
      PowerPositive(b, k - 1);
    }
  }

  /** The loop never sleeps longer in all than `maxRetries` times the cap. */
  lemma {:induction false} TotalWaitIsBounded(p: RetryPolicy, waits: seq<real>)
    requires p.maxDelay >= 0.0 && |waits| <= MaxInt(0, p.maxRetries)
    requires forall k :: 0 <= k < |waits| ==> waits[k] == Wait(p, k)
    ensures Sum(waits) <= MaxInt(0, p.maxRetries) as real * p.maxDelay
  {
    SumIsCapped(p, waits);
    assert (MaxInt(0, p.maxRetries) - |waits|) as real * p.maxDelay >= 0.0;
  }

  lemma {:induction false} SumIsCapped(p: RetryPolicy, waits: seq<real>)
    requires forall k :: 0 <= k < |waits| ==> waits[k] == Wait(p, k)
    ensures Sum(waits) <= |waits| as real * p.maxDelay
    decreases |waits|
  {
    hide Delay;
    if waits != [] {
      SumIsCapped(p, waits[..|waits| - 1]);
    }
  }

  /**
   The loop itself: its outcome is that of the first settling attempt, made after exactly one wait
   per failure before it, and it never falls out at the end.
   */
  method RunWithRetries<V>(p: Option<RetryPolicy>, attempts: nat -> Attempt<V>)
    returns (outcome: Attempt<V>, tries: nat, waits: seq<real>)
    ensures outcome == Outcome(p, attempts)
    ensures tries == Settled(p, attempts, 0) + 1 && |waits| == tries - 1
    ensures p.Some? ==> forall k :: 0 <= k < |waits| ==> waits[k] == Wait(p.value, k)
  {
    waits := [];
    AttemptsAreBounded(p, attempts);
    if p.None? || p.value.maxRetries <= 0 {
      return attempts(0), 1, waits;
    }
    var policy := p.value;
    var delay := policy.initialDelay;
    FirstDelay(policy);
    hide Delay;
    var n := 0;
    while n < policy.maxRetries + 1
      invariant 0 <= n <= Settled(p, attempts, 0) && |waits| == n
      invariant delay == Delay(policy, n)
      invariant forall k :: 0 <= k < |waits| ==> waits[k] == Wait(policy, k)
    {
      outcome := attempts(n);
      if outcome.Value? {
        assert Settles(p, attempts, n);
        return outcome, n + 1, waits;
      }
      if n >= policy.maxRetries || !ShouldRetry(policy, outcome.failure) {
        assert Settles(p, attempts, n);
        return outcome, n + 1, waits;
      }
      assert !Settles(p, attempts, n);
      var wait := MinReal(delay, policy.maxDelay);
      waits := waits + [wait];
      BackoffStep(policy, n);
      delay := delay * policy.backoffFactor;
      n := n + 1;
    }
    assert false;
  }
}
