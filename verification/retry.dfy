/**
  The Polly `WaitAndRetry` policy as used throughout the bus: run an action,
  and while it throws an exception the policy handles and fewer than
  `retryCount` retries have been made, sleep `2^attempt` seconds and run it
  again. A fault that is not handled, or one that outlives the retry budget,
  is rethrown to the caller.

  The action is given as `step`: `step(k)` is what the k-th try (0-based)
  produces, together with the effects that try had on the outside world.
 */
module Retry {
  import opened Errors

  function Pow2(k: nat): (r: nat)
    ensures r >= 1
  {
    if k == 0 then 1 else 2 * Pow2(k - 1)
  }

  /** The sleep before retry number `attempt` (1-based): `2^attempt` seconds. */
  function SleepSeconds(attempt: nat): nat
  {
    Pow2(attempt)
  }

  /** What one try of an action yields. */
  datatype Attempt<+T> = Returned(value: T) | Raised(fault: Fault)

  /** One try: its outcome and the effects it had before returning or throwing. */
  datatype Try<+T, +E> = Try(result: Attempt<T>, effects: seq<E>)

  /** A whole policy execution. */
  datatype Run<+T, +E> = Run(result: Attempt<T>, effects: seq<E>, sleeps: seq<nat>, tries: nat)

  /** Whether the policy retries after a try with outcome `a`, `tried` retries having been made. */
  predicate Retries<T>(handles: Fault -> bool, retryCount: nat, tried: nat, a: Attempt<T>)
  {
    a.Raised? && handles(a.fault) && tried < retryCount
  }

  /** The effects of `n` consecutive tries starting at try `k`, in order. */
  function EffectsOf<T, E>(step: nat -> Try<T, E>, k: nat, n: nat): seq<E>
    decreases n
  {
    if n == 0 then [] else step(k).effects + EffectsOf(step, k + 1, n - 1)
  }

  /** The effects of one more try come after those of the tries before it. */
  lemma {:induction false} EffectsOfSnoc<T, E>(step: nat -> Try<T, E>, k: nat, n: nat)
    ensures EffectsOf(step, k, n + 1) == EffectsOf(step, k, n) + step(k + n).effects
    decreases n
  {
    if n > 0 {
      EffectsOfSnoc(step, k + 1, n - 1);
    }
  }

  /** Whatever a try that ran did is among the effects of the run. */
  lemma {:induction false} EffectsOfContains<T, E>(step: nat -> Try<T, E>, k: nat, n: nat, i: nat, x: E)
    requires k <= i < k + n
    ensures x in step(i).effects ==> x in EffectsOf(step, k, n)
    decreases n
  {
    if i > k {
      EffectsOfContains(step, k + 1, n - 1, i, x);
    }
  }

  /** Sum of a sequence of sleeps. */
  function Total(s: seq<nat>): nat
  {
    if s == [] then 0 else s[0] + Total(s[1..])
  }

  /**
    The policy, resumed at try `k` (k retries already made). The contract is
    the whole meaning of WaitAndRetry: how many tries run, which one decides
    the outcome, that every earlier try failed with a handled fault, that a
    handled fault escapes only once the budget is spent, the sleeps taken, and
    that effects are those of the tries that ran.
   */
  function Execute<T, E>(handles: Fault -> bool, retryCount: nat, step: nat -> Try<T, E>, k: nat): (r: Run<T, E>)
    requires k <= retryCount
    decreases retryCount - k
    ensures 1 <= r.tries <= retryCount + 1 - k
    ensures r.result == step(k + r.tries - 1).result
    ensures forall i :: k <= i < k + r.tries - 1 ==> step(i).result.Raised? && handles(step(i).result.fault)
    ensures !Retries(handles, retryCount, k + r.tries - 1, r.result)
    ensures r.result.Raised? && handles(r.result.fault) ==> k + r.tries == retryCount + 1
    ensures |r.sleeps| == r.tries - 1
    ensures forall i :: 0 <= i < |r.sleeps| ==> r.sleeps[i] == SleepSeconds(k + i + 1)
    ensures r.effects == EffectsOf(step, k, r.tries)
  {
    var t := step(k);
    if Retries(handles, retryCount, k, t.result) then
      var rest := Execute(handles, retryCount, step, k + 1);
      var sleeps := [SleepSeconds(k + 1)] + rest.sleeps;
      assert forall i :: 1 <= i < |sleeps| ==> sleeps[i] == rest.sleeps[i - 1];
      Run(rest.result, t.effects + rest.effects, sleeps, rest.tries + 1)
    else
      Run(t.result, t.effects, [], 1)
  }

  /** `Policy.Handle<...>().WaitAndRetry(retryCount, 2^n).Execute(step)`. */
  function WaitAndRetry<T, E>(handles: Fault -> bool, retryCount: nat, step: nat -> Try<T, E>): Run<T, E>
  {
    Execute(handles, retryCount, step, 0)
  }

  /** What the deciding try did is part of what the run did. */
  lemma LastTryInRun<T, E>(handles: Fault -> bool, retryCount: nat, step: nat -> Try<T, E>, x: E)
    ensures var run := WaitAndRetry(handles, retryCount, step);
      x in step(run.tries - 1).effects ==> x in run.effects
  {
    var run := WaitAndRetry(handles, retryCount, step);
    EffectsOfContains(step, 0, run.tries, run.tries - 1, x);
  }

  /** A try that succeeds first time is the only try: no retry, no sleep. */
  lemma FirstSuccessRunsOnce<T, E>(handles: Fault -> bool, retryCount: nat, step: nat -> Try<T, E>)
    requires step(0).result.Returned?
    ensures WaitAndRetry(handles, retryCount, step) == Run(step(0).result, step(0).effects, [], 1)
  {
  }

  /** A handled fault on the first try, then a success: two tries, one sleep of two seconds between them. */
  lemma RetriedOnceThenReturned<T, E>(handles: Fault -> bool, retryCount: nat, step: nat -> Try<T, E>)
    requires retryCount >= 1
    requires step(0).result.Raised? && handles(step(0).result.fault)
    requires step(1).result.Returned?
    ensures WaitAndRetry(handles, retryCount, step) == Run(step(1).result, step(0).effects + step(1).effects, [2], 2)
  {
    assert Execute(handles, retryCount, step, 1) == Run(step(1).result, step(1).effects, [], 1);
  }

  /** A fault the policy does not handle escapes from the first try, unretried. */
  lemma UnhandledFaultNotRetried<T, E>(handles: Fault -> bool, retryCount: nat, step: nat -> Try<T, E>)
    ensures step(0).result.Raised? && !handles(step(0).result.fault) ==>
      WaitAndRetry(handles, retryCount, step) == Run(step(0).result, step(0).effects, [], 1)
  {
  }

  /** Sleeps `2^(k+1), ..., 2^(k+n)` add up to `2^(k+n+1) - 2^(k+1)`. */
  lemma {:induction false} GeometricTotal(s: seq<nat>, k: nat)
    requires forall i :: 0 <= i < |s| ==> s[i] == SleepSeconds(k + i + 1)
    ensures Total(s) == Pow2(k + |s| + 1) - Pow2(k + 1)
    decreases |s|
  {
    if s != [] {
      GeometricTotal(s[1..], k + 1);
    }
  }

  /**
    When every try fails with a handled fault, the policy makes exactly
    `retryCount + 1` tries, sleeps `2^1 + ... + 2^retryCount` seconds in all,
    and rethrows the last fault. With the default `retryCount = 5` this is 62
    seconds of sleep over six tries.
   */
  lemma Exhaustion<T, E>(handles: Fault -> bool, retryCount: nat, step: nat -> Try<T, E>)
    requires forall i :: 0 <= i <= retryCount ==> step(i).result.Raised? && handles(step(i).result.fault)
    ensures WaitAndRetry(handles, retryCount, step).tries == retryCount + 1
    ensures WaitAndRetry(handles, retryCount, step).result == step(retryCount).result
    ensures Total(WaitAndRetry(handles, retryCount, step).sleeps) == Pow2(retryCount + 1) - 2
  {
    var r := WaitAndRetry(handles, retryCount, step);
    GeometricTotal(r.sleeps, 0);
  }

  /** The default budget of five retries sleeps 62 seconds before giving up. */
  lemma DefaultBudgetSleeps62Seconds<T, E>(handles: Fault -> bool, step: nat -> Try<T, E>)
    requires forall i :: 0 <= i <= 5 ==> step(i).result.Raised? && handles(step(i).result.fault)
    ensures Total(WaitAndRetry(handles, 5, step).sleeps) == 62
  {
    Exhaustion(handles, 5, step);
  }

  /** A property of effects that holds of every try holds of the whole run. */
  lemma {:induction false} EffectsOfAll<T, E>(step: nat -> Try<T, E>, k: nat, n: nat, P: E -> bool)
    requires forall i :: k <= i < k + n ==> forall x :: x in step(i).effects ==> P(x)
    ensures forall x :: x in EffectsOf(step, k, n) ==> P(x)
    decreases n
  {
    if n > 0 {
      EffectsOfAll(step, k + 1, n - 1, P);
    }
  }

  /** Repeating one effect sequence `n` times. */
  function Repeat<E>(e: seq<E>, n: nat): seq<E>
  {
    if n == 0 then [] else e + Repeat(e, n - 1)
  }

  /** Tries that all have the same effects contribute those effects once per try. */
  lemma {:induction false} EffectsOfUniform<T, E>(step: nat -> Try<T, E>, k: nat, n: nat, e: seq<E>)
    requires forall i :: k <= i < k + n ==> step(i).effects == e
    ensures EffectsOf(step, k, n) == Repeat(e, n)
    decreases n
  {
    if n > 0 {
      EffectsOfUniform(step, k + 1, n - 1, e);
    }
  }
}
