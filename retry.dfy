/**
  The `retry_forever` decorator of the DHT22 daemon: call a fallible operation
  until it succeeds, sleeping `min(retry^2, 64)` seconds after the retry-th
  failure. The operation is given as the sequence of outcomes its successive
  calls produce; sleeping is recorded as the list of durations slept.
 */
module Retry {
  import opened Wrappers

  /** The outcome of one call of the wrapped operation: it raised, or it returned a value. */
  datatype Attempt<T> = Failed | Succeeded(value: T)

  /** Largest delay between two attempts, in seconds. */
  const MaxDelay: nat := 64

  /** Delay slept after the retry-th failed attempt (retry counts from 1). */
  function Backoff(retry: nat): (d: nat)
    ensures d <= MaxDelay && d <= retry * retry
    ensures d == retry * retry || d == MaxDelay
  {
    if retry * retry > MaxDelay then MaxDelay else retry * retry
  }

  /** Below the cap the delay is the square of the retry number. */
  lemma BackoffBelowCap(retry: nat)
    requires retry <= 8
    ensures Backoff(retry) == retry * retry
  {
    assert retry * retry <= 8 * 8 by { MulMono(retry, 8); }
  }

  /** From the eighth retry on the delay is the cap of 64 seconds. */
  lemma BackoffAtCap(retry: nat)
    requires retry >= 8
    ensures Backoff(retry) == MaxDelay
  {
    MulMono(8, retry);
  }

  /** The delay never decreases from one retry to a later one, and never exceeds the cap. */
  lemma BackoffMonotone(m: nat, n: nat)
    requires m <= n
    ensures Backoff(m) <= Backoff(n) <= MaxDelay
  {
    MulMono(m, n);
  }

  lemma MulMono(m: nat, n: nat)
    requires m <= n
    ensures m * m <= n * n
  {
    assert m * m <= m * n by { MulLeft(m, m, n); }
    assert m * n <= n * n by { MulLeft(n, m, n); }
  }

  lemma MulLeft(k: nat, a: nat, b: nat)
    requires a <= b
    ensures a * k <= b * k
  {
  }

  /** The delays slept after `failures` failed attempts, in order. */
  function Schedule(failures: nat): (s: seq<nat>)
    ensures |s| == failures
    ensures forall i :: 0 <= i < failures ==> s[i] == Backoff(i + 1)
  {
    if failures == 0 then [] else Schedule(failures - 1) + [Backoff(failures)]
  }

  /** Successive delays never decrease. */
  lemma ScheduleNonDecreasing(failures: nat, i: nat, j: nat)
    requires i <= j < failures
    ensures Schedule(failures)[i] <= Schedule(failures)[j]
  {
    BackoffMonotone(i + 1, j + 1);
  }

  /** Three failures before success sleep 1, 4 and 9 seconds; ten sleep 1, 4, ..., 49, 64, 64, 64. */
  lemma ScheduleExamples()
    ensures Schedule(3) == [1, 4, 9]
    ensures Schedule(10) == [1, 4, 9, 16, 25, 36, 49, 64, 64, 64]
  {
  }

  /** Number of failed attempts before the first successful one (all of them if none succeeds). */
  function FailuresBefore<T>(outcomes: seq<Attempt<T>>): (n: nat)
    ensures n <= |outcomes|
    ensures forall i :: 0 <= i < n ==> outcomes[i].Failed?
    ensures n < |outcomes| ==> outcomes[n].Succeeded?
  {
    if outcomes == [] then 0
    else if outcomes[0].Succeeded? then 0
    else 1 + FailuresBefore(outcomes[1..])
  }

  /**
    Runs the retry loop of `retry_forever` over the outcomes of successive
    calls. Returns the value of the first successful call (None when every
    supplied outcome failed, i.e. the wrapper is still retrying), the number
    of calls made, and the sleeps performed, one per failed call.
   */
  method RetryForever<T>(outcomes: seq<Attempt<T>>) returns (res: Option<T>, calls: nat, sleeps: seq<nat>)
    ensures var n := FailuresBefore(outcomes);
      && (n < |outcomes| ==> res == Some(outcomes[n].value) && calls == n + 1)
      && (n == |outcomes| ==> res == None && calls == n)
      && sleeps == Schedule(n)
  {
    var retry := 1;
    var success := false;
    res := None;
    sleeps := [];
    while !success && retry <= |outcomes|
      invariant 1 <= retry <= |outcomes| + 1
      invariant forall i :: 0 <= i < retry - 1 ==> outcomes[i].Failed?
      invariant success ==> retry <= |outcomes| && outcomes[retry - 1].Succeeded?
                            && res == Some(outcomes[retry - 1].value)
      invariant !success ==> res == None
      invariant sleeps == Schedule(retry - 1)
    {
      match outcomes[retry - 1]
      case Succeeded(v) =>
        res := Some(v);
        success := true;
      case Failed =>
        var sleep := retry * retry;
        if sleep > 64 {
          sleep := 64;
        }
        sleeps := sleeps + [sleep];
        retry := retry + 1;
    }
    calls := if success then retry else retry - 1;
  }

  /** Three failed resolutions, then a success: the fourth call's value is returned after sleeping 1, 4 and 9 seconds. */
  method ThreeFailuresThenSuccess() returns (res: Option<string>, calls: nat, sleeps: seq<nat>)
    ensures res == Some("10.0.0.7") && calls == 4 && sleeps == [1, 4, 9]
  {
    res, calls, sleeps := RetryForever([Failed, Failed, Failed, Succeeded("10.0.0.7"), Failed]);
    assert FailuresBefore([Failed, Failed, Failed, Succeeded("10.0.0.7"), Failed]) == 3;
  }
}
