/** `retryRequest`: a request is tried up to `retries` times. A rate-limited
    attempt (HTTP 429) waits 15000·2^i milliseconds and tries again, even
    after the last attempt; any other failure waits 1000·2^i milliseconds and
    tries again, except on the last attempt, where it is passed on. The
    request is an oracle: `attempt(i)` is what its `i`-th call does. */
module Retry {
  import opened Wrappers

  /** One call of the request: it returns a value or fails, with the HTTP
      status of the response when there was one. */
  datatype CallOutcome<V> = Returned(value: V) | Failed(status: Option<int>)

  /** What `retryRequest` resolves to: a value, `undefined` when the loop ran
      out, or the error of the last attempt passed on. */
  datatype RetryResult<V> = Value(value: V) | Undefined | Threw(status: Option<int>)

  /** The result, the delays waited in order, and the number of calls made. */
  datatype RetryRun<V> = RetryRun(result: RetryResult<V>, waits: seq<nat>, calls: nat)

  function Pow2(i: nat): (r: nat)
    ensures r >= 1
  {
    if i == 0 then 1 else 2 * Pow2(i - 1)
  }

  predicate RateLimited<V>(o: CallOutcome<V>) { o.Failed? && o.status == Some(429) }

  /** What happens from attempt `i` on. */
  function RetryFrom<V>(attempt: nat -> CallOutcome<V>, retries: int, i: nat): RetryRun<V>
    decreases retries - i
  {
    if i >= retries then RetryRun(Undefined, [], 0)
    else match attempt(i)
      case Returned(v) => RetryRun(Value(v), [], 1)
      case Failed(status) =>
        if status == Some(429) then
          var rest := RetryFrom(attempt, retries, i + 1);
          RetryRun(rest.result, [15000 * Pow2(i)] + rest.waits, rest.calls + 1)
        else if i == retries - 1 then RetryRun(Threw(status), [], 1)
        else
          var rest := RetryFrom(attempt, retries, i + 1);
          RetryRun(rest.result, [1000 * Pow2(i)] + rest.waits, rest.calls + 1)
  }

  /** The loop of `retryRequest`. */
  method RetryRequest<V>(attempt: nat -> CallOutcome<V>, retries: int)
    returns (result: RetryResult<V>, waits: seq<nat>, calls: nat)
    ensures RetryRun(result, waits, calls) == RetryFrom(attempt, retries, 0)
  {
    waits, calls := [], 0;
    var i: nat := 0;
    while i < retries
      invariant calls == i
      invariant var rest := RetryFrom(attempt, retries, i);
                RetryFrom(attempt, retries, 0) == RetryRun(rest.result, waits + rest.waits, calls + rest.calls)
      decreases retries - i
    {
      var outcome := attempt(i);
      var here := RetryFrom(attempt, retries, i);
      calls := calls + 1;
      if outcome.Returned? {
        assert here == RetryRun(Value(outcome.value), [], 1);
        return Value(outcome.value), waits, calls;
      }
      if outcome.status == Some(429) || i != retries - 1 {
        var next := RetryFrom(attempt, retries, i + 1);
        var w := Backoff(outcome, i);
        assert here == RetryRun(next.result, [w] + next.waits, next.calls + 1);
        assert (waits + [w]) + next.waits == waits + ([w] + next.waits);
        waits := waits + [w];
      } else {
        assert here == RetryRun(Threw(outcome.status), [], 1);
        return Threw(outcome.status), waits, calls;
      }
      i := i + 1;
    }
    return Undefined, waits, calls;
  }

  /** The delay waited after a failed attempt `i`. */
  function Backoff<V>(o: CallOutcome<V>, i: nat): nat {
    if RateLimited(o) then 15000 * Pow2(i) else 1000 * Pow2(i)
  }

  /** At most `retries` calls are made; every call but the last failed, and
      each failure that was retried was followed by its backoff. */
  lemma {:induction false} RetryCallsAndWaits<V>(attempt: nat -> CallOutcome<V>, retries: int, i: nat)
    ensures var r := RetryFrom(attempt, retries, i);
            && (r.calls <= if retries > i then retries - i else 0)
            && (forall k :: i <= k < i + r.calls - 1 ==> attempt(k).Failed?)
            && |r.waits| == (if r.result.Undefined? then r.calls else r.calls - 1)
            && (forall k :: 0 <= k < |r.waits| ==> r.waits[k] == Backoff(attempt(i + k), i + k))
    decreases retries - i
  {
    if i < retries && attempt(i).Failed? && (attempt(i).status == Some(429) || i != retries - 1) {
      RetryCallsAndWaits(attempt, retries, i + 1);
      var rest := RetryFrom(attempt, retries, i + 1);
      var r := RetryFrom(attempt, retries, i);
      assert r.waits == [Backoff(attempt(i), i)] + rest.waits;
      forall k | 0 <= k < |r.waits| ensures r.waits[k] == Backoff(attempt(i + k), i + k) {
        if k > 0 { assert r.waits[k] == rest.waits[k - 1]; }
      }
    }
  }

  /** Where the result comes from: a value from the last call; an error only
      from a last attempt that was not rate-limited; and `undefined` exactly
      when every attempt failed and the last one was rate-limited (or there
      were no attempts). */
  lemma {:induction false} RetryResultCause<V>(attempt: nat -> CallOutcome<V>, retries: int, i: nat)
    ensures var r := RetryFrom(attempt, retries, i);
            && (r.result.Value? ==> r.calls >= 1 && attempt(i + r.calls - 1) == Returned(r.result.value))
            && (r.result.Threw? ==> i + r.calls == retries && attempt(retries - 1).Failed? &&
                                    !RateLimited(attempt(retries - 1)) &&
                                    r.result.status == attempt(retries - 1).status)
            && (r.result.Undefined? ==>
                  (retries <= i && r.calls == 0) ||
                  (i + r.calls == retries && RateLimited(attempt(retries - 1)) &&
                   forall k :: i <= k < retries ==> attempt(k).Failed?))
    decreases retries - i
  {
    if i < retries && attempt(i).Failed? && (attempt(i).status == Some(429) || i != retries - 1) {
      RetryResultCause(attempt, retries, i + 1);
    }
  }

  /** The outcome does not depend on anything after the first success: if
      the first `k` attempts fail without passing an error on and attempt `k`
      returns a value, that value is the result. */
  lemma {:induction false} FirstSuccessWins<V>(attempt: nat -> CallOutcome<V>, retries: int, i: nat, k: nat, v: V)
    requires i <= k < retries
    requires forall j :: i <= j < k ==> attempt(j).Failed?
    requires attempt(k) == Returned(v)
    ensures RetryFrom(attempt, retries, i).result == Value(v)
    ensures RetryFrom(attempt, retries, i).calls == k - i + 1
    decreases k - i
  {
    if i < k {
      FirstSuccessWins(attempt, retries, i + 1, k, v);
    }
  }

  /** A rate limit on the last attempt is not passed on: once every attempt
      has failed, the result is `undefined` exactly when the last failure was
      a 429. */
  lemma LastRateLimitGivesUndefined<V>(attempt: nat -> CallOutcome<V>, retries: nat)
    requires retries >= 1
    requires forall k :: 0 <= k < retries ==> attempt(k).Failed?
    ensures RetryFrom(attempt, retries, 0).result.Undefined? <==> RateLimited(attempt(retries - 1))
    ensures RetryFrom(attempt, retries, 0).calls == retries
  {
    AllFailedCallsEveryAttempt(attempt, retries, 0);
  }

  lemma {:induction false} AllFailedCallsEveryAttempt<V>(attempt: nat -> CallOutcome<V>, retries: nat, i: nat)
    requires i < retries
    requires forall k :: i <= k < retries ==> attempt(k).Failed?
    ensures RetryFrom(attempt, retries, i).calls == retries - i
    ensures RetryFrom(attempt, retries, i).result ==
              if RateLimited(attempt(retries - 1)) then Undefined else Threw(attempt(retries - 1).status)
    decreases retries - i
  {
    if i < retries - 1 {
      AllFailedCallsEveryAttempt(attempt, retries, i + 1);
    }
  }
}
