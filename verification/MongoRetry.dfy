/** The throttling retry loops of mongo_store.rs: `retry_mongo_operation` and index creation. */
module MongoRetry {

  /** What one call of the operation returns; `retryAfterMs` is what the throttle error asks for. */
  datatype Outcome = Ok(value: int) | Throttled(retryAfterMs: nat) | Fatal(error: int)

  /** The point of [25, 2000] closest to what the server asks for. */
  function Clamp(ms: nat): (r: nat)
    ensures 25 <= r <= 2000 && (25 <= ms <= 2000 ==> r == ms) && (ms < 25 ==> r == 25) && (ms > 2000 ==> r == 2000)
  {
    if ms < 25 then 25 else if ms > 2000 then 2000 else ms
  }

  function SleepAfter(ms: nat, attempt: nat): nat {
    Clamp(ms) + attempt * 25
  }

  /** Sleep of the first `n` retries. */
  function TotalSleep(op: nat -> Outcome, n: nat): nat {
    if n == 0 then 0
    else TotalSleep(op, n - 1) + (match op(n - 1)
                                  case Throttled(ms) => SleepAfter(ms, n)
                                  case _ => 0)
  }

  function Half(n: nat): nat {
    n * (n + 1) / 2
  }

  lemma HalfStep(n: nat)
    requires n > 0
    ensures Half(n) == Half(n - 1) + n
  {
    assert n * (n + 1) == (n - 1) * n + 2 * n;
  }

  lemma {:induction false} SleepBound(op: nat -> Outcome, n: nat)
    ensures TotalSleep(op, n) <= 2000 * n + 25 * Half(n)
    ensures (forall i: nat :: i < n ==> op(i).Throttled?) ==> TotalSleep(op, n) >= 25 * n + 25 * Half(n)
  {
    if n > 0 {
      SleepBound(op, n - 1);
      HalfStep(n);
    }
  }

  /** Retry `i` sleeps for what the server asked for, brought into bounds, plus 25 ms more each time. */
  lemma {:induction false} SleepOfRetries(op: nat -> Outcome, asked: seq<nat>)
    requires forall i: nat :: i < |asked| ==> op(i) == Throttled(asked[i])
    ensures TotalSleep(op, |asked|) == Sum(asked) + 25 * Half(|asked|)
  {
    if asked != [] {
      var k := |asked| - 1;
      SleepOfRetries(op, asked[..k]);
      assert op(k) == Throttled(asked[k]);
      HalfStep(|asked|);
    }
  }

  /** What is asked for, each brought into [25, 2000]. */
  function Sum(asked: seq<nat>): nat {
    if asked == [] then 0
    else
      var ms := asked[|asked| - 1];
      Sum(asked[..|asked| - 1]) + if ms <= 25 then 25 else if ms >= 2000 then 2000 else ms
  }

  /**
   * The loop: call, and on a throttle error sleep and call again, up to `limit` retries.
   * `calls` counts the calls and `slept` the milliseconds asked of the sleeper.
   */
  method RetryThrottled(op: nat -> Outcome, limit: nat) returns (result: Outcome, calls: nat, slept: nat)
    ensures 1 <= calls <= limit + 1 && result == op(calls - 1)
    ensures forall i: nat :: i < calls - 1 ==> op(i).Throttled?
    ensures result.Throttled? ==> calls == limit + 1
    ensures slept == TotalSleep(op, calls - 1) && slept <= 2000 * limit + 25 * Half(limit)
  {
    var attempt: nat := 0;
    slept := 0;
    while true
      invariant attempt <= limit && slept == TotalSleep(op, attempt)
      invariant forall i: nat :: i < attempt ==> op(i).Throttled?
      decreases limit - attempt
    {
      result := op(attempt);
      calls := attempt + 1;
      if !result.Throttled? || attempt >= limit {
        SleepBound(op, attempt);
        SleepMonotone(attempt, limit);
        return;
      }
      attempt := attempt + 1;
      slept := slept + SleepAfter(result.retryAfterMs, attempt);
    }
  }

  lemma {:induction false} SleepMonotone(m: nat, n: nat)
    requires m <= n
    ensures 2000 * m + 25 * Half(m) <= 2000 * n + 25 * Half(n)
    decreases n - m
  {
    if m < n {
      assert (m + 1) * (m + 2) == m * (m + 1) + 2 * (m + 1);
      SleepMonotone(m + 1, n);
    }
  }

  /** Reads and writes: at most 10 calls and 19125 ms of sleep. */
  method RetryMongoOperation(op: nat -> Outcome) returns (result: Outcome, calls: nat, slept: nat)
    ensures 1 <= calls <= 10 && slept <= 19125 && result == op(calls - 1)
    ensures forall i: nat :: i < calls - 1 ==> op(i).Throttled?
    ensures result.Throttled? ==> calls == 10
  {
    result, calls, slept := RetryThrottled(op, 9);
    assert Half(9) == 45;
  }

  /** Index creation: a cached index costs no call; otherwise at most 8 calls and 14700 ms of sleep. */
  method EnsureIndexCompatible(cache: set<string>, key: string, op: nat -> Outcome, ignorable: int -> bool)
    returns (ok: bool, cache': set<string>, calls: nat, slept: nat)
    ensures calls <= 8 && slept <= 14700 && (calls == 0 <==> key in cache)
    ensures ok == (key in cache || op(calls - 1).Ok? || (op(calls - 1).Fatal? && ignorable(op(calls - 1).error)))
    ensures cache' == if ok then cache + {key} else cache
    ensures forall i: nat :: i < calls - 1 ==> op(i).Throttled?
    ensures !ok && op(calls - 1).Throttled? ==> calls == 8
  {
    calls, slept, cache' := 0, 0, cache;
    if key in cache {
      return true, cache', calls, slept;
    }
    var result;
    result, calls, slept := RetryThrottled(op, 7);
    assert Half(7) == 28;
    ok := result.Ok? || (result.Fatal? && ignorable(result.error));
    if ok {
      cache' := cache + {key};
    }
  }
}
