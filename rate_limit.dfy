/** respect_rate_limit: the minimum spacing between platform calls, kept on the
    module-level last_api_call clock. Clock readings are integer seconds passed in. */
module RateLimit {

  /** min_time_between_calls */
  const MinTimeBetweenCalls := 2

  /** Parameters of the twitter_retry decorator, recorded only: retry on rate-limit
      errors, at most this many attempts, exponential waits clamped to [min, max]. */
  const RetryAttempts := 3
  const RetryMinWait := 4
  const RetryMaxWait := 60

  /** How long respect_rate_limit sleeps when called at `now` after a call recorded at
      `last`: nothing once the interval has passed, otherwise exactly what is left. */
  function SleepTime(last: int, now: int): (r: int)
    ensures r >= 0
    ensures r > 0 <==> now - last < MinTimeBetweenCalls
    ensures r > 0 ==> now + r == last + MinTimeBetweenCalls
    ensures now + r >= last + MinTimeBetweenCalls
  {
    var elapsed := now - last;
    if elapsed < MinTimeBetweenCalls then MinTimeBetweenCalls - elapsed else 0
  }

  /** The last_api_call clock. */
  class RateGovernor {
    var lastApiCall: int

    constructor ()
      ensures lastApiCall == 0
    {
      lastApiCall := 0;
    }

    /** One call: `now` is the first time.time() reading, `resumedAt` the one after the
        sleep. The requirement says the clock does not run backwards across the sleep. */
    method RespectRateLimit(now: int, resumedAt: int) returns (slept: int)
      requires resumedAt >= now + SleepTime(lastApiCall, now)
      modifies this
      ensures slept == SleepTime(old(lastApiCall), now)
      ensures lastApiCall == resumedAt
      ensures lastApiCall >= old(lastApiCall) + MinTimeBetweenCalls
    {
      var sinceLast := now - lastApiCall;
      slept := 0;
      if sinceLast < MinTimeBetweenCalls {
        slept := MinTimeBetweenCalls - sinceLast;
      }
      lastApiCall := resumedAt;
    }
  }

  /** The recorded clock after a run of calls, each given as its two readings. */
  function ClockAfter(last: int, calls: seq<(int, int)>): int
    decreases |calls|
  {
    if |calls| == 0 then last else ClockAfter(calls[0].1, calls[1..])
  }

  /** Readings of a run in which the clock never runs backwards across a sleep. */
  ghost predicate MonotoneRun(last: int, calls: seq<(int, int)>)
    decreases |calls|
  {
    |calls| == 0 ||
    (calls[0].1 >= calls[0].0 + SleepTime(last, calls[0].0) && MonotoneRun(calls[0].1, calls[1..]))
  }

  /** Over n governed calls the recorded clock advances by at least n times the
      minimum interval, so consecutive calls are at least that far apart. */
  lemma {:induction false} RunSpacing(last: int, calls: seq<(int, int)>)
    requires MonotoneRun(last, calls)
    ensures ClockAfter(last, calls) >= last + |calls| * MinTimeBetweenCalls
    decreases |calls|
  {
    if |calls| > 0 {
      RunSpacing(calls[0].1, calls[1..]);
    }
  }
}
