/**
 * `RateLimitService` from `services/rate-limit-service.ts`: the process-wide
 * record of GitHub's rate-limit headers, the "exhausted" check made before each
 * API call, and the retry loop with exponential back-off around an API call.
 *
 * The clock and the API call are not modelled as code: every attempt the
 * service makes is described by an `Attempt` (the time in epoch seconds at which
 * it checks the limit, and what the API call would do), supplied by the caller.
 */
module RateLimit {
  import opened Wrappers

  /** `RateLimitInfo`: the last values seen in the rate-limit headers. */
  datatype RateLimitInfo = RateLimitInfo(remaining: int, reset: int, limit: int)

  /** GitHub's default allowance, before any header has been seen. */
  const INITIAL_INFO := RateLimitInfo(5000, 0, 5000)

  /** `MAX_RETRIES`: how many times one call may be retried. */
  const MAX_RETRIES: nat := 3

  /** The errors an API call can end with. */
  datatype ApiError = RateLimitError | OtherError(description: string)

  /** What the wrapped API call does on one attempt. */
  datatype CallOutcome<T> = Returns(value: T) | Throws(error: ApiError)

  /** One attempt: the current time in epoch seconds and the API call's outcome. */
  datatype Attempt<T> = Attempt(now: int, outcome: CallOutcome<T>)

  /** What `executeWithRetry` resolves to or rejects with. */
  datatype Result<T> = Ok(value: T) | Err(error: ApiError)

  /** Everything one `executeWithRetry` call does. */
  datatype Run<T> = Run(
    result: Result<T>,
    retryCount: nat,     // the counter afterwards
    delays: seq<nat>,    // back-off delays waited, in milliseconds, in order
    apiCalls: nat,       // how many times the API call was invoked
    handlerCalls: nat)   // how many times the error handler was invoked

  /** `Math.pow(2, n)` for a natural exponent. */
  function Pow2(n: nat): (r: nat)
    ensures r >= 1
  {
    if n == 0 then 1 else 2 * Pow2(n - 1)
  }

  /** `updateRateLimitInfo`: each field takes its header's value when the header is present. */
  function Updated(info: RateLimitInfo, remaining: Option<int>, reset: Option<int>, limit: Option<int>): RateLimitInfo
  {
    RateLimitInfo(
      if remaining.Some? then remaining.value else info.remaining,
      if reset.Some? then reset.value else info.reset,
      if limit.Some? then limit.value else info.limit)
  }

  /** `checkRateLimit`: a rate-limit error exactly when nothing remains and the reset time is still ahead. */
  function CheckRateLimit(info: RateLimitInfo, now: int): (r: Option<ApiError>)
    ensures r.Some? <==> info.remaining <= 0 && now < info.reset
    ensures r.Some? ==> r.value == RateLimitError
  {
    if info.remaining <= 0 && now < info.reset then Some(RateLimitError) else None
  }

  /** An attempt ends in a rate-limit error: the check refuses it, or the API call throws one. */
  predicate RateLimited<T>(info: RateLimitInfo, a: Attempt<T>)
  {
    CheckRateLimit(info, a.now).Some? || a.outcome == Throws(RateLimitError)
  }

  /**
   * `executeWithRetry` starting with the counter at `retryCount`: check the
   * limit, call the API, and on a rate-limit error (from either) retry while
   * the counter is below `MAX_RETRIES`; any other ending runs the handler once
   * and surfaces the error.
   */
  function RetryRun<T>(info: RateLimitInfo, retryCount: nat, attempts: seq<Attempt<T>>, hasHandler: bool): Run<T>
    requires retryCount <= MAX_RETRIES && |attempts| > MAX_RETRIES - retryCount
    decreases MAX_RETRIES - retryCount
  {
    if RateLimited(info, attempts[0]) && retryCount < MAX_RETRIES then
      Delayed(retryCount, Called(info, attempts[0]), RetryRun(info, retryCount + 1, attempts[1..], hasHandler))
    else
      Stop(info, retryCount, attempts[0], hasHandler)
  }

  /** How many times one attempt invokes the API call: not at all when the check refuses it. */
  function Called<T>(info: RateLimitInfo, a: Attempt<T>): nat
  {
    if CheckRateLimit(info, a.now).None? then 1 else 0
  }

  /** A retry: raise the counter, wait `2^counter` seconds, and go on with what the next attempt does. */
  function Delayed<T>(retryCount: nat, called: nat, rest: Run<T>): Run<T>
  {
    Run(rest.result, rest.retryCount, [Pow2(retryCount + 1) * 1000] + rest.delays,
        called + rest.apiCalls, rest.handlerCalls)
  }

  /**
   * An attempt that is not retried: a value resets the counter and resolves;
   * an error (the check's, else the API call's) runs the handler and rejects.
   */
  function Stop<T>(info: RateLimitInfo, retryCount: nat, a: Attempt<T>, hasHandler: bool): Run<T>
  {
    var check := CheckRateLimit(info, a.now);
    if check.None? && a.outcome.Returns? then
      Run(Ok(a.outcome.value), 0, [], 1, 0)
    else
      Run(Err(if check.Some? then check.value else a.outcome.error), retryCount, [],
          Called(info, a), if hasHandler then 1 else 0)
  }

  /** An attempt that is not rate-limited, or one at the ceiling, ends the call without a delay. */
  lemma RetryStop<T>(info: RateLimitInfo, retryCount: nat, attempts: seq<Attempt<T>>, hasHandler: bool)
    requires retryCount <= MAX_RETRIES && |attempts| > MAX_RETRIES - retryCount
    requires !RateLimited(info, attempts[0]) || retryCount == MAX_RETRIES
    ensures var run := RetryRun(info, retryCount, attempts, hasHandler);
      var a := attempts[0];
      var check := CheckRateLimit(info, a.now);
      run.delays == [] && run.apiCalls <= 1 &&
      (check.None? && a.outcome.Returns? ==> run == Run(Ok(a.outcome.value), 0, [], 1, 0)) &&
      (!(check.None? && a.outcome.Returns?) ==>
        run.retryCount == retryCount && run.handlerCalls == (if hasHandler then 1 else 0) &&
        run.result == Err(if check.Some? then check.value else a.outcome.error))
  {
  }

  /** A rate-limited first attempt followed by `n` rate-limited ones makes `n + 1` rate-limited ones. */
  lemma RateLimitedPrefix<T>(info: RateLimitInfo, attempts: seq<Attempt<T>>, n: nat)
    requires n < |attempts| && RateLimited(info, attempts[0])
    requires forall k :: 0 <= k < n ==> RateLimited(info, attempts[1..][k])
    ensures forall k :: 0 <= k < n + 1 ==> RateLimited(info, attempts[k])
  {
    forall k | 1 <= k < n + 1
      ensures RateLimited(info, attempts[k])
    {
      assert attempts[k] == attempts[1..][k - 1];
    }
  }

  /**
   * The counter stays within the ceiling, at most `MAX_RETRIES - retryCount`
   * delays are waited, the API is called at most once per attempt and the
   * handler at most once.
   */
  ghost predicate WithinBounds<T>(retryCount: nat, run: Run<T>)
  {
    run.retryCount <= MAX_RETRIES && |run.delays| <= MAX_RETRIES - retryCount &&
    run.apiCalls <= |run.delays| + 1 && run.handlerCalls <= 1
  }

  /** A retry from a counter below the ceiling carries `WithinBounds` over. */
  lemma BoundsAfterDelay<T>(retryCount: nat, called: nat, rest: Run<T>)
    requires retryCount < MAX_RETRIES && called <= 1
    requires WithinBounds(retryCount + 1, rest)
    ensures WithinBounds(retryCount, Delayed(retryCount, called, rest))
  {
  }

  /** Every run stays `WithinBounds`. */
  lemma {:induction false} RetryRunBounds<T>(info: RateLimitInfo, retryCount: nat, attempts: seq<Attempt<T>>, hasHandler: bool)
    requires retryCount <= MAX_RETRIES && |attempts| > MAX_RETRIES - retryCount
    decreases MAX_RETRIES - retryCount
    ensures WithinBounds(retryCount, RetryRun(info, retryCount, attempts, hasHandler))
  {
    if RateLimited(info, attempts[0]) && retryCount < MAX_RETRIES {
      RetryRunBounds(info, retryCount + 1, attempts[1..], hasHandler);
      BoundsAfterDelay(retryCount, Called(info, attempts[0]), RetryRun(info, retryCount + 1, attempts[1..], hasHandler));
    } else {
      RetryStop(info, retryCount, attempts, hasHandler);
    }
  }

  /** The back-off schedule: `n` delays of `2^(retryCount + 1)`, `2^(retryCount + 2)`, ... seconds. */
  function Backoff(retryCount: nat, n: nat): (r: seq<nat>)
    decreases n
    ensures |r| == n
  {
    if n == 0 then [] else [Pow2(retryCount + 1) * 1000] + Backoff(retryCount + 1, n - 1)
  }

  /** The k-th delay of the schedule is `2^(retryCount + k + 1)` seconds: each one doubles the last. */
  lemma {:induction false} BackoffDoubles(retryCount: nat, n: nat)
    decreases n
    ensures forall k :: 0 <= k < n ==> Backoff(retryCount, n)[k] == Pow2(retryCount + k + 1) * 1000
  {
    if n > 0 {
      BackoffDoubles(retryCount + 1, n - 1);
      forall k | 1 <= k < n
        ensures Backoff(retryCount, n)[k] == Pow2(retryCount + k + 1) * 1000
      {
        assert Backoff(retryCount, n)[k] == Backoff(retryCount + 1, n - 1)[k - 1];
        assert (retryCount + 1) + (k - 1) + 1 == retryCount + k + 1;
      }
    }
  }

  /**
   * The delays waited follow the back-off schedule from the starting counter,
   * so the k-th one is `2^(retryCount + k + 1)` seconds: the counter is raised
   * before it is used.
   */
  lemma {:induction false} RetryDelaysDouble<T>(info: RateLimitInfo, retryCount: nat, attempts: seq<Attempt<T>>, hasHandler: bool)
    requires retryCount <= MAX_RETRIES && |attempts| > MAX_RETRIES - retryCount
    decreases MAX_RETRIES - retryCount
    ensures var run := RetryRun(info, retryCount, attempts, hasHandler);
      run.delays == Backoff(retryCount, |run.delays|) &&
      forall k :: 0 <= k < |run.delays| ==> run.delays[k] == Pow2(retryCount + k + 1) * 1000
  {
    var run := RetryRun(info, retryCount, attempts, hasHandler);
    if RateLimited(info, attempts[0]) && retryCount < MAX_RETRIES {
      RetryDelaysDouble(info, retryCount + 1, attempts[1..], hasHandler);
    } else {
      RetryStop(info, retryCount, attempts, hasHandler);
    }
    BackoffDoubles(retryCount, |run.delays|);
  }

  /**
   * What a resolved run says: it returned the value of the first attempt
   * that was not rate-limited, every attempt before it was rate-limited (one
   * delay each), the counter is back to 0 and the handler did not run.
   */
  ghost predicate ResolvedAfterRateLimits<T>(info: RateLimitInfo, attempts: seq<Attempt<T>>, run: Run<T>)
  {
    run.result.Ok? ==>
      run.retryCount == 0 && run.handlerCalls == 0 &&
      |run.delays| < |attempts| &&
      attempts[|run.delays|].outcome == Returns(run.result.value) &&
      CheckRateLimit(info, attempts[|run.delays|].now).None? &&
      forall k :: 0 <= k < |run.delays| ==> RateLimited(info, attempts[k])
  }

  /** A retry after a rate-limited attempt carries `ResolvedAfterRateLimits` over. */
  lemma ResolvedAfterDelay<T>(info: RateLimitInfo, retryCount: nat, attempts: seq<Attempt<T>>, called: nat, rest: Run<T>)
    requires |attempts| > 0 && RateLimited(info, attempts[0])
    requires ResolvedAfterRateLimits(info, attempts[1..], rest)
    ensures ResolvedAfterRateLimits(info, attempts, Delayed(retryCount, called, rest))
  {
    if rest.result.Ok? {
      assert attempts[1 + |rest.delays|] == attempts[1..][|rest.delays|];
      RateLimitedPrefix(info, attempts, |rest.delays|);
    }
  }

  /** Every resolved run satisfies `ResolvedAfterRateLimits`. */
  lemma {:induction false} SuccessResetsCounter<T>(info: RateLimitInfo, retryCount: nat, attempts: seq<Attempt<T>>, hasHandler: bool)
    requires retryCount <= MAX_RETRIES && |attempts| > MAX_RETRIES - retryCount
    decreases MAX_RETRIES - retryCount
    ensures ResolvedAfterRateLimits(info, attempts, RetryRun(info, retryCount, attempts, hasHandler))
  {
    if RateLimited(info, attempts[0]) && retryCount < MAX_RETRIES {
      SuccessResetsCounter(info, retryCount + 1, attempts[1..], hasHandler);
      ResolvedAfterDelay(info, retryCount, attempts, Called(info, attempts[0]),
        RetryRun(info, retryCount + 1, attempts[1..], hasHandler));
    } else {
      RetryStop(info, retryCount, attempts, hasHandler);
    }
  }

  /**
   * What a rejected run says: the handler ran once when there is one, and
   * every attempt before the last was rate-limited.
   */
  ghost predicate RejectedAfterRateLimits<T>(info: RateLimitInfo, attempts: seq<Attempt<T>>, hasHandler: bool, run: Run<T>)
  {
    run.result.Err? ==>
      run.handlerCalls == (if hasHandler then 1 else 0) &&
      |run.delays| < |attempts| &&
      forall k :: 0 <= k < |run.delays| ==> RateLimited(info, attempts[k])
  }

  /** A retry after a rate-limited attempt carries `RejectedAfterRateLimits` over. */
  lemma RejectedAfterDelay<T>(info: RateLimitInfo, retryCount: nat, attempts: seq<Attempt<T>>, hasHandler: bool, called: nat, rest: Run<T>)
    requires |attempts| > 0 && RateLimited(info, attempts[0])
    requires RejectedAfterRateLimits(info, attempts[1..], hasHandler, rest)
    ensures RejectedAfterRateLimits(info, attempts, hasHandler, Delayed(retryCount, called, rest))
  {
    if rest.result.Err? {
      RateLimitedPrefix(info, attempts, |rest.delays|);
    }
  }

  /** Every rejected run satisfies `RejectedAfterRateLimits`. */
  lemma {:induction false} FailureRunsHandler<T>(info: RateLimitInfo, retryCount: nat, attempts: seq<Attempt<T>>, hasHandler: bool)
    requires retryCount <= MAX_RETRIES && |attempts| > MAX_RETRIES - retryCount
    decreases MAX_RETRIES - retryCount
    ensures RejectedAfterRateLimits(info, attempts, hasHandler, RetryRun(info, retryCount, attempts, hasHandler))
  {
    if RateLimited(info, attempts[0]) && retryCount < MAX_RETRIES {
      FailureRunsHandler(info, retryCount + 1, attempts[1..], hasHandler);
      RejectedAfterDelay(info, retryCount, attempts, hasHandler, Called(info, attempts[0]),
        RetryRun(info, retryCount + 1, attempts[1..], hasHandler));
    } else {
      RetryStop(info, retryCount, attempts, hasHandler);
    }
  }

  /**
   * What a rejected run says about the attempt that ended it: a rate-limit
   * error surfaces only with the counter at `MAX_RETRIES`, the last attempt
   * being rate-limited too; any other error is the one the last attempt's API
   * call threw, after the check passed, and the counter keeps its increments.
   */
  ghost predicate SurfacesLastError<T>(info: RateLimitInfo, retryCount: nat, attempts: seq<Attempt<T>>, run: Run<T>)
  {
    run.result.Err? && |run.delays| < |attempts| ==>
      (run.result.error == RateLimitError ==>
        run.retryCount == MAX_RETRIES && RateLimited(info, attempts[|run.delays|])) &&
      (run.result.error != RateLimitError ==>
        run.retryCount == retryCount + |run.delays| &&
        CheckRateLimit(info, attempts[|run.delays|].now).None? &&
        attempts[|run.delays|].outcome == Throws(run.result.error))
  }

  /** A retry carries `SurfacesLastError` from the rest of the attempts over to all of them. */
  lemma SurfacesAfterDelay<T>(info: RateLimitInfo, retryCount: nat, attempts: seq<Attempt<T>>, called: nat, rest: Run<T>)
    requires |attempts| > 0
    requires SurfacesLastError(info, retryCount + 1, attempts[1..], rest)
    ensures SurfacesLastError(info, retryCount, attempts, Delayed(retryCount, called, rest))
  {
    if rest.result.Err? && |rest.delays| + 1 < |attempts| {
      assert attempts[1 + |rest.delays|] == attempts[1..][|rest.delays|];
    }
  }

  /** Every rejected run satisfies `SurfacesLastError`. */
  lemma {:induction false} FailureSurfaces<T>(info: RateLimitInfo, retryCount: nat, attempts: seq<Attempt<T>>, hasHandler: bool)
    requires retryCount <= MAX_RETRIES && |attempts| > MAX_RETRIES - retryCount
    decreases MAX_RETRIES - retryCount
    ensures SurfacesLastError(info, retryCount, attempts, RetryRun(info, retryCount, attempts, hasHandler))
  {
    if RateLimited(info, attempts[0]) && retryCount < MAX_RETRIES {
      FailureSurfaces(info, retryCount + 1, attempts[1..], hasHandler);
      SurfacesAfterDelay(info, retryCount, attempts, Called(info, attempts[0]),
        RetryRun(info, retryCount + 1, attempts[1..], hasHandler));
    } else {
      RetryStop(info, retryCount, attempts, hasHandler);
    }
  }

  /** When the check refuses every attempt, the API is never called. */
  lemma {:induction false} BlockedCallsSkipApi<T>(info: RateLimitInfo, retryCount: nat, attempts: seq<Attempt<T>>, hasHandler: bool)
    requires retryCount <= MAX_RETRIES && |attempts| > MAX_RETRIES - retryCount
    requires forall k :: 0 <= k < |attempts| ==> CheckRateLimit(info, attempts[k].now).Some?
    decreases MAX_RETRIES - retryCount
    ensures RetryRun(info, retryCount, attempts, hasHandler).apiCalls == 0
    ensures RetryRun(info, retryCount, attempts, hasHandler).result == Err(RateLimitError)
  {
    if retryCount < MAX_RETRIES {
      BlockedCallsSkipApi(info, retryCount + 1, attempts[1..], hasHandler);
    }
  }

  /** From a zero counter, two rate-limit errors then a success wait 2 s and 4 s and resolve. */
  lemma TwoRateLimitsThenSuccess(info: RateLimitInfo, now: int, v: int)
    requires CheckRateLimit(info, now).None?
    ensures var limited: Attempt<int> := Attempt(now, Throws(RateLimitError));
      RetryRun(info, 0, [limited, limited, Attempt(now, Returns(v)), limited], false)
        == Run(Ok(v), 0, [2000, 4000], 3, 0)
  {
    var limited: Attempt<int> := Attempt(now, Throws(RateLimitError));
    var attempts := [limited, limited, Attempt(now, Returns(v)), limited];
    assert attempts[1..][1..] == [Attempt(now, Returns(v)), limited];
  }

  /**
   * From a zero counter, four rate-limit errors wait 2, 4 and 8 s, then the
   * error surfaces with the counter left at 3; a later call that is
   * rate-limited again fails at once, without any retry.
   */
  lemma RetriesExhausted(info: RateLimitInfo, now: int, hasHandler: bool)
    requires CheckRateLimit(info, now).None?
    ensures var limited: Attempt<int> := Attempt(now, Throws(RateLimitError));
      RetryRun(info, 0, [limited, limited, limited, limited], hasHandler)
        == Run(Err(RateLimitError), 3, [2000, 4000, 8000], 4, if hasHandler then 1 else 0)
    ensures var limited: Attempt<int> := Attempt(now, Throws(RateLimitError));
      RetryRun(info, 3, [limited], hasHandler) == Run(Err(RateLimitError), 3, [], 1, if hasHandler then 1 else 0)
  {
    var limited: Attempt<int> := Attempt(now, Throws(RateLimitError));
    var attempts := [limited, limited, limited, limited];
    assert attempts[1..][1..][1..] == [limited];
  }

  /** A fresh service is never blocked, whatever the time. */
  lemma FreshServiceNotBlocked(now: int)
    ensures CheckRateLimit(INITIAL_INFO, now) == None
  {
  }

  /** Once the reset time is reached the check passes, and it keeps passing later on. */
  lemma CheckPassesFromReset(info: RateLimitInfo, now: int, later: int)
    requires CheckRateLimit(info, now).None? && now <= later
    ensures CheckRateLimit(info, later).None?
    ensures info.reset <= now ==> CheckRateLimit(info, now).None?
  {
  }

  /** A header reporting remaining calls unblocks the service at once. */
  lemma PositiveRemainingUnblocks(info: RateLimitInfo, n: int, reset: Option<int>, limit: Option<int>, now: int)
    requires n > 0
    ensures CheckRateLimit(Updated(info, Some(n), reset, limit), now).None?
  {
  }

  /**
   * Updating is idempotent, an update without headers changes nothing, and a
   * field keeps its value exactly when its header is absent or repeats it.
   */
  lemma UpdateFacts(info: RateLimitInfo, remaining: Option<int>, reset: Option<int>, limit: Option<int>)
    ensures var once := Updated(info, remaining, reset, limit);
      Updated(once, remaining, reset, limit) == once
    ensures Updated(info, None, None, None) == info
    ensures Updated(info, remaining, reset, limit).remaining == info.remaining <==>
      remaining.None? || remaining.value == info.remaining
  {
  }

  /** The service object; one instance is shared by every caller. */
  class RateLimitService {
    var rateLimitInfo: RateLimitInfo
    var retryCount: nat

    /** The counter never exceeds the retry ceiling. */
    ghost predicate Valid()
      reads this
    {
      retryCount <= MAX_RETRIES
    }

    /** A new service starts from GitHub's default allowance and a zero counter. */
    constructor()
      ensures rateLimitInfo == INITIAL_INFO && retryCount == 0
      ensures Valid()
    {
      rateLimitInfo := INITIAL_INFO;
      retryCount := 0;
    }

    /** `updateRateLimitInfo`: take the present headers; the counter is untouched. */
    method UpdateRateLimitInfo(remaining: Option<int>, reset: Option<int>, limit: Option<int>)
      requires Valid()
      modifies this
      ensures Valid()
      ensures rateLimitInfo == Updated(old(rateLimitInfo), remaining, reset, limit)
      ensures retryCount == old(retryCount)
    {
      rateLimitInfo := Updated(rateLimitInfo, remaining, reset, limit);
    }

    /** `checkRateLimit` at time `now`: the error it throws, if any; nothing changes. */
    method CheckNow(now: int) returns (err: Option<ApiError>)
      ensures err.Some? <==> rateLimitInfo.remaining <= 0 && now < rateLimitInfo.reset
      ensures err == CheckRateLimit(rateLimitInfo, now)
    {
      err := CheckRateLimit(rateLimitInfo, now);
    }

    /** `getRateLimitInfo`: the current values, handed out as a value the caller cannot write through. */
    method GetRateLimitInfo() returns (info: RateLimitInfo)
      ensures info == rateLimitInfo
    {
      info := rateLimitInfo;
    }

    /**
     * `executeWithRetry`, recursive as in the source: `attempts` supplies one
     * entry for each attempt that may happen, at most `MAX_RETRIES - retryCount + 1`.
     */
    method ExecuteWithRetry<T>(attempts: seq<Attempt<T>>, hasHandler: bool)
      returns (result: Result<T>, delays: seq<nat>, apiCalls: nat, handlerCalls: nat)
      requires Valid() && |attempts| > MAX_RETRIES - retryCount
      modifies this
      decreases MAX_RETRIES - retryCount
      ensures Valid()
      ensures rateLimitInfo == old(rateLimitInfo)
      ensures RetryRun(rateLimitInfo, old(retryCount), attempts, hasHandler)
        == Run(result, retryCount, delays, apiCalls, handlerCalls)
    {
      var a := attempts[0];
      var check := CheckNow(a.now);
      var err: ApiError;
      var called: nat := 0;
      if check.None? {
        called := 1;
        match a.outcome
        case Returns(v) =>
          retryCount := 0;
          return Ok(v), [], 1, 0;
        case Throws(e) =>
          err := e;
      } else {
        err := check.value;
      }
      if err == RateLimitError && retryCount < MAX_RETRIES {
        retryCount := retryCount + 1;
        var delay := Pow2(retryCount) * 1000;
        var restDelays, restCalls;
        result, restDelays, restCalls, handlerCalls := ExecuteWithRetry(attempts[1..], hasHandler);
        delays := [delay] + restDelays;
        apiCalls := called + restCalls;
      } else {
        result, delays, apiCalls := Err(err), [], called;
        handlerCalls := if hasHandler then 1 else 0;
      }
    }
  }

  /** Stands for the static `instance` slot of the class. */
  class ServiceRegistry {
    var instance: RateLimitService?

    constructor()
      ensures instance == null
    {
      instance := null;
    }

    /** `getInstance`: create the service on first use, then always hand out that same object. */
    method GetInstance() returns (service: RateLimitService)
      modifies this
      ensures instance == service
      ensures old(instance) != null ==> service == old(instance)
      ensures old(instance) == null ==> fresh(service) && service.rateLimitInfo == INITIAL_INFO && service.retryCount == 0
    {
      if instance == null {
        instance := new RateLimitService();
      }
      service := instance;
    }
  }
}
