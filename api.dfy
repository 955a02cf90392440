/**
  The boundary in `Program.cs`: the `/best-stories/{n}` range check, the
  redirects to the default page, and the retry policy that wraps every
  upstream call (which outcomes it retries, how many times, and how long it
  waits before each retry).
 */
module Api {
  import opened Wrappers
  import opened Models
  import opened Infrastructure
  import opened Services
  import opened Decimal

  const MaxN := 500
  const DefaultPage := "/best-stories/10"
  /** The response to callers may be cached publicly for 15 seconds. */
  const ResponseMaxAgeSeconds := 15

  datatype CacheControl = CacheControl(isPublic: bool, maxAgeSeconds: int)

  datatype HttpReply =
    | BadRequest(message: string)
    | OkJson(stories: seq<BestStoryDto>, cacheControl: CacheControl)
    | Redirect(location: string)
    | ServerError(fault: Fault)   // an exception escaping the handler

  /** The guards on `n`: the message of the rejection, or nothing when `n` is accepted. */
  function CheckN(n: int32): (r: Option<string>)
    ensures r == Some("n must be > 0") <==> n <= 0
    ensures r == Some("n must be <= 500") <==> n > 500
    ensures r.None? <==> 1 <= n <= 500
  {
    if n <= 0 then Some("n must be > 0")
    else if n > MaxN as int32 then Some("n must be <= 500")
    else None
  }

  /** `/` and `/best-stories` send callers to the top ten. */
  function RedirectFor(path: string): (r: Option<string>)
    ensures r.Some? <==> path == "/" || path == "/best-stories"
    ensures r.Some? ==> r.value == DefaultPage
  {
    if path == "/" || path == "/best-stories" then Some(DefaultPage) else None
  }

  /** The redirect target is the `/best-stories/{n}` route for an `n` the range check accepts. */
  lemma DefaultPageAccepted()
    ensures |DefaultPage| > 14 && DefaultPage[..14] == "/best-stories/"
    ensures var n := DecimalToInt(DefaultPage[14..]);
      DefaultPage[14..] == IntToDecimal(n) && 1 <= n <= MaxN && CheckN(n as int32).None?
  {
    assert DefaultPage[14..] == "10";
    assert IntToDecimal(10) == "10";
    IntToDecimalRoundTrip(10);
  }

  /**
    `GET /best-stories/{n}`: an `n` out of range is refused before the service
    is touched; otherwise the service runs with exactly `n`, and its list is
    returned with a public 15-second Cache-Control, or its exception surfaces.
   */
  method HandleBestStories(service: BestStoriesService, n: int32, now: int, up: Upstream) returns (reply: HttpReply)
    requires service.Valid() && service.gate.count > 0
    modifies service, service.gate
    ensures service.Valid() && service.gate.count == old(service.gate.count)
    ensures CheckN(n).Some? ==> reply == BadRequest(CheckN(n).value) && unchanged(service, service.gate)
    ensures CheckN(n).None? ==>
      var a := TopBestStories(old(service.cache), n, now, up);
      && service.cache == a.cache
      && service.idFetches == old(service.idFetches) + (if a.idsFetched then 1 else 0)
      && service.storyFetches == old(service.storyFetches) + a.fetched
      && service.gate.acquired == old(service.gate.acquired) + |a.fetched|
      && reply == match a.result
                  case Ok(stories) => OkJson(stories, CacheControl(true, ResponseMaxAgeSeconds))
                  case Err(f) => ServerError(f)
  {
    if n <= 0 {
      return BadRequest("n must be > 0");
    }
    if n > MaxN as int32 {
      return BadRequest("n must be <= 500");
    }
    var results := service.GetTopBestStories(n, now, up);
    match results {
      case Ok(stories) =>
        reply := OkJson(stories, CacheControl(true, ResponseMaxAgeSeconds));
      case Err(f) =>
        reply := ServerError(f);
    }
  }

  /** `WaitAndRetryAsync(3, …)`: at most three retries after the first attempt. */
  const RetryCount := 3

  /** `HandleTransientHttpError()`: HttpRequestException, any 5xx, and 408. */
  predicate IsTransientHttpError<T>(r: HttpResult<T>) {
    r.TransportError? || (r.Response? && (r.status >= 500 || r.status == 408))
  }

  /** What the retry policy retries: transient errors and 429 Too Many Requests. */
  predicate RetryHandles<T>(r: HttpResult<T>) {
    IsTransientHttpError(r) || (r.Response? && r.status == 429)
  }

  function Pow2(k: nat): (p: nat)
    ensures p >= 1
  {
    if k == 0 then 1 else 2 * Pow2(k - 1)
  }

  /** `Random.Shared.Next(50, 200)`: an integer jitter in [50, 200). */
  predicate IsJitter(ms: int) {
    50 <= ms < 200
  }

  /** The wait before retry `attempt` (1-based): `200 * 2^(attempt-1)` ms plus the jitter. */
  function RetryDelayMs(attempt: int, jitterMs: int): int
    requires attempt >= 1 && IsJitter(jitterMs)
  {
    200 * Pow2(attempt - 1) + jitterMs
  }

  /** The three waits fall in [250,400), [450,600) and [850,1000) milliseconds. */
  lemma RetryDelayWindows(j: int)
    requires IsJitter(j)
    ensures 250 <= RetryDelayMs(1, j) < 400
    ensures 450 <= RetryDelayMs(2, j) < 600
    ensures 850 <= RetryDelayMs(3, j) < 1000
  {
  }

  lemma {:induction false} Pow2Grows(a: nat, b: nat)
    requires a < b
    ensures 2 * Pow2(a) <= Pow2(b)
    decreases b
  {
    if a + 1 < b {
      Pow2Grows(a, b - 1);
    }
  }

  /** Jitter never reorders the waits: a later retry always waits longer, whatever the draws. */
  lemma RetryDelaysIncrease(a: int, b: int, ja: int, jb: int)
    requires 1 <= a < b && IsJitter(ja) && IsJitter(jb)
    ensures RetryDelayMs(a, ja) < RetryDelayMs(b, jb)
  {
    Pow2Grows(a - 1, b - 1);
  }

  /** One run of the retry policy: the outcome handed back and the waits made before each retry. */
  datatype RetryRun<T> = RetryRun(outcome: HttpResult<T>, delays: seq<int>)

  /**
    The retry policy executing one call, from attempt `attempt` (0-based) on:
    `tries[k]` is what attempt `k` would return, `jitters[k]` the jitter drawn
    before retry `k + 1`. A `TransportError` here is an `HttpRequestException`
    only; the exception of an open circuit is not among the outcomes.
   */
  function RetryFrom<T>(tries: seq<HttpResult<T>>, jitters: seq<int>, attempt: nat): (run: RetryRun<T>)
    requires |tries| == RetryCount + 1 && |jitters| == RetryCount
    requires forall k :: 0 <= k < RetryCount ==> IsJitter(jitters[k])
    requires attempt <= RetryCount
    ensures attempt + |run.delays| <= RetryCount
    ensures run.outcome == tries[attempt + |run.delays|]
    ensures forall k :: 0 <= k < |run.delays| ==>
      RetryHandles(tries[attempt + k]) && run.delays[k] == RetryDelayMs(attempt + k + 1, jitters[attempt + k])
    ensures attempt + |run.delays| < RetryCount ==> !RetryHandles(run.outcome)
    decreases RetryCount - attempt
  {
    if attempt == RetryCount || !RetryHandles(tries[attempt]) then RetryRun(tries[attempt], [])
    else
      var rest := RetryFrom(tries, jitters, attempt + 1);
      var delays := [RetryDelayMs(attempt + 1, jitters[attempt])] + rest.delays;
      assert forall k :: 1 <= k < |delays| ==> delays[k] == rest.delays[k - 1];
      RetryRun(rest.outcome, delays)
  }

  /**
    The policy over a whole call: it retries only retryable outcomes, at most
    three times, waiting `RetryDelayMs(k, jitter)` before retry `k`, and hands
    back the last attempt's outcome, which is not retryable unless all three
    retries were spent.
   */
  function ExecuteWithRetry<T>(tries: seq<HttpResult<T>>, jitters: seq<int>): (run: RetryRun<T>)
    requires |tries| == RetryCount + 1 && |jitters| == RetryCount
    requires forall k :: 0 <= k < RetryCount ==> IsJitter(jitters[k])
    ensures |run.delays| <= RetryCount
    ensures run.outcome == tries[|run.delays|]
    ensures forall k :: 0 <= k < |run.delays| ==>
      RetryHandles(tries[k]) && run.delays[k] == RetryDelayMs(k + 1, jitters[k])
    ensures |run.delays| < RetryCount ==> !RetryHandles(run.outcome)
  {
    RetryFrom(tries, jitters, 0)
  }

  /** A 404 is never retried: the first attempt's answer is final. */
  lemma NotFoundNotRetried<T>(tries: seq<HttpResult<T>>, jitters: seq<int>)
    requires |tries| == RetryCount + 1 && |jitters| == RetryCount
    requires forall k :: 0 <= k < RetryCount ==> IsJitter(jitters[k])
    requires tries[0].Response? && tries[0].status == NotFound
    ensures ExecuteWithRetry(tries, jitters) == RetryRun(tries[0], [])
  {
  }
}
