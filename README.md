# Best-stories aggregation, modelled in Dafny

A model of the request path of the `API_FrontEnd` service. The service answers
`GET /best-stories/{n}` with the `n` highest-ranked Hacker News stories, in
ranking order. The path has these parts:

- **`BestStoriesService`** keeps the ranked ID list in an in-memory cache for
  30 seconds and takes the first `n` IDs. It resolves each ID to a story:
  - the story is read from a 5-minute per-item cache entry when one is live;
  - otherwise the service takes a slot of an 8-slot gate and asks upstream.

  It then drops the null stories and projects the rest onto the caller view.
- **`MapToBestStoryDto`** is that projection. It copies the text fields,
  defaults a missing comment count to 0, and renders the Unix timestamp as
  `yyyy-MM-ddTHH:mm:ssZ` in UTC.
- **`HackerNewsClient`** turns an HTTP response into an ID list or a story,
  according to its status.
- **`Program.cs`** holds four boundary rules: the range check on `n`, the two
  redirects to the top ten, the public 15-second Cache-Control on replies, and
  the retry policy on upstream calls (which outcomes it retries, at most three
  times, and with which backoff).

The modules follow the program's structure:

| module | file | models |
|---|---|---|
| `Wrappers` | wrappers.dfy | `Option`, `Result` |
| `Models` | models.dfy | `Story`, `BestStoryDto`, `int`/`long` ranges, the exceptions that can escape (`Fault`) |
| `Decimal` | decimal.dfy | `int.ToString()` and zero-padded date fields, each with its inverse |
| `Calendar` | calendar.dfy | `FromUnixTimeSeconds(t).UtcDateTime` and its `"yyyy-MM-ddTHH:mm:ssK"` rendering |
| `Extensions` | extensions.dfy | `MapToBestStoryDto` |
| `Infrastructure` | infrastructure.dfy | `HackerNewsClient`: status codes, bodies, request paths |
| `TtlCache` | ttl_cache.dfy | `IMemoryCache` with absolute expiry, read at an explicit `now` |
| `Services` | services.dfy | `BestStoriesService` (a class over a cache map and a `Gate` class) and the functions that specify it |
| `Api` | api.dfy | the `/best-stories/{n}` handler, the redirects, the retry policy |

Modelling choices:

- **Time is an input.** The clock is a parameter `now`, in milliseconds.
  A cache entry is live while `now` is before its expiry instant.
- **Upstream is an oracle.** The `Upstream` value gives the response to the list
  request and the response to each item request. A response is a status plus
  a deserialised body (`Parsed`, `null` or malformed), or a transport failure.
- **Exceptions are values.** Each exception is an `Err(Fault)`:
  - `HttpFailure` is an `HttpRequestException` left after the retries.
  - `MalformedJson` is a `JsonException`.
  - `TimeOutOfRange` is thrown by `FromUnixTimeSeconds`.

  These faults propagate as in the code. `Task.WhenAll` rethrows the first
  fault in slice order, and the handler turns it into a server error.
- **The fan-out is sequential.** `Task.WhenAll` over the slice becomes a loop
  that resolves the IDs in slice order (`ResolveSlice`). The loop is proved
  against the function `ResolveAll`, and the whole call against
  `TopBestStories`.
- **Calls are logged for the proofs.** Ghost fields count the upstream list
  requests and record the story IDs fetched upstream.

Three ways the whole request fails with a 500:

- A malformed item body or a transport failure on any item fails the whole
  request with a 500. The exception escapes `Task.WhenAll`, and nothing in
  `GetTopBestStoriesAsync` catches it.
- A story whose `time` lies outside years 1 to 9999 also fails the whole
  request with a 500. `FromUnixTimeSeconds` throws for such a time, and nothing
  catches the exception.
- A transport failure or a malformed JSON body on the list request fails the
  whole request with a 500, before any story is looked up.
  `GetBestStoryIdsAsync` only maps a non-success status to an empty list; an
  exception is not caught, and the cache factory stores nothing.

## Model

| member | source | states |
|---|---|---|
| TtlCache.Lookup | API_FrontEnd/Services/BestStoriesService.cs:47 | an entry is found iff it exists and `now` is before its expiry; the value found is the stored one |
| TtlCache.LookupAfterStore | API_FrontEnd/Services/BestStoriesService.cs:56 | after `Set(key, v, ttl)` at `now` the key reads `v` strictly before `now + ttl` and absent from then on; every other key reads as before |
| TtlCache.ExpiryIsFinal | API_FrontEnd/Services/BestStoriesService.cs:14-15 | an entry absent at `t` stays absent at every later instant until written again |
| Decimal.IntToDecimalRoundTrip | API_FrontEnd/Services/BestStoriesService.cs:46 | the decimal rendering of an ID interpolated into its cache key reads back as that ID |
| Decimal.IntToDecimalInjective | API_FrontEnd/Services/BestStoriesService.cs:46 | two integers have the same decimal rendering iff they are equal |
| Services.StoryKeysDistinct | API_FrontEnd/Services/BestStoriesService.cs:25-46 | no story key equals `"hn:beststories"`, and `"hn:story:{a}" == "hn:story:{b}"` iff `a == b` |
| Services.CachedStory | API_FrontEnd/Services/BestStoriesService.cs:46-47 | a story is found iff the key holds a live entry that is a story; an ID list under that key is not a story |
| Services.ResolveStorySpec | API_FrontEnd/Services/BestStoriesService.cs:44-64 | a live cached story is returned with no upstream call and no cache change; on a miss upstream is called and its answer returned; a non-null story is then live under its key for 5 minutes; a null or a fault stores nothing |
| Services.ResolveStoryFrame | API_FrontEnd/Services/BestStoriesService.cs:53-57 | resolving an ID changes no other key, the list entry included, so only ID lists stay under the list key |
| Services.ResolveAll | API_FrontEnd/Services/BestStoriesService.cs:35-36 | the fan-out gives one result per ID of the slice, makes at most one upstream call per slice position, and keeps the list entry well typed |
| Services.ResolveAllElement | API_FrontEnd/Services/BestStoriesService.cs:35-48 | result `k` is the story cached for `ids[k]` when the request began if there was one, and otherwise what upstream returns for `ids[k]` (order preserved, no de-duplication) |
| Services.ResolveAllCache | API_FrontEnd/Services/BestStoriesService.cs:35-57 | after the fan-out every story live at the start is still the one cached; a story cached for an ID that missed is upstream's answer for it; the list entry is untouched |
| Services.ResolveFromLaterCache | API_FrontEnd/Services/BestStoriesService.cs:46-58 | against a cache reached during the fan-out an ID resolves to the story cached at the start if there was one, and otherwise to upstream's answer |
| Services.ResolveAllLeavesOthers | API_FrontEnd/Services/BestStoriesService.cs:53-57 | the cache entry of an ID outside the slice reads the same after the fan-out, at every instant |
| Services.ResolveAllStoresFetched | API_FrontEnd/Services/BestStoriesService.cs:53-57 | an ID of the slice that missed at the start and for which upstream returns a story has that story cached afterwards until five minutes after `now`, however often it occurs in the slice |
| Services.ResolveAllFetchesOnlyMisses | API_FrontEnd/Services/BestStoriesService.cs:46-53 | every ID fetched upstream is in the slice and had no live cached story when the request began |
| Services.Take | API_FrontEnd/Services/BestStoriesService.cs:33 | the slice is a prefix of the list, of length `min(n, \|ids\|)` for positive `n`; an `n` beyond the list is no error |
| Services.PresentIndices | API_FrontEnd/Services/BestStoriesService.cs:39 | the positions kept are increasing and are exactly those whose result is a non-null story |
| Services.CollectExact | API_FrontEnd/Services/BestStoriesService.cs:36-39 | the filter fails iff some resolution failed; it then fails with the first failure in slice order. Otherwise it keeps exactly the non-null stories in order, with repeats, dead and deleted ones included |
| Services.CollectFailsOnFirstFault | API_FrontEnd/Services/BestStoriesService.cs:36 | `WhenAll` succeeds iff every resolution did; otherwise it rethrows the earliest fault |
| Services.CollectKeepsPresent | API_FrontEnd/Services/BestStoriesService.cs:38-39 | when all resolutions succeeded, story `j` kept is the `j`-th non-null result |
| Services.SelectAll | API_FrontEnd/Services/BestStoriesService.cs:40-41 | the mapped list succeeds iff every element maps; it then holds each element's image in order; otherwise the first failing element's fault is raised |
| Services.ResolveIds | API_FrontEnd/Services/BestStoriesService.cs:25-29 | a live list entry is used with no upstream call. Otherwise the list is fetched, and any list it returns (the empty list of a failed status included) reads back for 30 seconds. A fault stores nothing, and no other key changes |
| Services.TopBestStories | API_FrontEnd/Services/BestStoriesService.cs:23-42 | the request keeps the list entry an ID list |
| Services.AssembleExact | API_FrontEnd/Services/BestStoriesService.cs:36-41 | the DTO list of the resolutions meets `AssembledFrom`. It succeeds iff every resolution succeeded and every non-null story's time is in range, and then holds the view of each non-null story in order. Otherwise it fails with the first failed resolution, or with `TimeOutOfRange` when none failed |
| Services.AssembleSucceeds | API_FrontEnd/Services/BestStoriesService.cs:36-41 | the list succeeds iff every resolution succeeded and every non-null story has an in-range time |
| Services.AssembleViews | API_FrontEnd/Services/BestStoriesService.cs:38-41 | on success view `j` is the projection of the `j`-th non-null story, one per non-null story |
| Services.AssembleFault | API_FrontEnd/Services/BestStoriesService.cs:36-41 | a failed resolution makes the list fail with the first one in slice order; with none, only `TimeOutOfRange` can fail it |
| Services.TopBestStoriesExact | API_FrontEnd/Services/BestStoriesService.cs:33-41 | when the list resolves, the request's result meets `AssembledFrom` for the resolutions of its first `n` IDs: it succeeds exactly when they all succeed with in-range times, holds their non-null views in slice order, and otherwise carries the first fault. It has at most `min(n, \|ids\|)` views; only IDs of the slice are fetched |
| Services.ResultBounded | API_FrontEnd/Services/BestStoriesService.cs:33-41 | the result has at most `n` entries and at most as many as the ranked list |
| Services.EmptyListShortCircuits | API_FrontEnd/Services/BestStoriesService.cs:31 | an empty list gives an empty result with no story lookup upstream and no cache change beyond the list entry |
| Services.IdsServedFromCacheWithinTtl | API_FrontEnd/Services/BestStoriesService.cs:25-29 | after a request that fetched the list, a request within 30 seconds reads the same list with no upstream list request |
| Services.StoryServedFromCacheWithinTtl | API_FrontEnd/Services/BestStoriesService.cs:44-58 | a story a request fetched is, for the next five minutes, a cache hit with no upstream call and no cache change, and no later request in that window fetches its ID |
| Services.FailedListCachedAsEmpty | API_FrontEnd/Infrastructure/HackerNewsClient.cs:19 | a failed list status yields an empty result, and the empty list is cached for 30 seconds |
| Services.ListFaultFailsRequest | API_FrontEnd/Services/BestStoriesService.cs:25-29 | a transport failure or malformed JSON on the list request fails the whole request with that fault, with no story fetched and the cache unchanged |
| Services.Gate.constructor | API_FrontEnd/Services/BestStoriesService.cs:12 | the gate starts with 8 of 8 slots free |
| Services.Gate.Wait | API_FrontEnd/Services/BestStoriesService.cs:50 | acquiring takes one slot and keeps the count within `[0, max]` |
| Services.Gate.Release | API_FrontEnd/Services/BestStoriesService.cs:62 | releasing gives one slot back and keeps the count within `[0, max]` |
| Services.BestStoriesService.constructor | API_FrontEnd/Services/BestStoriesService.cs:12-21 | a new service holds the given cache and an 8-slot gate, all free |
| Services.BestStoriesService.GetStoryWithCache | API_FrontEnd/Services/BestStoriesService.cs:44-64 | result and cache are those of `ResolveStory`. The gate is acquired exactly when upstream is called and is back at its prior count afterwards, whatever the call returned; it stays within `[0, 8]` |
| Services.BestStoriesService.GetBestIds | API_FrontEnd/Services/BestStoriesService.cs:25-29 | result and cache are those of `ResolveIds`, with one upstream list request exactly on a miss |
| Services.BestStoriesService.ResolveSlice | API_FrontEnd/Services/BestStoriesService.cs:35-36 | the loop over the slice gives `ResolveAll`'s results, cache and upstream calls; one gate use per fetch and the count restored |
| Services.BestStoriesService.GetTopBestStories | API_FrontEnd/Services/BestStoriesService.cs:23-42 | the result, new cache and upstream calls are those of `TopBestStories`; the gate count is unchanged |
| Calendar.FromUnixTimeSeconds | API_FrontEnd/Extensions/BestStoryExtensions.cs:12 | the UTC reading of `t` is a valid date and time in years 1 to 9999 that denotes exactly `t` |
| Calendar.UnixSecondsOfInjective | API_FrontEnd/Extensions/BestStoryExtensions.cs:12 | two valid readings denoting the same instant are equal, so the reading of `t` is unique |
| Calendar.IsoRoundTrip | API_FrontEnd/Extensions/BestStoryExtensions.cs:19 | the `yyyy-MM-ddTHH:mm:ssZ` rendering of a valid reading parses back to that reading |
| Calendar.FormatUtcRoundTrip | API_FrontEnd/Extensions/BestStoryExtensions.cs:12-19 | the rendered time is 20 characters long and denotes exactly the instant `t` |
| Calendar.FormatUtcInjective | API_FrontEnd/Extensions/BestStoryExtensions.cs:12-19 | distinct instants render to distinct strings |
| Extensions.ToView | API_FrontEnd/Extensions/BestStoryExtensions.cs:12-22 | fails iff the time is outside `FromUnixTimeSeconds`' range. Otherwise title, uri and postedBy are copied (null included), score is copied, commentCount is descendants or 0, and time is the UTC rendering |
| Extensions.MapToBestStoryDto | API_FrontEnd/Extensions/BestStoryExtensions.cs:8-23 | null maps to null and only null does; a story maps to its view, or raises the view's fault |
| Extensions.ViewTimeDenotesStoryTime | API_FrontEnd/Extensions/BestStoryExtensions.cs:12-19 | for an in-range time the view's time is a 20-character string that reads back as the story's own time |
| Extensions.ViewIgnoresIdentityAndFlags | API_FrontEnd/Extensions/BestStoryExtensions.cs:14-22 | `Id`, `Type`, `Dead` and `Deleted` do not affect the view |
| Infrastructure.GetBestStoryIds | API_FrontEnd/Infrastructure/HackerNewsClient.cs:16-24 | transport failure raises; a failed status gives the empty list regardless of the body; a `null` body gives the empty list; a parsed list is returned unchanged; malformed JSON raises |
| Infrastructure.GetStory | API_FrontEnd/Infrastructure/HackerNewsClient.cs:26-34 | 404 and every other failed status give null; a success gives the parsed story, or null for a `null` body; malformed JSON raises exactly on a success status; transport failure raises |
| Infrastructure.ItemPathsDistinct | API_FrontEnd/Infrastructure/HackerNewsClient.cs:18-28 | no item path equals `beststories.json`, and `item/{a}.json == item/{b}.json` iff `a == b` |
| Api.CheckN | API_FrontEnd/Program.cs:69-71 | `"n must be > 0"` iff `n <= 0`, `"n must be <= 500"` iff `n > 500`, accepted iff `1 <= n <= 500` |
| Api.RedirectFor | API_FrontEnd/Program.cs:60-61 | exactly `/` and `/best-stories` redirect, and both to `/best-stories/10` |
| Api.DefaultPageAccepted | API_FrontEnd/Program.cs:60-71 | the redirect target is the `/best-stories/{n}` route whose `n` reads back as an integer in `1..500` that the range check accepts |
| Api.HandleBestStories | API_FrontEnd/Program.cs:63-82 | an out-of-range `n` is refused with its message and the service is untouched. Otherwise the service runs with exactly `n`: its list is returned with public Cache-Control max-age 15 s, or its fault becomes a server error; the cache, the upstream calls and the gate uses are the service's |
| Api.RetryDelayWindows | API_FrontEnd/Program.cs:24-26 | the waits before retries 1, 2, 3 lie in `[250,400)`, `[450,600)` and `[850,1000)` ms |
| Api.RetryDelaysIncrease | API_FrontEnd/Program.cs:24-26 | whatever the jitter draws, a later retry waits strictly longer than an earlier one |
| Api.Pow2Grows | API_FrontEnd/Program.cs:24 | the base delay at least doubles from one retry to any later one |
| Api.RetryFrom | API_FrontEnd/Program.cs:19-27 | from a given attempt on, only retryable outcomes are retried, each after its backoff; the returned outcome is the last attempt's |
| Api.ExecuteWithRetry | API_FrontEnd/Program.cs:19-27 | at most 3 retries; retry `k` follows a transient error, 5xx, 408 or 429 and waits `200·2^(k-1)` ms plus the jitter; the outcome handed back is the last attempt's, and it is not retryable unless all 3 retries were spent |
| Api.NotFoundNotRetried | API_FrontEnd/Program.cs:20-21 | a 404 is final on the first attempt, with no wait |

## Left out

- Circuit breaker: the 8-failure, 15-second breaker's state machine lives in
  its library and is not modelled. When it is open, calls fail with an
  exception that the retry policy does not retry. That outcome is not among
  the modelled responses: `TransportError` stands for an
  `HttpRequestException` only.
- Other configuration: the per-IP rate limiter, the response-caching
  middleware, dependency injection, JSON option wiring and the `HttpClient`
  base address, user agent and 10-second timeout. The 10-second timeout
  bounds the whole call, retries included. When it fires, the call throws a
  `TaskCanceledException`, which the retry policy does not retry. That outcome
  is not among the modelled responses; like `HttpFailure`, it fails the
  request.
- Real concurrency: async scheduling, contention on the gate across requests,
  and `CancellationToken`.
  - `Gate.Wait` requires a free slot rather than blocking until one is
    released.
  - A request needs one free slot when it starts. Each fetch gives its slot
    back before the next one begins, so one slot is enough.
- Services.ResolveAll: the slice is resolved in order, each ID seeing the cache
  as left by the earlier ones. In the code all the cache reads of one request
  happen before any write. The two agree except when an ID occurs twice in one
  slice. The code may then fetch it once per occurrence, concurrently. The model
  fetches it once when upstream returned a story, and again for each
  occurrence when upstream returned null.
- The clock does not advance within one request. Every cache read and write of
  a request uses the same `now`.
- Services.TopBestStories: the `?? []` after `GetOrCreateAsync` is not
  modelled, since `GetBestStoryIdsAsync` never returns null and the cached
  list is never null.
- HTTP transport and JSON deserialisation: the model takes their outcomes as
  inputs. The JSON writing of replies (`WhenWritingNull`) is not modelled.
  - `null` fields of a view are kept as `None`.
  - A view's time is never `None`.
- Api.RetryDelayMs: the delay is integer milliseconds. The source computes it
  with a floating-point `Math.Pow`, which is exact for attempts 1 to 3.
- `Random.Shared`: the jitter is an input constrained to `[50, 200)`.
- Number formatting: the invariant culture and the Gregorian calendar are
  assumed for `ToString`.
- The `BestStoriesClient` console program: it is user interface and I/O.
