/**
  `BestStoriesService`: the ranked-ID list is read through a 30-second cache,
  its first `n` IDs are resolved one by one through a 5-minute per-story cache
  (a miss passes an 8-slot gate to call upstream), nulls are dropped and the
  rest are projected onto the caller-facing view, in ranking order.

  Times are milliseconds on an explicit clock `now`. The upstream API is an
  oracle (`Upstream`) handed to each call.
 */
module Services {
  import opened Wrappers
  import opened Models
  import opened Decimal
  import opened TtlCache
  import opened Infrastructure
  import opened Extensions
  import opened Calendar

  /** `SemaphoreSlim(initialCount: 8, maxCount: 8)`. */
  const MaxParallel := 8
  const BestIdsCacheTtl := 30_000
  const StoryCacheTtl := 300_000
  const BestIdsKey := "hn:beststories"

  function StoryKey(id: int32): string {
    "hn:story:" + IntToDecimal(id as int)
  }

  /** What the shared cache holds: the ranked-ID list, or one story. */
  datatype CacheValue = Ids(ids: seq<int32>) | Item(story: Story)

  type StoryCache = Cache<string, CacheValue>

  /** The upstream responses seen by one request: the list endpoint and each item endpoint. */
  datatype Upstream = Upstream(bestStories: HttpResult<seq<int32>>, item: int32 -> HttpResult<Story>)

  /** Story keys never collide with the list key, nor with each other. */
  lemma {:induction false} StoryKeysDistinct(a: int32, b: int32)
    ensures StoryKey(a) != BestIdsKey
    ensures StoryKey(a) == StoryKey(b) <==> a == b
  {
    assert StoryKey(a)[3] == 's' != BestIdsKey[3];
    if StoryKey(a) == StoryKey(b) {
      assert StoryKey(a)[9..] == IntToDecimal(a as int);
      assert StoryKey(b)[9..] == IntToDecimal(b as int);
      IntToDecimalInjective(a as int, b as int);
    }
  }

  /** Only ID lists are ever stored under the list key. */
  ghost predicate IdsWellTyped(c: StoryCache) {
    BestIdsKey in c ==> c[BestIdsKey].value.Ids?
  }

  /** `TryGetValue<Story>(StoryKey(id))` that found a non-null story. */
  function CachedStory(c: StoryCache, id: int32, now: int): (r: Option<Story>)
    ensures r.Some? ==> Lookup(c, StoryKey(id), now) == Some(Item(r.value))
    ensures r.None? ==> Lookup(c, StoryKey(id), now).None? || !Lookup(c, StoryKey(id), now).value.Item?
  {
    match Lookup(c, StoryKey(id), now)
    case Some(v) => if v.Item? then Some(v.story) else None
    case None => None
  }

  /** The outcome of `GetStoryWithCache`: the story, the new cache, and whether upstream was called. */
  datatype Resolution = Resolution(story: Result<Option<Story>, Fault>, cache: StoryCache, fetched: bool)

  /** `GetStoryWithCache(id)` as a function of the cache, the clock and the upstream responses. */
  function ResolveStory(c: StoryCache, id: int32, now: int, up: Upstream): (res: Resolution)
  {
    match CachedStory(c, id, now)
    case Some(s) => Resolution(Ok(Some(s)), c, false)
    case None =>
      var story := GetStory(up.item(id));
      if story.Ok? && story.value.Some? then
        Resolution(story, Store(c, StoryKey(id), Item(story.value.value), now, StoryCacheTtl), true)
      else
        Resolution(story, c, true)
  }

  /**
    A live cached story is returned as it is, with no upstream call and no
    change to the cache. Otherwise upstream is called; a non-null story is
    stored under `StoryKey(id)` for five minutes, while null and a thrown fault
    store nothing.
   */
  lemma ResolveStorySpec(c: StoryCache, id: int32, now: int, up: Upstream)
    ensures var res := ResolveStory(c, id, now, up);
      && (CachedStory(c, id, now).Some? ==>
            res.story == Ok(CachedStory(c, id, now)) && res.cache == c && !res.fetched)
      && (CachedStory(c, id, now).None? ==>
            res.fetched && res.story == GetStory(up.item(id)))
      && (res.story.Ok? && res.story.value.Some? && res.fetched ==>
            forall t :: t < now + StoryCacheTtl ==> CachedStory(res.cache, id, t) == res.story.value)
      && (!(res.story.Ok? && res.story.value.Some?) ==> res.cache == c)
  {
  }

  /** Resolving one story changes no other key, the list entry included. */
  lemma ResolveStoryFrame(c: StoryCache, id: int32, now: int, up: Upstream)
    ensures var res := ResolveStory(c, id, now, up);
      && (forall k, t :: k != StoryKey(id) ==> Lookup(res.cache, k, t) == Lookup(c, k, t))
      && (forall t :: Lookup(res.cache, BestIdsKey, t) == Lookup(c, BestIdsKey, t))
      && (IdsWellTyped(c) ==> IdsWellTyped(res.cache))
  {
    StoryKeysDistinct(id, id);
  }

  /** The outcome of the fan-out: one result per ID, the final cache, the IDs fetched upstream. */
  datatype FanOut = FanOut(stories: seq<Result<Option<Story>, Fault>>, cache: StoryCache, fetched: seq<int32>)

  /** `Task.WhenAll(slice.Select(GetStoryWithCache))`, the resolutions taken in slice order. */
  function ResolveAll(c: StoryCache, ids: seq<int32>, now: int, up: Upstream): (f: FanOut)
    ensures |f.stories| == |ids|
    ensures |f.fetched| <= |ids|
    ensures IdsWellTyped(c) ==> IdsWellTyped(f.cache)
    decreases |ids|
  {
    if ids == [] then FanOut([], c, [])
    else
      var f := ResolveAll(c, ids[..|ids| - 1], now, up);
      var id := ids[|ids| - 1];
      var r := ResolveStory(f.cache, id, now, up);
      ResolveStoryFrame(f.cache, id, now, up);
      FanOut(f.stories + [r.story], r.cache, f.fetched + if r.fetched then [id] else [])
  }

  /** One more ID resolved: the fan-out over a longer prefix extends the shorter one. */
  lemma ResolveAllStep(c: StoryCache, ids: seq<int32>, i: int, now: int, up: Upstream)
    requires 0 <= i < |ids|
    ensures var f := ResolveAll(c, ids[..i], now, up);
      var r := ResolveStory(f.cache, ids[i], now, up);
      ResolveAll(c, ids[..i + 1], now, up)
        == FanOut(f.stories + [r.story], r.cache, f.fetched + if r.fetched then [ids[i]] else [])
  {
    assert ids[..i + 1][..i] == ids[..i];
  }

  /** `bestIds.Take(n)`: the first `n` IDs, all of them when `n` is larger, none when `n <= 0`. */
  function Take(ids: seq<int32>, n: int32): (slice: seq<int32>)
    ensures |slice| <= |ids| && |slice| <= (if n < 0 then 0 else n as int)
    ensures slice == ids[..|slice|]
    ensures n > 0 ==> |slice| == (if n as int < |ids| then n as int else |ids|)
  {
    if n <= 0 then [] else if n as int < |ids| then ids[..n] else ids
  }

  /**
    `Where(s => s is not null)` after `await Task.WhenAll`: the first fault in
    slice order is rethrown; otherwise the non-null stories, in order.
   */
  function Collect(rs: seq<Result<Option<Story>, Fault>>): Result<seq<Story>, Fault>
    decreases |rs|
  {
    if rs == [] then Ok([])
    else
      match Collect(rs[..|rs| - 1])
      case Err(e) => Err(e)
      case Ok(ss) =>
        match rs[|rs| - 1]
        case Err(e) => Err(e)
        case Ok(None) => Ok(ss)
        case Ok(Some(s)) => Ok(ss + [s])
  }

  /** The positions of the non-null stories among the results, in increasing order. */
  function PresentIndices(rs: seq<Result<Option<Story>, Fault>>): (pi: seq<nat>)
    ensures |pi| <= |rs|
    ensures forall j :: 0 <= j < |pi| ==> pi[j] < |rs|
    ensures forall j, l :: 0 <= j < l < |pi| ==> pi[j] < pi[l]
    ensures forall k :: 0 <= k < |rs| ==> (k in pi <==> rs[k].Ok? && rs[k].value.Some?)
    decreases |rs|
  {
    if rs == [] then []
    else
      var pi := PresentIndices(rs[..|rs| - 1]);
      assert forall k :: 0 <= k < |rs| - 1 ==> rs[..|rs| - 1][k] == rs[k];
      if rs[|rs| - 1].Ok? && rs[|rs| - 1].value.Some? then pi + [|rs| - 1] else pi
  }

  /**
    `Collect` keeps exactly the non-null stories, in order and with repeats;
    dead and deleted stories are kept like any other. It fails exactly when
    some resolution failed, and then with the first failure.
   */
  lemma {:induction false} CollectExact(rs: seq<Result<Option<Story>, Fault>>)
    ensures Collect(rs).Ok? <==> forall k :: 0 <= k < |rs| ==> rs[k].Ok?
    ensures Collect(rs).Err? ==>
      exists k :: 0 <= k < |rs| && rs[k] == Err(Collect(rs).error) && forall j :: 0 <= j < k ==> rs[j].Ok?
    ensures Collect(rs).Ok? ==>
      var ss, pi := Collect(rs).value, PresentIndices(rs);
      |ss| == |pi| && forall j :: 0 <= j < |ss| ==> rs[pi[j]] == Ok(Some(ss[j]))
  {
    CollectFailsOnFirstFault(rs);
    CollectKeepsPresent(rs);
  }

  lemma {:induction false} CollectFailsOnFirstFault(rs: seq<Result<Option<Story>, Fault>>)
    ensures Collect(rs).Ok? <==> forall k :: 0 <= k < |rs| ==> rs[k].Ok?
    ensures Collect(rs).Err? ==>
      exists k :: 0 <= k < |rs| && rs[k] == Err(Collect(rs).error) && forall j :: 0 <= j < k ==> rs[j].Ok?
    decreases |rs|
  {
    if rs != [] {
      var init := rs[..|rs| - 1];
      CollectFailsOnFirstFault(init);
      assert forall k :: 0 <= k < |init| ==> init[k] == rs[k];
      if Collect(init).Err? {
        var k :| 0 <= k < |init| && init[k] == Err(Collect(init).error) && forall j :: 0 <= j < k ==> init[j].Ok?;
        assert rs[k] == Err(Collect(rs).error);
      } else if rs[|rs| - 1].Err? {
        assert rs[|rs| - 1] == Err(Collect(rs).error);
      }
    }
  }

  lemma {:induction false} CollectKeepsPresent(rs: seq<Result<Option<Story>, Fault>>)
    ensures Collect(rs).Ok? ==>
      var ss, pi := Collect(rs).value, PresentIndices(rs);
      |ss| == |pi| && forall j :: 0 <= j < |ss| ==> rs[pi[j]] == Ok(Some(ss[j]))
    decreases |rs|
  {
    if rs != [] && Collect(rs).Ok? {
      var init := rs[..|rs| - 1];
      CollectKeepsPresent(init);
      assert forall k :: 0 <= k < |init| ==> init[k] == rs[k];
      var ss0, pi0 := Collect(init).value, PresentIndices(init);
      var ss, pi := Collect(rs).value, PresentIndices(rs);
      if rs[|rs| - 1].value.Some? {
        assert ss == ss0 + [rs[|rs| - 1].value.value] && pi == pi0 + [|rs| - 1];
      } else {
        assert ss == ss0 && pi == pi0;
      }
    }
  }

  /**
    `Select(f).ToList()` over a mapping that may throw: the first element whose
    mapping throws makes the whole list throw; otherwise every element mapped,
    in order.
   */
  function SelectAll<A, B(==), E(==)>(xs: seq<A>, f: A -> Result<B, E>): (r: Result<seq<B>, E>)
    ensures r.Ok? <==> forall j :: 0 <= j < |xs| ==> f(xs[j]).Ok?
    ensures r.Ok? ==> |r.value| == |xs| && forall j :: 0 <= j < |xs| ==> f(xs[j]) == Ok(r.value[j])
    ensures r.Err? ==>
      exists j :: 0 <= j < |xs| && f(xs[j]) == Err(r.error) && forall l :: 0 <= l < j ==> f(xs[l]).Ok?
    decreases |xs|
  {
    if xs == [] then Ok([])
    else
      match f(xs[0])
      case Err(e) => Err(e)
      case Ok(y) =>
        var rest := SelectAll(xs[1..], f);
        assert forall j :: 1 <= j < |xs| ==> xs[j] == xs[1..][j - 1];
        match rest
        case Err(e) =>
          var j :| 0 <= j < |xs[1..]| && f(xs[1..][j]) == Err(e) && forall l :: 0 <= l < j ==> f(xs[1..][l]).Ok?;
          assert forall l :: 1 <= l <= j ==> xs[l] == xs[1..][l - 1];
          Err(e)
        case Ok(ys) =>
          var r := [y] + ys;
          assert forall j :: 1 <= j < |xs| ==> r[j] == ys[j - 1];
          Ok(r)
  }

  /** The DTO list of the resolved stories: `Where(s is not null).Select(MapToBestStoryDto).ToList()`. */
  function Assemble(rs: seq<Result<Option<Story>, Fault>>): Result<seq<BestStoryDto>, Fault>
  {
    match Collect(rs)
    case Err(e) => Err(e)
    case Ok(ss) => SelectAll(ss, ToView)
  }

  /** The list through its cache, the cache after that, and whether upstream was called. */
  datatype IdsResolution = IdsResolution(ids: Result<seq<int32>, Fault>, cache: StoryCache, fetched: bool)

  /**
    `GetOrCreateAsync("hn:beststories", …)`. A live entry is used as it is.
    Otherwise upstream is called and whatever it returned, the empty list of a
    failed status included, is stored for 30 seconds; a thrown fault stores nothing.
   */
  function ResolveIds(c: StoryCache, now: int, up: Upstream): (res: IdsResolution)
    requires IdsWellTyped(c)
    ensures Lookup(c, BestIdsKey, now).Some? ==>
      res == IdsResolution(Ok(Lookup(c, BestIdsKey, now).value.ids), c, false)
    ensures Lookup(c, BestIdsKey, now).None? ==>
      res.fetched && res.ids == GetBestStoryIds(up.bestStories)
    ensures res.fetched && res.ids.Ok? ==>
      forall t :: t < now + BestIdsCacheTtl ==> Lookup(res.cache, BestIdsKey, t) == Some(Ids(res.ids.value))
    ensures res.ids.Err? ==> res.cache == c
    ensures forall k, t :: k != BestIdsKey ==> Lookup(res.cache, k, t) == Lookup(c, k, t)
    ensures IdsWellTyped(res.cache)
  {
    match Lookup(c, BestIdsKey, now)
    case Some(v) => IdsResolution(Ok(v.ids), c, false)
    case None =>
      var ids := GetBestStoryIds(up.bestStories);
      if ids.Ok? then IdsResolution(ids, Store(c, BestIdsKey, Ids(ids.value), now, BestIdsCacheTtl), true)
      else IdsResolution(ids, c, true)
  }

  /** The outcome of `GetTopBestStoriesAsync`. */
  datatype Aggregate = Aggregate(
    result: Result<seq<BestStoryDto>, Fault>,
    cache: StoryCache,
    idsFetched: bool,
    fetched: seq<int32>)

  /** `GetTopBestStoriesAsync(n)` as a function of the cache, the clock and the upstream responses. */
  function TopBestStories(c: StoryCache, n: int32, now: int, up: Upstream): (a: Aggregate)
    requires IdsWellTyped(c)
    ensures IdsWellTyped(a.cache)
  {
    var ids := ResolveIds(c, now, up);
    match ids.ids
    case Err(e) => Aggregate(Err(e), ids.cache, ids.fetched, [])
    case Ok(list) =>
      if |list| == 0 then Aggregate(Ok([]), ids.cache, ids.fetched, [])
      else
        var f := ResolveAll(ids.cache, Take(list, n), now, up);
        Aggregate(Assemble(f.stories), f.cache, ids.fetched, f.fetched)
  }

  /**
    A cache reached during a fan-out that began with `c0`: a story live at the
    start is still the one cached, and a story cached for an ID that missed at
    the start is upstream's answer for that ID.
   */
  ghost predicate HitsKeptMissesFetched(c0: StoryCache, c: StoryCache, now: int, up: Upstream) {
    && (forall id :: CachedStory(c0, id, now).Some? ==> CachedStory(c, id, now) == CachedStory(c0, id, now))
    && (forall id :: CachedStory(c0, id, now).None? && CachedStory(c, id, now).Some? ==>
          GetStory(up.item(id)) == Ok(CachedStory(c, id, now)))
  }

  /** The fan-out keeps every story that was live when it began, caches only upstream's answers, and leaves the list entry alone. */
  lemma {:induction false} ResolveAllCache(c: StoryCache, ids: seq<int32>, now: int, up: Upstream)
    ensures HitsKeptMissesFetched(c, ResolveAll(c, ids, now, up).cache, now, up)
    ensures forall t :: Lookup(ResolveAll(c, ids, now, up).cache, BestIdsKey, t) == Lookup(c, BestIdsKey, t)
    decreases |ids|
  {
    if ids != [] {
      var init := ids[..|ids| - 1];
      var id := ids[|ids| - 1];
      ResolveAllCache(c, init, now, up);
      var f := ResolveAll(c, init, now, up);
      var r := ResolveStory(f.cache, id, now, up);
      ResolveStorySpec(f.cache, id, now, up);
      ResolveStoryFrame(f.cache, id, now, up);
      forall other: int32
        ensures CachedStory(c, other, now).Some? ==> CachedStory(r.cache, other, now) == CachedStory(c, other, now)
        ensures CachedStory(c, other, now).None? && CachedStory(r.cache, other, now).Some? ==>
          GetStory(up.item(other)) == Ok(CachedStory(r.cache, other, now))
      {
        StoryKeysDistinct(id, other);
        if other != id {
          assert Lookup(r.cache, StoryKey(other), now) == Lookup(f.cache, StoryKey(other), now);
        }
      }
    }
  }

  /**
    Each result of the fan-out belongs to the ID at the same position: the
    story cached for that ID when the fan-out began if there was one, and
    otherwise what upstream returns for that ID.
   */
  lemma {:induction false} ResolveAllElement(c: StoryCache, ids: seq<int32>, now: int, up: Upstream, k: int)
    requires 0 <= k < |ids|
    ensures ResolveAll(c, ids, now, up).stories[k]
      == if CachedStory(c, ids[k], now).Some? then Ok(CachedStory(c, ids[k], now)) else GetStory(up.item(ids[k]))
    decreases |ids|
  {
    var i := |ids| - 1;
    var init := ids[..i];
    ResolveAllStep(c, ids, i, now, up);
    assert ids[..i + 1] == ids;
    var f := ResolveAll(c, init, now, up);
    var r := ResolveStory(f.cache, ids[i], now, up);
    var stories := ResolveAll(c, ids, now, up).stories;
    assert stories == f.stories + [r.story];
    if k < i {
      ResolveAllElement(c, init, now, up, k);
      assert ids[k] == init[k] && stories[k] == f.stories[k];
    } else {
      ResolveAllCache(c, init, now, up);
      ResolveFromLaterCache(c, f.cache, ids[i], now, up);
      assert k == i && stories[k] == r.story;
    }
  }

  /** Resolving against a cache reached during the fan-out gives the answer the ID had when the fan-out began. */
  lemma ResolveFromLaterCache(c0: StoryCache, c: StoryCache, id: int32, now: int, up: Upstream)
    requires HitsKeptMissesFetched(c0, c, now, up)
    ensures ResolveStory(c, id, now, up).story
      == if CachedStory(c0, id, now).Some? then Ok(CachedStory(c0, id, now)) else GetStory(up.item(id))
  {
    ResolveStorySpec(c, id, now, up);
  }

  /** Only IDs without a live cached story when the fan-out began go upstream. */
  lemma {:induction false} ResolveAllFetchesOnlyMisses(c: StoryCache, ids: seq<int32>, now: int, up: Upstream)
    ensures forall id :: id in ResolveAll(c, ids, now, up).fetched ==> id in ids && CachedStory(c, id, now).None?
    decreases |ids|
  {
    if ids != [] {
      var init := ids[..|ids| - 1];
      var id := ids[|ids| - 1];
      ResolveAllFetchesOnlyMisses(c, init, now, up);
      ResolveAllCache(c, init, now, up);
      var f := ResolveAll(c, init, now, up);
      ResolveStorySpec(f.cache, id, now, up);
      assert CachedStory(c, id, now).Some? ==> CachedStory(f.cache, id, now).Some?;
    }
  }

  /** The cache entry of an ID outside the slice reads the same after the fan-out, at every instant. */
  lemma {:induction false} ResolveAllLeavesOthers(c: StoryCache, ids: seq<int32>, now: int, up: Upstream, id: int32)
    requires id !in ids
    ensures forall t :: Lookup(ResolveAll(c, ids, now, up).cache, StoryKey(id), t) == Lookup(c, StoryKey(id), t)
    decreases |ids|
  {
    if ids != [] {
      var init := ids[..|ids| - 1];
      var last := ids[|ids| - 1];
      assert id !in init;
      ResolveAllLeavesOthers(c, init, now, up, id);
      ResolveStoryFrame(ResolveAll(c, init, now, up).cache, last, now, up);
      StoryKeysDistinct(last, id);
    }
  }

  /**
    An ID of the slice that missed when the fan-out began, and for which
    upstream returns a story, has that story cached afterwards for the next
    five minutes, however often it occurs in the slice.
   */
  lemma {:induction false} ResolveAllStoresFetched(c: StoryCache, ids: seq<int32>, now: int, up: Upstream, id: int32, s: Story)
    requires id in ids && CachedStory(c, id, now).None?
    requires GetStory(up.item(id)) == Ok(Some(s))
    ensures forall t :: t < now + StoryCacheTtl ==>
      Lookup(ResolveAll(c, ids, now, up).cache, StoryKey(id), t) == Some(Item(s))
    decreases |ids|
  {
    var init := ids[..|ids| - 1];
    var last := ids[|ids| - 1];
    var f := ResolveAll(c, init, now, up);
    var r := ResolveStory(f.cache, last, now, up);
    assert ResolveAll(c, ids, now, up).cache == r.cache;
    ResolveStoryFrame(f.cache, last, now, up);
    if id in init {
      ResolveAllStoresFetched(c, init, now, up, id, s);
      if last == id {
        assert CachedStory(f.cache, id, now) == Some(s);
      } else {
        StoryKeysDistinct(last, id);
      }
    } else {
      assert last == id;
      ResolveAllLeavesOthers(c, init, now, up, id);
      assert CachedStory(f.cache, id, now).None?;
      ResolveStorySpec(f.cache, id, now, up);
      forall t | t < now + StoryCacheTtl
        ensures Lookup(r.cache, StoryKey(id), t) == Some(Item(s))
      {
        assert CachedStory(r.cache, id, t) == Some(s);
      }
    }
  }

  /**
    What the DTO list of the resolutions `rs` must be. It succeeds exactly when
    every resolution succeeded and every non-null story has a time
    `FromUnixTimeSeconds` accepts; it then holds the view of each non-null
    story, in order, one per non-null story and none for a null. Otherwise it
    fails with the first failed resolution in slice order, and when there is
    none, with `TimeOutOfRange`.
   */
  ghost predicate AssembledFrom(rs: seq<Result<Option<Story>, Fault>>, r: Result<seq<BestStoryDto>, Fault>) {
    var pi := PresentIndices(rs);
    && (r.Ok? <==>
          && (forall k :: 0 <= k < |rs| ==> rs[k].Ok?)
          && (forall j :: 0 <= j < |pi| ==>
                rs[pi[j]].Ok? && rs[pi[j]].value.Some? && InUnixRange(rs[pi[j]].value.value.time as int)))
    && (r.Ok? ==>
          && |r.value| == |pi|
          && forall j :: 0 <= j < |pi| ==>
               rs[pi[j]].Ok? && rs[pi[j]].value.Some? && ToView(rs[pi[j]].value.value) == Ok(r.value[j]))
    && ((exists k :: 0 <= k < |rs| && rs[k].Err?) ==>
          && r.Err?
          && exists k :: 0 <= k < |rs| && rs[k] == Err(r.error) && forall j :: 0 <= j < k ==> rs[j].Ok?)
    && ((forall k :: 0 <= k < |rs| ==> rs[k].Ok?) && r.Err? ==> r.error == TimeOutOfRange)
  }

  /** `Where(s is not null).Select(MapToBestStoryDto).ToList()` after `WhenAll` builds exactly that list. */
  lemma AssembleExact(rs: seq<Result<Option<Story>, Fault>>)
    ensures AssembledFrom(rs, Assemble(rs))
  {
    AssembleSucceeds(rs);
    AssembleViews(rs);
    AssembleFault(rs);
  }

  /**
    When the ranked list resolves, the request's result is the DTO list of the
    resolutions of its first `n` IDs, in slice order, so it never holds more
    than `min(n, |ids|)` views; the IDs fetched upstream are the fan-out's.
   */
  lemma TopBestStoriesExact(c: StoryCache, n: int32, now: int, up: Upstream)
    requires IdsWellTyped(c)
    requires ResolveIds(c, now, up).ids.Ok?
    ensures var ids := ResolveIds(c, now, up);
      var slice := Take(ids.ids.value, n);
      var f := ResolveAll(ids.cache, slice, now, up);
      var a := TopBestStories(c, n, now, up);
      && a.fetched == f.fetched
      && AssembledFrom(f.stories, a.result)
      && |PresentIndices(f.stories)| <= |slice|
  {
    var ids := ResolveIds(c, now, up);
    var slice := Take(ids.ids.value, n);
    var f := ResolveAll(ids.cache, slice, now, up);
    if |ids.ids.value| == 0 {
      assert slice == [];
    }
    assert TopBestStories(c, n, now, up).result == Assemble(f.stories);
    AssembleExact(f.stories);
  }

  lemma AssembleSucceeds(rs: seq<Result<Option<Story>, Fault>>)
    ensures var pi := PresentIndices(rs);
      Assemble(rs).Ok? <==>
        && (forall k :: 0 <= k < |rs| ==> rs[k].Ok?)
        && (forall j :: 0 <= j < |pi| ==>
              rs[pi[j]].Ok? && rs[pi[j]].value.Some? && InUnixRange(rs[pi[j]].value.value.time as int))
  {
    CollectFailsOnFirstFault(rs);
    CollectKeepsPresent(rs);
    var pi := PresentIndices(rs);
    if Collect(rs).Ok? {
      var ss := Collect(rs).value;
      assert Assemble(rs) == SelectAll(ss, ToView);
      forall j | 0 <= j < |pi|
        ensures rs[pi[j]].Ok? && rs[pi[j]].value.Some?
        ensures ToView(ss[j]).Ok? <==> InUnixRange(rs[pi[j]].value.value.time as int)
      {
        assert rs[pi[j]] == Ok(Some(ss[j]));
      }
    }
  }

  lemma AssembleViews(rs: seq<Result<Option<Story>, Fault>>)
    ensures var pi, r := PresentIndices(rs), Assemble(rs);
      r.Ok? ==>
        && |r.value| == |pi|
        && forall j :: 0 <= j < |pi| ==>
             rs[pi[j]].Ok? && rs[pi[j]].value.Some? && ToView(rs[pi[j]].value.value) == Ok(r.value[j])
  {
    CollectExact(rs);
    if Assemble(rs).Ok? {
      var ss := Collect(rs).value;
      assert Assemble(rs) == SelectAll(ss, ToView);
    }
  }

  lemma AssembleFault(rs: seq<Result<Option<Story>, Fault>>)
    ensures (exists k :: 0 <= k < |rs| && rs[k].Err?) ==>
      && Assemble(rs).Err?
      && exists k :: 0 <= k < |rs| && rs[k] == Err(Assemble(rs).error) && forall j :: 0 <= j < k ==> rs[j].Ok?
    ensures (forall k :: 0 <= k < |rs| ==> rs[k].Ok?) && Assemble(rs).Err? ==> Assemble(rs).error == TimeOutOfRange
  {
    CollectFailsOnFirstFault(rs);
    if Collect(rs).Ok? {
      var ss := Collect(rs).value;
      assert Assemble(rs) == SelectAll(ss, ToView);
    }
  }

  /** The result never holds more than `n` views, nor more than there are ranked IDs. */
  lemma ResultBounded(c: StoryCache, n: int32, now: int, up: Upstream)
    requires IdsWellTyped(c)
    ensures var a := TopBestStories(c, n, now, up);
      a.result.Ok? ==>
        && |a.result.value| <= (if n < 0 then 0 else n as int)
        && |a.result.value| <= |ResolveIds(c, now, up).ids.value|
  {
    if ResolveIds(c, now, up).ids.Ok? {
      TopBestStoriesExact(c, n, now, up);
    }
  }

  /**
    An empty ranked list gives an empty result with no story lookup upstream
    and no gate use; the list entry is the only cache change.
   */
  lemma EmptyListShortCircuits(c: StoryCache, n: int32, now: int, up: Upstream)
    requires IdsWellTyped(c)
    requires ResolveIds(c, now, up).ids == Ok([])
    ensures var a := TopBestStories(c, n, now, up);
      a.result == Ok([]) && a.fetched == [] && a.cache == ResolveIds(c, now, up).cache
  {
  }

  /**
    A fault on the list request (a transport failure or malformed JSON) fails
    the whole request with that fault: no story is fetched and the cache is
    left as it was.
   */
  lemma ListFaultFailsRequest(c: StoryCache, n: int32, now: int, up: Upstream)
    requires IdsWellTyped(c)
    requires ResolveIds(c, now, up).ids.Err?
    ensures var a := TopBestStories(c, n, now, up);
      && a.result == Err(ResolveIds(c, now, up).ids.error)
      && a.fetched == []
      && a.cache == c
  {
  }

  /**
    Story resolution never touches the list entry, so after a call that
    fetched the list, any call before the 30 seconds run out reads the same
    list from the cache and makes no upstream list request.
   */
  lemma IdsServedFromCacheWithinTtl(c: StoryCache, n: int32, now: int, up: Upstream, now2: int, up2: Upstream)
    requires IdsWellTyped(c)
    requires ResolveIds(c, now, up).fetched && ResolveIds(c, now, up).ids.Ok?
    requires now2 < now + BestIdsCacheTtl
    ensures var a := TopBestStories(c, n, now, up);
      var again := ResolveIds(a.cache, now2, up2);
      !again.fetched && again.ids == ResolveIds(c, now, up).ids
  {
    var ids := ResolveIds(c, now, up);
    var list := ids.ids.value;
    if |list| != 0 {
      ResolveAllCache(ids.cache, Take(list, n), now, up);
    }
    assert Lookup(ids.cache, BestIdsKey, now2) == Some(Ids(list));
  }

  /**
    A story fetched during a request is served from the cache for the next
    five minutes: resolving its ID again is a hit with no upstream call and no
    cache change, and no later request in that window sends the ID upstream.
   */
  lemma StoryServedFromCacheWithinTtl(c: StoryCache, n: int32, now: int, up: Upstream, id: int32, s: Story,
                                      n2: int32, now2: int, up2: Upstream)
    requires IdsWellTyped(c)
    requires ResolveIds(c, now, up).ids.Ok? && id in Take(ResolveIds(c, now, up).ids.value, n)
    requires CachedStory(c, id, now).None? && GetStory(up.item(id)) == Ok(Some(s))
    requires now2 < now + StoryCacheTtl
    ensures var a := TopBestStories(c, n, now, up);
      && ResolveStory(a.cache, id, now2, up2) == Resolution(Ok(Some(s)), a.cache, false)
      && id !in TopBestStories(a.cache, n2, now2, up2).fetched
  {
    var ids := ResolveIds(c, now, up);
    var slice := Take(ids.ids.value, n);
    StoryKeysDistinct(id, id);
    assert Lookup(ids.cache, StoryKey(id), now) == Lookup(c, StoryKey(id), now);
    ResolveAllStoresFetched(ids.cache, slice, now, up, id, s);
    var a := TopBestStories(c, n, now, up);
    assert a.cache == ResolveAll(ids.cache, slice, now, up).cache;
    assert Lookup(a.cache, StoryKey(id), now2) == Some(Item(s));
    var ids2 := ResolveIds(a.cache, now2, up2);
    assert Lookup(ids2.cache, StoryKey(id), now2) == Lookup(a.cache, StoryKey(id), now2);
    if ids2.ids.Ok? && |ids2.ids.value| != 0 {
      ResolveAllFetchesOnlyMisses(ids2.cache, Take(ids2.ids.value, n2), now2, up2);
    }
  }

  /**
    A failed status on the list request is not an error: the empty list is
    returned, and cached for 30 seconds like any other list.
   */
  lemma FailedListCachedAsEmpty(c: StoryCache, n: int32, now: int, up: Upstream)
    requires IdsWellTyped(c)
    requires Lookup(c, BestIdsKey, now).None?
    requires up.bestStories.Response? && !IsSuccessStatusCode(up.bestStories.status)
    ensures var a := TopBestStories(c, n, now, up);
      && a.result == Ok([]) && a.idsFetched && a.fetched == []
      && forall t :: t < now + BestIdsCacheTtl ==> Lookup(a.cache, BestIdsKey, t) == Some(Ids([]))
  {
  }

  /** The SemaphoreSlim that bounds concurrent upstream story fetches. */
  class Gate {
    var count: int
    const maxCount: int
    ghost var acquired: nat

    ghost predicate Valid()
      reads this
    {
      0 <= count <= maxCount
    }

    constructor (initialCount: int, maxCount: int)
      requires 0 <= initialCount <= maxCount
      ensures Valid() && count == initialCount && this.maxCount == maxCount && acquired == 0
    {
      count := initialCount;
      this.maxCount := maxCount;
      acquired := 0;
    }

    /** `WaitAsync`, taken when a slot is free (the model does not block). */
    method Wait()
      requires Valid() && count > 0
      modifies this
      ensures Valid() && count == old(count) - 1 && acquired == old(acquired) + 1
    {
      count := count - 1;
      acquired := acquired + 1;
    }

    /** `Release`; releasing past `maxCount` would throw SemaphoreFullException. */
    method Release()
      requires Valid() && count < maxCount
      modifies this
      ensures Valid() && count == old(count) + 1 && acquired == old(acquired)
    {
      count := count + 1;
    }
  }

  class BestStoriesService {
    var cache: StoryCache
    const gate: Gate
    /** How many times upstream was asked for the ID list. */
    ghost var idFetches: nat
    /** The IDs upstream was asked for, in order. */
    ghost var storyFetches: seq<int32>

    ghost predicate Valid()
      reads this, gate
    {
      gate.Valid() && gate.maxCount == MaxParallel && IdsWellTyped(cache)
    }

    constructor (cache: StoryCache)
      requires IdsWellTyped(cache)
      ensures Valid() && fresh(gate) && gate.count == MaxParallel && gate.acquired == 0
      ensures this.cache == cache && idFetches == 0 && storyFetches == []
    {
      this.cache := cache;
      gate := new Gate(MaxParallel, MaxParallel);
      idFetches := 0;
      storyFetches := [];
    }

    /**
      `GetStoryWithCache`: on a miss the gate is taken before the upstream call
      and given back afterwards whatever the call returned or threw, so the
      count is back where it was; a hit leaves the gate alone.
     */
    method GetStoryWithCache(id: int32, now: int, up: Upstream) returns (story: Result<Option<Story>, Fault>)
      requires Valid() && gate.count > 0
      modifies this, gate
      ensures Valid() && gate.count == old(gate.count)
      ensures var res := ResolveStory(old(cache), id, now, up);
        && story == res.story
        && cache == res.cache
        && idFetches == old(idFetches)
        && storyFetches == old(storyFetches) + (if res.fetched then [id] else [])
        && gate.acquired == old(gate.acquired) + (if res.fetched then 1 else 0)
    {
      var cacheKey := StoryKey(id);
      var cached := CachedStory(cache, id, now);
      if cached.Some? {
        return Ok(cached);
      }
      gate.Wait();
      story := GetStory(up.item(id));
      storyFetches := storyFetches + [id];
      if story.Ok? && story.value.Some? {
        StoryKeysDistinct(id, id);
        cache := Store(cache, cacheKey, Item(story.value.value), now, StoryCacheTtl);
      }
      gate.Release();
    }

    /** The `GetOrCreateAsync` step: the ranked-ID list through its 30-second cache entry. */
    method GetBestIds(now: int, up: Upstream) returns (ids: Result<seq<int32>, Fault>)
      requires Valid()
      modifies this
      ensures Valid()
      ensures var res := ResolveIds(old(cache), now, up);
        && ids == res.ids
        && cache == res.cache
        && idFetches == old(idFetches) + (if res.fetched then 1 else 0)
        && storyFetches == old(storyFetches)
    {
      match Lookup(cache, BestIdsKey, now) {
        case Some(v) =>
          ids := Ok(v.ids);
        case None =>
          ids := GetBestStoryIds(up.bestStories);
          idFetches := idFetches + 1;
          if ids.Ok? {
            cache := Store(cache, BestIdsKey, Ids(ids.value), now, BestIdsCacheTtl);
          }
      }
    }

    /** The fan-out: each ID of the slice resolved in turn, in slice order. */
    method ResolveSlice(slice: seq<int32>, now: int, up: Upstream) returns (stories: seq<Result<Option<Story>, Fault>>)
      requires Valid() && gate.count > 0
      modifies this, gate
      ensures Valid() && gate.count == old(gate.count)
      ensures var f := ResolveAll(old(cache), slice, now, up);
        && stories == f.stories
        && cache == f.cache
        && idFetches == old(idFetches)
        && storyFetches == old(storyFetches) + f.fetched
        && gate.acquired == old(gate.acquired) + |f.fetched|
    {
      stories := [];
      var i := 0;
      while i < |slice|
        invariant 0 <= i <= |slice|
        invariant Valid() && gate.count == old(gate.count)
        invariant idFetches == old(idFetches)
        invariant var f := ResolveAll(old(cache), slice[..i], now, up);
          && stories == f.stories
          && cache == f.cache
          && storyFetches == old(storyFetches) + f.fetched
          && gate.acquired == old(gate.acquired) + |f.fetched|
      {
        ResolveAllStep(old(cache), slice, i, now, up);
        var story := GetStoryWithCache(slice[i], now, up);
        stories := stories + [story];
        i := i + 1;
      }
      assert slice[..i] == slice;
    }

    /**
      `GetTopBestStoriesAsync(n)`: the result, the new cache and the upstream
      calls are those of `TopBestStories`, and the gate count is unchanged.
     */
    method GetTopBestStories(n: int32, now: int, up: Upstream) returns (result: Result<seq<BestStoryDto>, Fault>)
      requires Valid() && gate.count > 0
      modifies this, gate
      ensures Valid() && gate.count == old(gate.count)
      ensures var a := TopBestStories(old(cache), n, now, up);
        && result == a.result
        && cache == a.cache
        && idFetches == old(idFetches) + (if a.idsFetched then 1 else 0)
        && storyFetches == old(storyFetches) + a.fetched
        && gate.acquired == old(gate.acquired) + |a.fetched|
    {
      var ids := GetBestIds(now, up);
      if ids.Err? {
        return Err(ids.error);
      }
      if |ids.value| == 0 {
        return Ok([]);
      }
      var stories := ResolveSlice(Take(ids.value, n), now, up);
      result := Assemble(stories);
    }
  }
}
