/** The recommendation service: a cache keyed by the source game's
    identifier in front of the pipeline that fetches the candidate pool,
    drops flagged games and scores the rest with a four-tag minimum. */
module RecommendationCache {
  import opened Entities
  import opened ContentFilter
  import opened CandidatePool
  import opened Ranking
  import opened Scoring
  import opened Text

  /** Matching tags a candidate needs before it is scored. */
  const MinMatchingTags := 4
  /** Results returned when the caller names no limit. */
  const DefaultMaxResults := 12
  /** How long a stored result stays valid: twenty-four hours, in seconds. */
  const CacheLifetime := 24 * 60 * 60

  /** A stored result list and the instant (in seconds) at which it expires. */
  datatype CacheEntry = CacheEntry(recs: seq<Recommendation>, expiresAt: int)

  /** The cache key of a source game: `recs_` followed by its identifier. */
  function CacheKey(id: int): (key: string)
    ensures |key| > 5 && key[..5] == "recs_" && key[5..] == IntToString(id)
  {
    "recs_" + IntToString(id)
  }

  /** Two games share a cache entry exactly when they share an identifier. */
  lemma CacheKeyInjective(a: int, b: int)
    ensures CacheKey(a) == CacheKey(b) <==> a == b
  {
    if CacheKey(a) == CacheKey(b) {
      assert IntToString(a) == CacheKey(a)[5..];
      IntToStringInjective(a, b);
    }
  }

  /** What a cache miss computes for `source`: all pages of candidates for the
      source's tag identifiers, deduplicated by identifier, filtered, scored
      with the four-tag minimum, ranked and truncated to `maxResults`. */
  function Pipeline(catalog: Catalog, source: Game, maxResults: int): seq<Recommendation> {
    var pool := DistinctById(PagesFrom(catalog, TagIdList(source.tags), 1, TotalPages));
    Rank(Evaluated(source, FilterNsfw(pool), MinMatchingTags), RankKey, maxResults)
  }

  /** What every list the service hands out for the game `sourceId`
      satisfies: no flagged game, never the source game itself, at least four
      matching tags each, no game twice, best first. */
  ghost predicate Sound(recs: seq<Recommendation>, sourceId: int) {
    (forall r :: r in recs ==>
      !IsNsfw(Some(r.game)) && r.game.id != sourceId && |r.matching| >= MinMatchingTags) &&
    DistinctGames(recs) &&
    SortedBy(recs, RankKey)
  }

  /** The pipeline's result is sound for its source, holds at most
      `maxResults` recommendations, and recommends only games of the fetched
      pages, each as `Recommend` scores it. */
  lemma PipelineGuarantees(catalog: Catalog, source: Game, maxResults: int)
    ensures Sound(Pipeline(catalog, source, maxResults), source.id)
    ensures maxResults >= 0 ==> |Pipeline(catalog, source, maxResults)| <= maxResults
    ensures forall r :: r in Pipeline(catalog, source, maxResults) ==>
      r.game in PagesFrom(catalog, TagIdList(source.tags), 1, TotalPages) &&
      |source.tags| > 0 && r == Recommend(source, r.game)
  {
    var fetched := PagesFrom(catalog, TagIdList(source.tags), 1, TotalPages);
    var pool := DistinctById(fetched);
    var safe := FilterNsfw(pool);
    var evaluated := Evaluated(source, safe, MinMatchingTags);
    var result := Rank(evaluated, RankKey, maxResults);
    DistinctByIdKeepsFirst(fetched);
    FilterNsfwKeepsDistinct(pool);
    EvaluatedKeepsDistinct(source, safe, MinMatchingTags);
    RankKeepsDistinct(evaluated, RankKey, maxResults);
    EvaluatedMembers(source, safe, MinMatchingTags);
    RankMembers(evaluated, RankKey, maxResults);
    forall r | r in result
      ensures !IsNsfw(Some(r.game)) && r.game.id != source.id && |r.matching| >= MinMatchingTags
      ensures r.game in fetched && |source.tags| > 0 && r == Recommend(source, r.game)
    {
      assert r in evaluated;
      assert r.game in safe;
      assert r.game in pool;
    }
  }

  /** Every entry stored under a game's key is a sound list for that game. */
  ghost predicate ValidCache(cache: map<string, CacheEntry>) {
    forall id :: CacheKey(id) in cache ==> Sound(cache[CacheKey(id)].recs, id)
  }

  /** Storing a sound list under its game's key keeps the cache valid. */
  lemma ValidCacheStore(cache: map<string, CacheEntry>, id: int, entry: CacheEntry)
    requires ValidCache(cache) && Sound(entry.recs, id)
    ensures ValidCache(cache[CacheKey(id) := entry])
  {
    forall other | CacheKey(other) == CacheKey(id) ensures other == id {
      CacheKeyInjective(other, id);
    }
  }

  /** The application's memory cache, one store shared by every service
      built over it: key to stored entry. */
  class MemoryCache {
    var entries: map<string, CacheEntry>

    constructor(entries: map<string, CacheEntry>)
      ensures this.entries == entries
    {
      this.entries := entries;
    }

    /** Stores `entry` under `key`, replacing what was there. */
    method Set(key: string, entry: CacheEntry)
      modifies this
      ensures entries == old(entries)[key := entry]
    {
      entries := entries[key := entry];
    }
  }

  class RecommendationService {
    /** The remote catalog: tag identifiers, page size, page number to games. */
    const catalog: Catalog
    /** The memory cache the service was given; other services may share it. */
    const cache: MemoryCache

    /** Every stored entry is a sound list for the game its key names. */
    ghost predicate Valid()
      reads cache
    {
      ValidCache(cache.entries)
    }

    /** The service keeps the catalog and the memory cache it is given, with
        whatever the cache already holds. */
    constructor(catalog: Catalog, cache: MemoryCache)
      ensures this.catalog == catalog && this.cache == cache
      ensures ValidCache(cache.entries) ==> Valid()
    {
      this.catalog := catalog;
      this.cache := cache;
    }

    /** An absent game or one without tags gets no recommendations and
        leaves the cache alone. A live entry under the game's key is returned
        as it is, without a request. Otherwise every candidate page is
        requested, the pipeline's result is returned and stored for
        twenty-four hours from `now`. `requests` is the schedule of catalog
        requests the call issued. A hit returns whatever the cache holds; the
        result is sound whenever every stored entry was. */
    method GetRecommendations(sourceGame: Option<Game>, maxResults: int, now: int)
      returns (recs: seq<Recommendation>, requests: seq<Step>)
      modifies cache
      ensures old(Valid()) ==> Valid()
      ensures sourceGame.None? || sourceGame.value.tags == [] ==>
        recs == [] && requests == [] && cache.entries == old(cache.entries)
      ensures sourceGame.Some? && sourceGame.value.tags != [] ==>
        var key := CacheKey(sourceGame.value.id);
        if key in old(cache.entries) && now < old(cache.entries)[key].expiresAt then
          recs == old(cache.entries)[key].recs && requests == [] && cache.entries == old(cache.entries)
        else
          recs == Pipeline(catalog, sourceGame.value, maxResults) &&
          RequestedPages(requests) == Pages(1, TotalPages) && Alternating(requests) &&
          cache.entries == old(cache.entries)[key := CacheEntry(recs, now + CacheLifetime)]
      ensures sourceGame.Some? && old(Valid()) ==> Sound(recs, sourceGame.value.id)
    {
      if sourceGame.None? || sourceGame.value.tags == [] {
        return [], [];
      }
      var source := sourceGame.value;
      var key := CacheKey(source.id);
      if key in cache.entries && now < cache.entries[key].expiresAt {
        return cache.entries[key].recs, [];
      }
      var tagIds := TagIdList(source.tags);
      var candidates;
      candidates, requests := FetchLargeCandidatePool(catalog, tagIds);
      var safeCandidates := FilterNsfw(candidates);
      recs := ProcessRecommendations(source, safeCandidates, maxResults, MinMatchingTags);
      PipelineGuarantees(catalog, source, maxResults);
      if ValidCache(cache.entries) {
        ValidCacheStore(cache.entries, source.id, CacheEntry(recs, now + CacheLifetime));
      }
      cache.Set(key, CacheEntry(recs, now + CacheLifetime));
    }

    /** The call without a limit asks for twelve results: it behaves as
        `GetRecommendations` with `maxResults` twelve in every case. */
    method GetDefaultRecommendations(sourceGame: Option<Game>, now: int)
      returns (recs: seq<Recommendation>, requests: seq<Step>)
      modifies cache
      ensures old(Valid()) ==> Valid()
      ensures sourceGame.None? || sourceGame.value.tags == [] ==>
        recs == [] && requests == [] && cache.entries == old(cache.entries)
      ensures sourceGame.Some? && sourceGame.value.tags != [] ==>
        var key := CacheKey(sourceGame.value.id);
        if key in old(cache.entries) && now < old(cache.entries)[key].expiresAt then
          recs == old(cache.entries)[key].recs && requests == [] && cache.entries == old(cache.entries)
        else
          recs == Pipeline(catalog, sourceGame.value, DefaultMaxResults) &&
          RequestedPages(requests) == Pages(1, TotalPages) && Alternating(requests) &&
          cache.entries == old(cache.entries)[key := CacheEntry(recs, now + CacheLifetime)]
      ensures sourceGame.Some? && old(Valid()) ==> Sound(recs, sourceGame.value.id)
    {
      recs, requests := GetRecommendations(sourceGame, DefaultMaxResults, now);
    }
  }

  /** Two requests for the same game within twenty-four hours, the first
      finding no entry: the second issues no catalog request and returns the
      first one's list, whatever limit it asks for, because the key does not
      include the limit. */
  method RepeatedRequest(service: RecommendationService, source: Game, firstMax: int, secondMax: int, now: int, later: int)
    returns (first: seq<Recommendation>, second: seq<Recommendation>, secondRequests: seq<Step>)
    requires source.tags != []
    requires CacheKey(source.id) !in service.cache.entries
    requires now <= later < now + CacheLifetime
    modifies service.cache
    ensures first == Pipeline(service.catalog, source, firstMax)
    ensures second == first && secondRequests == []
  {
    var firstRequests;
    first, firstRequests := service.GetRecommendations(Some(source), firstMax, now);
    second, secondRequests := service.GetRecommendations(Some(source), secondMax, later);
  }

  /** A new service built over a memory cache that already holds a live
      entry for the game answers with that entry and requests nothing. */
  method AnswersFromWarmCache(catalog: Catalog, store: MemoryCache, source: Game, now: int)
    returns (recs: seq<Recommendation>, requests: seq<Step>)
    requires source.tags != []
    requires CacheKey(source.id) in store.entries && now < store.entries[CacheKey(source.id)].expiresAt
    modifies store
    ensures recs == old(store.entries)[CacheKey(source.id)].recs && requests == []
    ensures store.entries == old(store.entries)
  {
    var service := new RecommendationService(catalog, store);
    recs, requests := service.GetDefaultRecommendations(Some(source), now);
  }

  /** Two services built over one memory cache, as the application builds
      one service per scope over a single cache: what the first computes on
      a miss, the second returns within twenty-four hours without a request. */
  method SharedCacheAcrossServices(catalog: Catalog, store: MemoryCache, source: Game, now: int, later: int)
    returns (first: seq<Recommendation>, second: seq<Recommendation>, secondRequests: seq<Step>)
    requires source.tags != []
    requires CacheKey(source.id) !in store.entries
    requires now <= later < now + CacheLifetime
    modifies store
    ensures first == Pipeline(catalog, source, DefaultMaxResults)
    ensures second == first && secondRequests == []
  {
    var a := new RecommendationService(catalog, store);
    var firstRequests;
    first, firstRequests := a.GetDefaultRecommendations(Some(source), now);
    var b := new RecommendationService(catalog, store);
    second, secondRequests := b.GetDefaultRecommendations(Some(source), later);
  }

  /** The cached-result scenario: the memory cache already holds, under the
      source's key, a one-element list for a game named "Cached Game" that
      carries no tags; a new service returns that list as it is. */
  method ServesCachedGame(catalog: Catalog, now: int) returns (result: seq<Recommendation>)
    ensures |result| == 1 && result[0].game.name == "Cached Game"
  {
    var cached := Recommendation(Game(0, "Cached Game", 0.0, [], []), 0.0, [], "");
    var source := Game(123, "Source Game", 0.0, [Tag(1, ""), Tag(2, ""), Tag(3, ""), Tag(4, "")], []);
    var store := new MemoryCache(map[CacheKey(123) := CacheEntry([cached], now + 1)]);
    var requests;
    result, requests := AnswersFromWarmCache(catalog, store, source, now);
  }
}
