# Game recommendation engine — a Dafny model

This project models the recommendation engine of a Blazor web application
that suggests video games similar to a chosen one, and proves properties of
that model. The engine has four parts, plus an older scorer:

- **Content filter.** A game is flagged as not safe for work when one of its
  tags carries one of six listed identifiers. It is also flagged when one of
  ten listed keywords occurs, ignoring case, in a tag name, in the game's
  non-empty name or in a genre name. Filtering keeps the unflagged games in
  their order.
- **Candidate pool.** Pages 1 to 25 of the catalog are requested for the
  source game's tag identifiers, 40 games per page. The requests go in
  batches of five consecutive pages, with a pause between two batches. The
  pages are joined in page order and deduplicated by game identifier; the
  first occurrence wins.
- **Strict scorer.** It skips the source game, candidates without tags and
  candidates sharing fewer than a minimum number of tags (by identifier)
  with the source. Every other candidate gets a score:
  - similarity = 0.6 · (matches / source tags) + 0.4 · (Jaccard index of the
    tag sets);
  - the similarity is multiplied by the rating boost 1 + (rating − 3) / 50;
  - the reason reads "m/n tags match".

  The result is sorted by the number of matching tags, then by score, both
  descending. The sort is stable. The result is then cut to the requested
  length.
- **Cached service.** An absent source game, or one without tags, gets an
  empty list. Otherwise the key `recs_<id>` is looked up in a memory cache
  and a live entry is returned as stored. On a miss, the pool is fetched,
  filtered and scored with a minimum of four matching tags. The result is
  stored under the key for 24 hours and returned. The default limit is 12
  results. The key does not include the limit: within 24 hours a second
  request for the same game gets the first request's list, whatever limit it
  names (`RecommendationCache.RepeatedRequest`). The memory cache is an
  object the service is given, and several services may share it, as the
  application builds one service per scope over a single cache
  (`RecommendationCache.SharedCacheAcrossServices`).
- **Older scorer.** It makes one catalog request for 40 games. It keeps every
  candidate other than the source that shares at least one tag. Each one is
  scored by Jaccard index · (1 + rating / 100), with the reason
  "m matching tags". The result is sorted by score alone and cut to the
  limit (default 10). It has no cache and no content filter.

Scores are exact rationals (`real`). The catalog is an abstract function
from (tag identifiers, page size, page) to games; a failed request is an
empty page. The clock is the `now` parameter of the cached service, in
seconds. Source paths below are relative to the repository root.

Files:
- `entities.dfy`: the records.
- `seqs.dfy`: `Where`, `Take`, subsequences.
- `text.dfy`: case-insensitive substring search, decimal formatting.
- `content_filter.dfy`.
- `candidate_pool.dfy`.
- `ranking.dfy`: the stable descending sort and truncation.
- `scoring.dfy`: the strict scorer.
- `recommendation_cache.dfy`: the cached service.
- `legacy_scoring.dfy`: the older scorer.

## Model

| member | source | states |
|---|---|---|
| Entities.TagIdList | BlazorApp1/BlazorApp1/Components/Services/GameRecommendationService.cs:34 | the source's identifier list has one entry per tag, the i-th being the i-th tag's identifier |
| Entities.TagIds | BlazorApp1/BlazorApp1/Components/Services/GameRecommendationService.cs:109 | the identifier set holds exactly the identifiers some tag carries |
| Entities.GameIds | BlazorApp1/BlazorApp1/Components/Services/GameRecommendationService.cs:93 | the identifier set holds exactly the identifiers some game carries |
| Entities.TagIdsCount | BlazorApp1/BlazorApp1/Components/Services/GameRecommendationService.cs:108-116 | a tag list carries at most as many identifiers as it has tags, and exactly as many when no identifier repeats |
| Seqs.Filter | BlazorApp1/BlazorApp1/Components/Services/ContentFilter.cs:59 | `Where` keeps exactly the elements satisfying the predicate and never lengthens the list |
| Seqs.FilterKeepsOccurrences | BlazorApp1/BlazorApp1/Components/Services/ContentFilter.cs:59 | `Where` keeps every occurrence of a selected element, drops every other one, and keeps the input order (a subsequence) |
| Seqs.FilterIdempotent | BlazorApp1/BlazorApp1/Components/Services/ContentFilter.cs:59 | filtering twice by the same predicate equals filtering once |
| Seqs.FilterAll | BlazorApp1/BlazorApp1/Components/Services/GameRecommendationService.cs:108-110 | filtering by a predicate every element meets returns the list unchanged |
| Seqs.Take | BlazorApp1/BlazorApp1/Components/Services/GameRecommendationService.cs:136 | `Take(n)` is the prefix of length n clamped to [0, length] |
| Text.Lower | BlazorApp1/BlazorApp1/Components/Services/ContentFilter.cs:35 | case folding keeps the length and folds each character on its own |
| Text.Contains | BlazorApp1/BlazorApp1/Components/Services/ContentFilter.cs:35 | no contract of its own; `ContainsIffOccurs` states it holds exactly when the keyword occurs at some position of the text |
| Text.ContainsIgnoreCase | BlazorApp1/BlazorApp1/Components/Services/ContentFilter.cs:35 | no contract of its own; it is the scan over both strings folded to lower case, so by `ContainsIffOccurs` it holds exactly when the folded keyword occurs in the folded text |
| Text.ContainsIffOccurs | BlazorApp1/BlazorApp1/Components/Services/ContentFilter.cs:35 | the left-to-right substring scan succeeds exactly when the keyword occurs at some position |
| Text.ContainsOnlyItsChars | BlazorApp1/BlazorApp1/Components/Services/ContentFilter.cs:35 | a keyword with a character absent from the text is not contained in it |
| Text.NatToString | BlazorApp1/BlazorApp1/Components/Services/GameRecommendationService.cs:127 | decimal rendering is non-empty, all digits, without a leading zero |
| Text.ParseNatToString | BlazorApp1/BlazorApp1/Components/Services/GameRecommendationService.cs:127 | reading a decimal rendering back gives the number |
| Text.IntToStringInjective | BlazorApp1/BlazorApp1/Components/Services/GameRecommendationService.cs:22 | distinct integers render as distinct strings |
| ContentFilter.IsNsfwMeaning | BlazorApp1/BlazorApp1/Components/Services/ContentFilter.cs:28-55 | an absent game is never flagged; a present one is flagged exactly when a tag id is listed, or a keyword occurs in a tag name, in the non-empty game name or in a genre name |
| ContentFilter.IsNsfw | BlazorApp1/BlazorApp1/Components/Services/ContentFilter.cs:28-55 | no contract of its own; `IsNsfwMeaning` states exactly when it holds (absent game never, else a listed tag id or a keyword in a tag name, the non-empty name or a genre name), and `DarkSoulsIsAllowed` and `HentaiAdventureIsFlagged` pin two cases |
| ContentFilter.TagFlagged | BlazorApp1/BlazorApp1/Components/Services/ContentFilter.cs:33-35 | no contract of its own; within `IsNsfwMeaning` a tag flags its game exactly when its identifier is listed or a keyword occurs in its lower-cased name |
| ContentFilter.MentionsKeyword | BlazorApp1/BlazorApp1/Components/Services/ContentFilter.cs:35 | no contract of its own; `MentionsKeywordMeaning` states it holds exactly when a listed keyword occurs in the lower-cased text, and `NoKeywordWithout` that a text lacking a character of every keyword mentions none |
| ContentFilter.MentionsKeywordMeaning | BlazorApp1/BlazorApp1/Components/Services/ContentFilter.cs:14-26 | the case-insensitive keyword test holds exactly when some keyword occurs in the lower-cased text |
| ContentFilter.KeywordsAreLowerCase | BlazorApp1/BlazorApp1/Components/Services/ContentFilter.cs:16-25 | every listed keyword is already in lower case |
| ContentFilter.NoKeywordWithout | BlazorApp1/BlazorApp1/Components/Services/ContentFilter.cs:14-26 | a text lacking a character of each keyword mentions none |
| ContentFilter.FilterNsfw | BlazorApp1/BlazorApp1/Components/Services/ContentFilter.cs:57-60 | the result holds exactly the unflagged input games, each as often as in the input, in input order, and is no longer than the input |
| ContentFilter.FilterNsfwIdempotent | BlazorApp1/BlazorApp1/Components/Services/ContentFilter.cs:57-60 | filtering a filtered list changes nothing |
| ContentFilter.FilterNsfwKeepsDistinct | BlazorApp1/BlazorApp1/Components/Services/ContentFilter.cs:57-60 | filtering games with distinct identifiers leaves games with distinct identifiers |
| ContentFilter.DarkSoulsIsAllowed | BlazorApp1/BlazorApp1.Tests/BroadUnitTests.cs:40-53 | "Dark Souls" tagged "Difficult" is not flagged |
| ContentFilter.HentaiAdventureIsFlagged | BlazorApp1/BlazorApp1.Tests/BroadUnitTests.cs:40-53 | "Hentai Adventure" tagged "NSFW" is flagged |
| CandidatePool.Pages | BlazorApp1/BlazorApp1/Components/Services/GameRecommendationService.cs:75 | the page range first..last in order, empty when last < first |
| CandidatePool.PagesFrom | BlazorApp1/BlazorApp1/Components/Services/GameRecommendationService.cs:75-83 | no contract of its own; `PagesFromMembers` states which games it holds and `PagesFromSplit` that consecutive ranges join |
| CandidatePool.PagesFromMembers | BlazorApp1/BlazorApp1/Components/Services/GameRecommendationService.cs:75-83 | a game is fetched exactly when one of the pages in the range returns it |
| CandidatePool.PagesFromSplit | BlazorApp1/BlazorApp1/Components/Services/GameRecommendationService.cs:83 | the games of two consecutive page ranges, joined, are the games of the whole range |
| CandidatePool.AlternatingPauses | BlazorApp1/BlazorApp1/Components/Services/GameRecommendationService.cs:87-90 | a schedule where batches and pauses alternate has one pause fewer than batches |
| CandidatePool.ScheduleStep | BlazorApp1/BlazorApp1/Components/Services/GameRecommendationService.cs:70-91 | one loop round (a batch, then a pause unless it reached the last page) keeps the schedule invariant five pages further on |
| CandidatePool.FetchBatch | BlazorApp1/BlazorApp1/Components/Services/GameRecommendationService.cs:73-81 | one batch requests pages batchStart..batchEnd and joins their games in page order |
| CandidatePool.FetchLargeCandidatePool | BlazorApp1/BlazorApp1/Components/Services/GameRecommendationService.cs:60-97 | every page 1..25 is requested exactly once, in order, in batches of five, with pauses only between batches; the pool is the deduplicated concatenation of all pages in page order |
| CandidatePool.FirstIndex | BlazorApp1/BlazorApp1/Components/Services/GameRecommendationService.cs:93 | the first position holding a game with the identifier: that game carries it and no earlier one does |
| CandidatePool.FirstWithId | BlazorApp1/BlazorApp1/Components/Services/GameRecommendationService.cs:93 | the chosen game is in the list and carries the identifier; it is the game at `FirstIndex` |
| CandidatePool.DistinctAfter | BlazorApp1/BlazorApp1/Components/Services/GameRecommendationService.cs:93 | the kept games carry every identifier not yet seen, and no identifier twice |
| CandidatePool.DistinctAfterKeepsFirst | BlazorApp1/BlazorApp1/Components/Services/GameRecommendationService.cs:93 | every kept game is the first input game with its identifier |
| CandidatePool.DistinctAfterInOrder | BlazorApp1/BlazorApp1/Components/Services/GameRecommendationService.cs:93 | the kept games keep their input order |
| CandidatePool.DistinctAfterFirstOrder | BlazorApp1/BlazorApp1/Components/Services/GameRecommendationService.cs:93 | the kept games are listed in order of the first occurrence of their identifiers in the input |
| CandidatePool.DistinctById | BlazorApp1/BlazorApp1/Components/Services/GameRecommendationService.cs:93 | no contract of its own; `DistinctByIdKeepsFirst` states what it returns |
| CandidatePool.DistinctByIdKeepsFirst | BlazorApp1/BlazorApp1/Components/Services/GameRecommendationService.cs:93 | `DistinctBy(Id)` gives distinct identifiers covering all input identifiers, keeps the first game of each, keeps input order, and lists the identifiers in order of their first occurrence |
| Ranking.Insert | BlazorApp1/BlazorApp1/Components/Services/GameRecommendationService.cs:133-135 | inserting adds exactly one element to the multiset |
| Ranking.InsertSorted | BlazorApp1/BlazorApp1/Components/Services/GameRecommendationService.cs:133-135 | inserting into a sorted list keeps it sorted |
| Ranking.SortBy | BlazorApp1/BlazorApp1/Components/Services/GameRecommendationService.cs:133-135 | the sort is a permutation of its input and sorted descending by key |
| Ranking.InsertKeepsTies | BlazorApp1/BlazorApp1/Components/Services/GameRecommendationService.cs:133-135 | insertion keeps the relative order of elements with equal keys |
| Ranking.SortByIsStable | BlazorApp1/BlazorApp1/Components/Services/GameRecommendationService.cs:133-135 | elements with equal keys keep their input order (the ordering is stable) |
| Ranking.Rank | BlazorApp1/BlazorApp1/Components/Services/GameRecommendationService.cs:133-137 | the result has length min(max, input) (zero for max ≤ 0), is sorted, and is a sub-multiset of the input |
| Ranking.RankMembers | BlazorApp1/BlazorApp1/Components/Services/GameRecommendationService.cs:133-137 | every ranked element comes from the input; with room for all, the ranking is a permutation |
| Ranking.RankKeepsBest | BlazorApp1/BlazorApp1/Components/Services/GameRecommendationService.cs:136 | nothing cut off by `Take` ranks strictly ahead of anything kept |
| Ranking.SortedSplit | BlazorApp1/BlazorApp1/Components/Services/GameRecommendationService.cs:136 | in a sorted list nothing after a position ranks strictly ahead of anything before it |
| Ranking.RankSingle | BlazorApp1/BlazorApp1/Components/Services/GameRecommendationService.cs:133-137 | a single element with room for it ranks as itself |
| Ranking.SortByKeepsDistinct | BlazorApp1/BlazorApp1/Components/Services/GameRecommendationService.cs:133-135 | sorting never lists a game twice when the input does not |
| Ranking.RankKeepsDistinct | BlazorApp1/BlazorApp1/Components/Services/GameRecommendationService.cs:133-137 | ranking never lists a game twice when the input does not |
| Scoring.MatchingTags | BlazorApp1/BlazorApp1/Components/Services/GameRecommendationService.cs:108-110 | there are never more matches than candidate tags, and a match implies the source has tags |
| Scoring.MatchingTagsMeaning | BlazorApp1/BlazorApp1/Components/Services/GameRecommendationService.cs:108-110 | a tag matches exactly when the candidate carries it and some source tag has its identifier; each match occurs as often as among the candidate's tags; matches keep the candidate's order |
| Scoring.MatchingAllTags | BlazorApp1/BlazorApp1/Components/Services/GameRecommendationService.cs:108-110 | a candidate whose every tag identifier the source carries matches on all its tags |
| Scoring.FilterCountsSharedIds | BlazorApp1/BlazorApp1/Components/Services/GameRecommendationService.cs:108-110 | over tags without a repeated identifier, the tags whose identifier the source carries are as many as the identifiers the two lists share |
| Scoring.MatchesAtMostSourceTags | BlazorApp1/BlazorApp1/Components/Services/GameRecommendationService.cs:108-110 | when the candidate repeats no tag identifier, the match count is the number of shared identifiers and at most the source's tag count |
| Scoring.Qualifies | BlazorApp1/BlazorApp1/Components/Services/GameRecommendationService.cs:105-112 | no contract of its own; `EvaluatedMembers` states that exactly the qualifying candidates are scored, and `StrictImpliesLegacy` that they all share a tag |
| Scoring.Similarity | BlazorApp1/BlazorApp1/Components/Services/GameRecommendationService.cs:114-118 | similarity is non-negative, zero exactly without matches, at most 1 when matches ≤ source tags, 1 when both games carry exactly the matched tags |
| Scoring.SimilarityGrowsWithMatches | BlazorApp1/BlazorApp1/Components/Services/GameRecommendationService.cs:114-118 | more matching tags never lower the similarity |
| Scoring.RatingBoost | BlazorApp1/BlazorApp1/Components/Services/GameRecommendationService.cs:119 | for ratings 0..5 the boost lies in [0.94, 1.04] |
| Scoring.ScoreGrowsWithRating | BlazorApp1/BlazorApp1/Components/Services/GameRecommendationService.cs:119-120 | at equal positive similarity the better-rated candidate scores strictly higher |
| Scoring.ScoreBounds | BlazorApp1/BlazorApp1/Components/Services/GameRecommendationService.cs:114-120 | with matches ≤ source tags and rating 0..5 the score lies in [0, 1.04] and is positive exactly when some tag matched |
| Scoring.Score | BlazorApp1/BlazorApp1/Components/Services/GameRecommendationService.cs:114-120 | no contract of its own; `ScoreBounds`, `RecommendScoreBounds`, `SimilarityGrowsWithMatches` and `ScoreGrowsWithRating` state its range and monotonicity |
| Scoring.RecommendScoreBounds | BlazorApp1/BlazorApp1/Components/Services/GameRecommendationService.cs:108-128 | for a candidate that repeats no tag identifier and is rated 0..5, the recommended score lies in [0, 1.04] and is positive exactly when some tag matched |
| Scoring.RepeatedTagIdScoresTwo | BlazorApp1/BlazorApp1/Components/Services/GameRecommendationService.cs:108-120 | a candidate listing the source's only tag identifier twice matches twice and scores 2 at rating 3, beyond the bound for distinct identifiers |
| Scoring.MatchReason | BlazorApp1/BlazorApp1/Components/Services/GameRecommendationService.cs:127 | no contract of its own; `ReasonStatesCounts` states the whole reason, "m/n tags match" with both counts in decimal |
| Scoring.Recommend | BlazorApp1/BlazorApp1/Components/Services/GameRecommendationService.cs:122-128 | the record names the candidate and carries its matching tags |
| Scoring.ReasonStatesCounts | BlazorApp1/BlazorApp1/Components/Services/GameRecommendationService.cs:127 | the reason is the match count in decimal, '/', the source's tag count in decimal, then " tags match"; both numbers read back exactly |
| Scoring.Evaluated | BlazorApp1/BlazorApp1/Components/Services/GameRecommendationService.cs:101-129 | there are never more recommendations than candidates |
| Scoring.EvaluatedMembers | BlazorApp1/BlazorApp1/Components/Services/GameRecommendationService.cs:103-112 | recommendations exist exactly for the qualifying candidates (not the source, tagged, enough matches), each built by `Recommend` |
| Scoring.EvaluatedKeepsDistinct | BlazorApp1/BlazorApp1/Components/Services/GameRecommendationService.cs:103-129 | candidates with distinct identifiers give recommendations for distinct games |
| Scoring.EvaluateCandidates | BlazorApp1/BlazorApp1/Components/Services/GameRecommendationService.cs:101-129 | the scoring loop produces exactly the evaluated recommendations in candidate order |
| Scoring.RankedEvaluation | BlazorApp1/BlazorApp1/Components/Services/GameRecommendationService.cs:133-137 | the ranked result holds only qualifying candidates scored by `Recommend`, ordered by match count then score, at most max long |
| Scoring.ProcessRecommendations | BlazorApp1/BlazorApp1/Components/Services/GameRecommendationService.cs:99-138 | the result is the stable ranking of the evaluated candidates, and it is well ranked |
| Scoring.EvaluatesSingle | BlazorApp1/BlazorApp1/Components/Services/GameRecommendationService.cs:105-128 | a single qualifying candidate is evaluated into its recommendation |
| Scoring.SkipsWeak | BlazorApp1/BlazorApp1/Components/Services/GameRecommendationService.cs:112 | a candidate with fewer than four tags adds nothing at a minimum of four |
| Scoring.EvaluatesOnlyStrong | BlazorApp1/BlazorApp1.Tests/BroadUnitTests.cs:82-119 | of a full-match candidate and one with fewer than four tags, only the first is evaluated |
| Scoring.StrongOverWeak | BlazorApp1/BlazorApp1.Tests/BroadUnitTests.cs:82-119 | with room for one result, only the full-match candidate is recommended |
| Scoring.StrongMatchOnly | BlazorApp1/BlazorApp1.Tests/BroadUnitTests.cs:82-119 | the unit scenario: "Strong Match" is the only recommendation |
| RecommendationCache.CacheKey | BlazorApp1/BlazorApp1/Components/Services/GameRecommendationService.cs:22 | the key is "recs_" followed by the decimal identifier |
| RecommendationCache.CacheKeyInjective | BlazorApp1/BlazorApp1/Components/Services/GameRecommendationService.cs:22 | two games share a key exactly when they share an identifier |
| RecommendationCache.Pipeline | BlazorApp1/BlazorApp1/Components/Services/GameRecommendationService.cs:34-50 | no contract of its own; `PipelineGuarantees` states its result is sound, at most max long and built only from fetched games scored by `Recommend` |
| RecommendationCache.PipelineGuarantees | BlazorApp1/BlazorApp1/Components/Services/GameRecommendationService.cs:34-50 | a miss's result has no flagged game, never the source, ≥ 4 matches each, no game twice, is sorted, at most max long, and holds only fetched games scored by `Recommend` |
| RecommendationCache.ValidCacheStore | BlazorApp1/BlazorApp1/Components/Services/GameRecommendationService.cs:55 | storing a sound list under its game's key keeps every entry sound |
| RecommendationCache.MemoryCache.Set | BlazorApp1/BlazorApp1/Components/Services/GameRecommendationService.cs:55 | storing replaces the entry under the key and changes nothing else |
| RecommendationCache.RecommendationService.constructor | BlazorApp1/BlazorApp1/Components/Services/GameRecommendationService.cs:11-15 | a new service keeps the catalog and the memory cache it is given, whatever entries it holds; it is valid when every stored entry is sound |
| RecommendationCache.RecommendationService.GetRecommendations | BlazorApp1/BlazorApp1/Components/Services/GameRecommendationService.cs:17-58 | no game or no tags: empty, no request, cache unchanged; live entry: whatever list is stored, no request, cache unchanged; otherwise all 25 pages requested, the pipeline result returned and stored alone under the key for 24 hours; a sound cache stays sound and then every returned list is sound |
| RecommendationCache.RecommendationService.GetDefaultRecommendations | BlazorApp1/BlazorApp1/Components/Services/GameRecommendationService.cs:17-58 | behaves as `GetRecommendations` with a limit of twelve in all three cases (no game or tags, live entry, miss), with the same soundness promise |
| RecommendationCache.RepeatedRequest | BlazorApp1/BlazorApp1.Tests/CacheTests.cs:28-108 | a second request within 24 hours issues no request and returns the first request's list, whatever its limit |
| RecommendationCache.AnswersFromWarmCache | BlazorApp1/BlazorApp1.Tests/CacheTests.cs:28-57 | a new service over a cache already holding a live entry for the game, whatever that entry holds, returns it, requests nothing and leaves the cache alone |
| RecommendationCache.ServesCachedGame | BlazorApp1/BlazorApp1.Tests/CacheTests.cs:28-57 | the cache test's scenario: a stored one-element list for an untagged "Cached Game" comes back as it is |
| RecommendationCache.SharedCacheAcrossServices | BlazorApp1/BlazorApp1/Program.cs:16 | two services built over one memory cache share results: what the first computes on a miss, the second returns within 24 hours without a request |
| LegacyRecommendations.LegacyScoreBounds | BlazorApp1/BlazorApp1/Components/Models/GameRecommendationService.cs:44-50 | with at least one match and matches ≤ source tags, the Jaccard index lies in (0, 1] and the score in (0, 1.05]; a perfect match scores the rating factor |
| LegacyRecommendations.LegacyScore | BlazorApp1/BlazorApp1/Components/Models/GameRecommendationService.cs:44-50 | no contract of its own; `LegacyScoreBounds` and `LegacyRecommendScoreBounds` state its range |
| LegacyRecommendations.LegacyRecommendScoreBounds | BlazorApp1/BlazorApp1/Components/Models/GameRecommendationService.cs:37-58 | for a kept candidate that repeats no tag identifier and is rated 0..5, the Jaccard index lies in (0, 1], so the recommended score lies in (0, 1.05]; when every candidate tag matches and both games have as many tags, the score is the rating factor |
| LegacyRecommendations.LegacyReason | BlazorApp1/BlazorApp1/Components/Models/GameRecommendationService.cs:57 | no contract of its own; `LegacyReasonStatesCount` states the whole reason, "m matching tags" with the count in decimal |
| LegacyRecommendations.LegacyRecommend | BlazorApp1/BlazorApp1/Components/Models/GameRecommendationService.cs:52-58 | the record names the candidate and carries its matching tags |
| LegacyRecommendations.LegacyReasonStatesCount | BlazorApp1/BlazorApp1/Components/Models/GameRecommendationService.cs:57 | the reason is the match count in decimal followed by " matching tags"; the number reads back exactly |
| LegacyRecommendations.LegacyQualifiesIsMinimumOne | BlazorApp1/BlazorApp1/Components/Models/GameRecommendationService.cs:33-42 | a candidate is kept exactly when the strict scorer would keep it at a minimum of one tag |
| LegacyRecommendations.LegacyQualifies | BlazorApp1/BlazorApp1/Components/Models/GameRecommendationService.cs:33-42 | no contract of its own; `LegacyQualifiesIsMinimumOne` states it is the strict qualification at a minimum of one tag |
| LegacyRecommendations.StrictImpliesLegacy | BlazorApp1/BlazorApp1/Components/Models/GameRecommendationService.cs:41-42 | every candidate the strict scorer accepts is kept by the older scorer |
| LegacyRecommendations.LegacyEvaluated | BlazorApp1/BlazorApp1/Components/Models/GameRecommendationService.cs:28-59 | there are never more recommendations than candidates |
| LegacyRecommendations.LegacyEvaluatedMembers | BlazorApp1/BlazorApp1/Components/Models/GameRecommendationService.cs:30-42 | recommendations exist exactly for the kept candidates, each built by `LegacyRecommend` |
| LegacyRecommendations.LegacyEvaluate | BlazorApp1/BlazorApp1/Components/Models/GameRecommendationService.cs:28-59 | the scoring loop produces exactly the evaluated recommendations in candidate order |
| LegacyRecommendations.GetRecommendations | BlazorApp1/BlazorApp1/Components/Models/GameRecommendationService.cs:14-66 | no game or no tags: empty; otherwise the ranking by score of the evaluated 40 catalog games for the source's tag identifiers |
| LegacyRecommendations.GetDefaultRecommendations | BlazorApp1/BlazorApp1/Components/Models/GameRecommendationService.cs:14 | without a limit, the result is the ranking of `GetRecommendations` cut to ten |
| LegacyRecommendations.LegacyRanked | BlazorApp1/BlazorApp1/Components/Models/GameRecommendationService.cs:62-65 | the result holds at most max recommendations, each for a catalog game other than the source with a match, in non-increasing score order |

## Left out

- The HTTP catalog clients (URL assembly, JSON decoding, swallowed exceptions) are not part of this model. The catalog is an abstract function, and a failed request is an empty page.
- The strict service calls the catalog with a page number (tag identifiers, page size, page). The catalog clients in the repository take only tag identifiers and a page size. The model follows the caller.
- Batches of page requests run concurrently and are joined; the model issues them in page order. Concurrent cache misses racing on one key are not modelled.
- The 200 ms pause between batches is a `Pause` step of the schedule; its duration is not modelled.
- Scores are exact rationals. IEEE double rounding is not modelled, and neither are NaN and infinity. Orderings between scores hold for exact arithmetic.
- Scoring.ProcessRecommendations: requires a positive minimum or a tagged source. With neither, the source computes a 0/0 overlap (NaN), which rationals cannot express. The service always passes a minimum of four.
- Case-insensitive matching folds ASCII letters only. Ordinal ignore-case comparison of other Unicode letters is not modelled.
- Null lists and null names: a null game is `None`. A null tag or genre list is modelled as an empty one, which every scorer treats identically, with one exception. The older scorer dereferences a candidate's tag list without a null check and would throw on a null list; that crash is not modelled. Tag and genre names are never null in the model, and the source dereferences them unchecked.
- The memory cache's size limits, eviction under memory pressure and sliding expiry are not modelled. An entry is live while `now` is before its expiry instant.
- The language check (`IsEnglish`) used by the application's tests is not part of this model; its implementation is not in the content filter.
- Console logging, dependency-injection wiring and the unused game fields (image, release date, platforms) are left out.
- Scoring.EvaluateCandidates: the loop of `ProcessRecommendations` is a method of its own. `ProcessRecommendations` calls it and then ranks the list it returns, as the source does in one method.
- Scoring.Recommend and LegacyRecommendations.LegacyRecommend: their contracts name the game and the matching tags. The score and reason are stated through `RecommendScoreBounds`, `ReasonStatesCounts`, `LegacyRecommendScoreBounds` and `LegacyReasonStatesCount`.
- Scoring.RecommendScoreBounds and LegacyRecommendations.LegacyRecommendScoreBounds: the bounds need a candidate that repeats no tag identifier. Neither scorer checks this. A candidate listing one shared identifier twice counts two matches against one source tag, and its similarity then exceeds one (`Scoring.RepeatedTagIdScoresTwo`).
