/** The earlier, simpler recommendation service: one catalog request for
    forty games, every candidate sharing at least one tag with the source is
    scored by its Jaccard index weighted by its rating, and the result is
    ordered by score alone. It keeps no cache and applies no content filter. */
module LegacyRecommendations {
  import opened Entities
  import opened Text
  import opened Ranking
  import opened Scoring

  /** Games requested from the catalog in the single request. */
  const CandidateCount := 40
  /** Results returned when the caller names no limit. */
  const DefaultMaxResults := 10

  /** The catalog request of this service: tag identifiers and page size to games. */
  type LegacyCatalog = (seq<int>, int) -> seq<Game>

  /** The Jaccard index of the tag sets scaled by one plus a hundredth of the rating. */
  function LegacyScore(m: nat, s: nat, c: nat, rating: real): real
    requires s > 0 && m <= c
  {
    JaccardIndex(m, s, c) * (1.0 + rating / 100.0)
  }

  /** With at least one match and no more matches than source tags, the
      Jaccard index lies in (0, 1]; with a rating between zero and five the
      score is positive and at most 1.05; a perfect tag match scores exactly
      the rating factor. */
  lemma LegacyScoreBounds(m: nat, s: nat, c: nat, rating: real)
    requires 0 < m <= s && m <= c && 0.0 <= rating <= 5.0
    ensures 0.0 < JaccardIndex(m, s, c) <= 1.0
    ensures 0.0 < LegacyScore(m, s, c, rating) <= 1.05
    ensures m == s == c ==> LegacyScore(m, s, c, rating) == 1.0 + rating / 100.0
  {
    assert 0 < m <= s + c - m;
    QuotientBounds(m as real, (s + c - m) as real);
    var j, f := JaccardIndex(m, s, c), 1.0 + rating / 100.0;
    assert 0.0 < j <= 1.0 && 1.0 <= f <= 1.05;
    assert j * f <= 1.0 * f;
    assert 0.0 < j * f;
  }

  /** The reason shown with a recommendation: "m matching tags". */
  function LegacyReason(m: nat): string {
    NatToString(m) + " matching tags"
  }

  /** The recommendation this service builds for a candidate. */
  function LegacyRecommend(source: Game, cand: Game): (r: Recommendation)
    requires |source.tags| > 0
    ensures r.game == cand && r.matching == MatchingTags(source, cand)
  {
    var matching := MatchingTags(source, cand);
    var m := |matching|;
    Recommendation(cand, LegacyScore(m, |source.tags|, |cand.tags|, cand.rating), matching, LegacyReason(m))
  }

  /** For a kept candidate that repeats no tag identifier and is rated
      between zero and five, the Jaccard index lies in (0, 1], so the score
      is positive and at most 1.05; when every candidate tag matches and
      both games have as many tags, the score is the rating factor. */
  lemma LegacyRecommendScoreBounds(source: Game, cand: Game)
    requires |source.tags| > 0 && LegacyQualifies(source, cand)
    requires DistinctTagIds(cand.tags) && 0.0 <= cand.rating <= 5.0
    ensures 0.0 < JaccardIndex(|LegacyRecommend(source, cand).matching|, |source.tags|, |cand.tags|) <= 1.0
    ensures 0.0 < LegacyRecommend(source, cand).score <= 1.05
    ensures |LegacyRecommend(source, cand).matching| == |cand.tags| == |source.tags| ==>
      LegacyRecommend(source, cand).score == 1.0 + cand.rating / 100.0
  {
    MatchesAtMostSourceTags(source, cand);
    LegacyScoreBounds(|MatchingTags(source, cand)|, |source.tags|, |cand.tags|, cand.rating);
  }

  /** The reason reads "m matching tags", with the number of matching tags
      in decimal, read back exactly. */
  lemma LegacyReasonStatesCount(source: Game, cand: Game)
    requires |source.tags| > 0
    ensures var r := LegacyRecommend(source, cand);
            var a := NatToString(|r.matching|);
            r.reason == a + " matching tags" && ParseDigits(a) == |r.matching|
  {
    ParseNatToString(|MatchingTags(source, cand)|);
  }

  /** A candidate is kept when it is not the source and shares a tag with it. */
  predicate LegacyQualifies(source: Game, cand: Game) {
    cand.id != source.id && |MatchingTags(source, cand)| > 0
  }

  /** Keeping candidates with a shared tag is the strict qualification with
      a minimum of one tag: a candidate with a match has tags. */
  lemma LegacyQualifiesIsMinimumOne(source: Game, cand: Game)
    ensures LegacyQualifies(source, cand) <==> Qualifies(source, cand, 1)
  {
  }

  /** The recommendations for the kept candidates of `cs`, in candidate order. */
  function LegacyEvaluated(source: Game, cs: seq<Game>): (r: seq<Recommendation>)
    requires |source.tags| > 0
    ensures |r| <= |cs|
    decreases |cs|
  {
    if cs == [] then []
    else
      var init, c := cs[..|cs| - 1], cs[|cs| - 1];
      if LegacyQualifies(source, c) then
        LegacyEvaluated(source, init) + [LegacyRecommend(source, c)]
      else
        LegacyEvaluated(source, init)
  }

  /** Exactly the kept candidates are evaluated, each by `LegacyRecommend`. */
  lemma {:induction false} LegacyEvaluatedMembers(source: Game, cs: seq<Game>)
    requires |source.tags| > 0
    ensures forall x :: x in LegacyEvaluated(source, cs) ==>
      x.game in cs && LegacyQualifies(source, x.game) && x == LegacyRecommend(source, x.game)
    ensures forall c :: c in cs && LegacyQualifies(source, c) ==>
      LegacyRecommend(source, c) in LegacyEvaluated(source, cs)
    decreases |cs|
  {
    if cs != [] {
      var init := cs[..|cs| - 1];
      assert cs == init + [cs[|cs| - 1]];
      LegacyEvaluatedMembers(source, init);
    }
  }

  /** Helper for the loop of `LegacyEvaluate`: appending a candidate
      appends its recommendation exactly when it is kept. */
  lemma LegacyEvaluatedSnoc(source: Game, cs: seq<Game>, c: Game)
    requires |source.tags| > 0
    ensures LegacyEvaluated(source, cs + [c]) ==
      LegacyEvaluated(source, cs) + if LegacyQualifies(source, c) then [LegacyRecommend(source, c)] else []
  {
    assert (cs + [c])[..|cs|] == cs;
  }

  /** Ordering by score alone: every key has the same first level. */
  const ScoreKey: KeyOf := (r: Recommendation) => SortKey(0, r.score)

  /** The scoring loop: visits the candidates in order, skips the source and
      those without a shared tag, and records a recommendation for the rest. */
  method LegacyEvaluate(source: Game, candidates: seq<Game>) returns (recs: seq<Recommendation>)
    requires |source.tags| > 0
    ensures recs == LegacyEvaluated(source, candidates)
  {
    recs := [];
    var i := 0;
    while i < |candidates|
      invariant 0 <= i <= |candidates|
      invariant recs == LegacyEvaluated(source, candidates[..i])
    {
      var cand := candidates[i];
      assert candidates[..i + 1] == candidates[..i] + [cand];
      LegacyEvaluatedSnoc(source, candidates[..i], cand);
      i := i + 1;
      if cand.id == source.id {
        continue;
      }
      var matchingTags := MatchingTags(source, cand);
      if |matchingTags| == 0 {
        continue;
      }
      var intersection := |matchingTags|;
      var adjustedScore := LegacyScore(intersection, |source.tags|, |cand.tags|, cand.rating);
      var rec := Recommendation(cand, adjustedScore, matchingTags, LegacyReason(intersection));
      assert rec == LegacyRecommend(source, cand);
      recs := recs + [rec];
    }
    assert candidates[..|candidates|] == candidates;
  }

  /** An absent game or one without tags gets nothing. Otherwise the forty
      catalog games for the source's tag identifiers are scored and the
      `maxResults` best by score are returned, ties in catalog order. */
  method GetRecommendations(catalog: LegacyCatalog, sourceGame: Option<Game>, maxResults: int)
    returns (result: seq<Recommendation>)
    ensures sourceGame.None? || sourceGame.value.tags == [] ==> result == []
    ensures sourceGame.Some? && sourceGame.value.tags != [] ==>
      result == Rank(LegacyEvaluated(sourceGame.value,
                       catalog(TagIdList(sourceGame.value.tags), CandidateCount)), ScoreKey, maxResults)
  {
    if sourceGame.None? || sourceGame.value.tags == [] {
      return [];
    }
    var source := sourceGame.value;
    var sourceTagIds := TagIdList(source.tags);
    var candidateGames := catalog(sourceTagIds, CandidateCount);
    var recs := LegacyEvaluate(source, candidateGames);
    result := Rank(recs, ScoreKey, maxResults);
  }

  /** The call without a limit asks for ten results. */
  method GetDefaultRecommendations(catalog: LegacyCatalog, sourceGame: Option<Game>)
    returns (result: seq<Recommendation>)
    ensures sourceGame.None? || sourceGame.value.tags == [] ==> result == []
    ensures sourceGame.Some? && sourceGame.value.tags != [] ==>
      result == Rank(LegacyEvaluated(sourceGame.value,
                       catalog(TagIdList(sourceGame.value.tags), CandidateCount)), ScoreKey, DefaultMaxResults)
  {
    result := GetRecommendations(catalog, sourceGame, DefaultMaxResults);
  }

  /** The service's result holds at most `maxResults` recommendations, each
      for a catalog game other than the source that shares a tag with it,
      scored by `LegacyRecommend`, in descending order of score. */
  lemma LegacyRanked(source: Game, candidates: seq<Game>, maxResults: int)
    requires |source.tags| > 0
    ensures var result := Rank(LegacyEvaluated(source, candidates), ScoreKey, maxResults);
      (forall r :: r in result ==>
        r.game in candidates && r.game.id != source.id && |r.matching| > 0 &&
        r == LegacyRecommend(source, r.game)) &&
      (forall i, j :: 0 <= i < j < |result| ==> result[i].score >= result[j].score) &&
      (maxResults >= 0 ==> |result| <= maxResults)
  {
    var evaluated := LegacyEvaluated(source, candidates);
    var result := Rank(evaluated, ScoreKey, maxResults);
    LegacyEvaluatedMembers(source, candidates);
    RankMembers(evaluated, ScoreKey, maxResults);
    forall i, j | 0 <= i < j < |result|
      ensures result[i].score >= result[j].score
    {
      assert !Ahead(ScoreKey(result[j]), ScoreKey(result[i]));
    }
  }

  /** Every candidate the strict scorer accepts, with any positive minimum,
      this service accepts too. */
  lemma StrictImpliesLegacy(source: Game, cand: Game, minMatchingTags: int)
    requires minMatchingTags >= 1 && Qualifies(source, cand, minMatchingTags)
    ensures LegacyQualifies(source, cand)
  {
  }
}
