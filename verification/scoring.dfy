/** The strict scorer: which candidates qualify against a source game, the
    score each qualifying candidate earns, and the ordering of the result
    (more matching tags first, then higher score, ties in candidate order). */
module Scoring {
  import opened Entities
  import opened Seqs
  import opened Text
  import opened Ranking

  /** Holds of a tag whose identifier some tag of `sourceTags` carries. */
  function SharesIdWith(sourceTags: seq<Tag>): Tag -> bool {
    (t: Tag) => t.id in TagIds(sourceTags)
  }

  /** The candidate's tags whose identifier also occurs among the source's
      tags, in the candidate's order; names play no part. */
  function MatchingTags(source: Game, cand: Game): (r: seq<Tag>)
    ensures |r| <= |cand.tags|
    ensures |r| > 0 ==> |source.tags| > 0
  {
    var r := Filter(cand.tags, SharesIdWith(source.tags));
    assert |r| > 0 ==> r[0] in r;
    r
  }

  /** A tag matches exactly when the candidate carries it and some source
      tag has its identifier; each match occurs as often as in the
      candidate's tags, and the matches keep the candidate's order. */
  lemma MatchingTagsMeaning(source: Game, cand: Game)
    ensures forall t :: t in MatchingTags(source, cand) <==>
      t in cand.tags && exists st :: st in source.tags && st.id == t.id
    ensures IsSubsequence(MatchingTags(source, cand), cand.tags)
    ensures forall t :: (multiset(MatchingTags(source, cand))[t] ==
      if t.id in TagIds(source.tags) then multiset(cand.tags)[t] else 0)
  {
    FilterKeepsOccurrences(cand.tags, SharesIdWith(source.tags));
  }

  /** A candidate whose every tag identifier the source carries matches on
      all of its tags. */
  lemma MatchingAllTags(source: Game, cand: Game)
    requires forall t :: t in cand.tags ==> exists st :: st in source.tags && st.id == t.id
    ensures MatchingTags(source, cand) == cand.tags
  {
    FilterAll(cand.tags, SharesIdWith(source.tags));
  }

  /** Adding a fresh element to `a` adds one to its intersection with `b`
      exactly when `b` holds it. */
  lemma InsertIntersection<T>(x: T, a: set<T>, b: set<T>)
    requires x !in a
    ensures |({x} + a) * b| == if x in b then |a * b| + 1 else |a * b|
  {
    if x in b {
      assert ({x} + a) * b == {x} + a * b;
    } else {
      assert ({x} + a) * b == a * b;
    }
  }

  /** A subset is no larger than the set holding it. */
  lemma {:induction false} SubsetNoLarger<T>(a: set<T>, b: set<T>)
    requires a <= b
    ensures |a| <= |b|
  {
    if a != {} {
      var x :| x in a;
      SubsetNoLarger(a - {x}, b - {x});
    }
  }

  /** Over tags without repeated identifiers, the tags whose identifier
      `sourceTags` carries are as many as the identifiers the two lists
      share. */
  lemma {:induction false} FilterCountsSharedIds(tags: seq<Tag>, sourceTags: seq<Tag>)
    requires DistinctTagIds(tags)
    ensures |Filter(tags, SharesIdWith(sourceTags))| == |TagIds(tags) * TagIds(sourceTags)|
  {
    if tags != [] {
      var rest, ids, p := tags[1..], TagIds(sourceTags), SharesIdWith(sourceTags);
      DistinctTagIdsTail(tags);
      FilterCountsSharedIds(rest, sourceTags);
      TagIdsCons(tags);
      InsertIntersection(tags[0].id, TagIds(rest), ids);
      assert |Filter(tags, p)| == |Filter(rest, p)| + if tags[0].id in ids then 1 else 0;
    }
  }

  /** When the candidate repeats no tag identifier, its matching tags are as
      many as the identifiers it shares with the source, hence no more than
      the source's tags. */
  lemma MatchesAtMostSourceTags(source: Game, cand: Game)
    requires DistinctTagIds(cand.tags)
    ensures |MatchingTags(source, cand)| == |TagIds(cand.tags) * TagIds(source.tags)|
    ensures |MatchingTags(source, cand)| <= |source.tags|
  {
    FilterCountsSharedIds(cand.tags, source.tags);
    TagIdsCount(source.tags);
    SubsetNoLarger(TagIds(cand.tags) * TagIds(source.tags), TagIds(source.tags));
  }

  /** A candidate is scored when it is not the source itself, has tags, and
      shares at least `minMatchingTags` of them with the source. */
  predicate Qualifies(source: Game, cand: Game, minMatchingTags: int) {
    cand.id != source.id && |cand.tags| > 0 && |MatchingTags(source, cand)| >= minMatchingTags
  }

  /** The share of the source's tags that matched. */
  function Overlap(m: nat, s: nat): real
    requires s > 0
  {
    m as real / s as real
  }

  /** The Jaccard index of `m` matches between `s` source tags and `c`
      candidate tags: intersection over union. */
  function JaccardIndex(m: nat, s: nat, c: nat): real
    requires s > 0 && m <= c
  {
    m as real / (s + c - m) as real
  }

  lemma QuotientBounds(x: real, y: real)
    requires 0.0 <= x && y > 0.0
    ensures 0.0 <= x / y
    ensures x <= y ==> x / y <= 1.0
    ensures x / y == 0.0 <==> x == 0.0
    ensures x == y ==> x / y == 1.0
  {
  }

  /** Similarity: 60% overlap and 40% Jaccard index. It is zero exactly
      without matches, at most one when no more tags matched than the source
      has, and one when both games carry exactly the matched tags. */
  function Similarity(m: nat, s: nat, c: nat): (sim: real)
    requires s > 0 && m <= c
    ensures 0.0 <= sim
    ensures sim == 0.0 <==> m == 0
    ensures m <= s ==> sim <= 1.0
    ensures m == s == c ==> sim == 1.0
  {
    QuotientBounds(m as real, s as real);
    QuotientBounds(m as real, (s + c - m) as real);
    Overlap(m, s) * 0.6 + JaccardIndex(m, s, c) * 0.4
  }

  lemma QuotientGrows(x1: real, x2: real, y1: real, y2: real)
    requires 0.0 <= x1 <= x2 && 0.0 < y2 <= y1
    ensures x1 / y1 <= x2 / y2
  {
    assert x1 / y1 <= x2 / y1;
    assert x2 / y1 <= x2 / y2 by {
      assert x2 / y1 * y1 == x2 == x2 / y2 * y2;
    }
  }

  /** One more matching tag never lowers the similarity. */
  lemma SimilarityGrowsWithMatches(m1: nat, m2: nat, s: nat, c: nat)
    requires s > 0 && m1 <= m2 <= c
    ensures Similarity(m1, s, c) <= Similarity(m2, s, c)
  {
    QuotientGrows(m1 as real, m2 as real, s as real, s as real);
    QuotientGrows(m1 as real, m2 as real, (s + c - m1) as real, (s + c - m2) as real);
  }

  /** The rating boost: one at a rating of 3, two hundredths per rating point
      above or below. */
  function RatingBoost(rating: real): (boost: real)
    ensures 0.0 <= rating <= 5.0 ==> 0.94 <= boost <= 1.04
  {
    1.0 + (rating - 3.0) / 50.0
  }

  /** Among candidates of equal similarity, the better rated one scores higher. */
  lemma ScoreGrowsWithRating(sim: real, r1: real, r2: real)
    requires sim > 0.0 && r1 < r2
    ensures sim * RatingBoost(r1) < sim * RatingBoost(r2)
  {
  }

  /** The final score: the similarity scaled by the rating boost. */
  function Score(m: nat, s: nat, c: nat, rating: real): real
    requires s > 0 && m <= c
  {
    Similarity(m, s, c) * RatingBoost(rating)
  }

  /** With no more matches than source tags and a rating between zero and
      five, the score lies between zero and 1.04 and is positive exactly when
      some tag matched. */
  lemma ScoreBounds(m: nat, s: nat, c: nat, rating: real)
    requires s > 0 && m <= c && m <= s && 0.0 <= rating <= 5.0
    ensures 0.0 <= Score(m, s, c, rating) <= 1.04
    ensures Score(m, s, c, rating) > 0.0 <==> m > 0
  {
    var sim, boost := Similarity(m, s, c), RatingBoost(rating);
    assert 0.0 <= sim <= 1.0 && 0.94 <= boost <= 1.04;
    assert Score(m, s, c, rating) == sim * boost;
    assert sim * boost <= 1.0 * boost;
    assert m > 0 ==> sim > 0.0 && sim * boost > 0.0;
    assert m == 0 ==> sim == 0.0 && sim * boost == 0.0;
  }

  /** The reason shown with a recommendation: "m/s tags match". */
  function MatchReason(m: nat, s: nat): string {
    NatToString(m) + "/" + NatToString(s) + " tags match"
  }

  /** The recommendation the strict scorer builds for a candidate. */
  function Recommend(source: Game, cand: Game): (r: Recommendation)
    requires |source.tags| > 0
    ensures r.game == cand && r.matching == MatchingTags(source, cand)
  {
    var matching := MatchingTags(source, cand);
    var m, s := |matching|, |source.tags|;
    Recommendation(cand, Score(m, s, |cand.tags|, cand.rating), matching, MatchReason(m, s))
  }

  /** For a candidate that repeats no tag identifier and is rated between
      zero and five, the score lies between zero and 1.04 and is positive
      exactly when some tag matched. */
  lemma RecommendScoreBounds(source: Game, cand: Game)
    requires |source.tags| > 0 && DistinctTagIds(cand.tags) && 0.0 <= cand.rating <= 5.0
    ensures 0.0 <= Recommend(source, cand).score <= 1.04
    ensures Recommend(source, cand).score > 0.0 <==> |Recommend(source, cand).matching| > 0
  {
    MatchesAtMostSourceTags(source, cand);
    ScoreBounds(|MatchingTags(source, cand)|, |source.tags|, |cand.tags|, cand.rating);
  }

  /** Without distinct tag identifiers the bound fails: a candidate listing
      the source's only tag identifier twice counts two matches against one
      source tag and scores 2 at a rating of 3. */
  lemma RepeatedTagIdScoresTwo()
    ensures var source := Game(1, "Source", 3.0, [Tag(7, "a")], []);
            var cand := Game(2, "Candidate", 3.0, [Tag(7, "a"), Tag(7, "b")], []);
            |MatchingTags(source, cand)| == 2 && Recommend(source, cand).score == 2.0
  {
    var source := Game(1, "Source", 3.0, [Tag(7, "a")], []);
    var cand := Game(2, "Candidate", 3.0, [Tag(7, "a"), Tag(7, "b")], []);
    MatchingAllTags(source, cand);
  }

  /** The reason reads "m/n tags match": the number of matching tags and
      the number of source tags, in decimal, each read back exactly. */
  lemma ReasonStatesCounts(source: Game, cand: Game)
    requires |source.tags| > 0
    ensures var r := Recommend(source, cand);
            var a, b := NatToString(|r.matching|), NatToString(|source.tags|);
            r.reason == a + "/" + b + " tags match" &&
            ParseDigits(a) == |r.matching| && ParseDigits(b) == |source.tags|
  {
    ParseNatToString(|MatchingTags(source, cand)|);
    ParseNatToString(|source.tags|);
  }

  /** The recommendations for the qualifying candidates of `cs`, in
      candidate order. */
  function Evaluated(source: Game, cs: seq<Game>, minMatchingTags: int): (r: seq<Recommendation>)
    requires minMatchingTags > 0 || |source.tags| > 0
    ensures |r| <= |cs|
    decreases |cs|
  {
    if cs == [] then []
    else
      var init, c := cs[..|cs| - 1], cs[|cs| - 1];
      assert cs == init + [c];
      if Qualifies(source, c, minMatchingTags) then
        Evaluated(source, init, minMatchingTags) + [Recommend(source, c)]
      else
        Evaluated(source, init, minMatchingTags)
  }

  /** Exactly the qualifying candidates are evaluated, each by `Recommend`. */
  lemma {:induction false} EvaluatedMembers(source: Game, cs: seq<Game>, minMatchingTags: int)
    requires minMatchingTags > 0 || |source.tags| > 0
    ensures forall x :: x in Evaluated(source, cs, minMatchingTags) ==>
      x.game in cs && Qualifies(source, x.game, minMatchingTags) && |source.tags| > 0 && x == Recommend(source, x.game)
    ensures forall c :: c in cs && Qualifies(source, c, minMatchingTags) ==>
      |source.tags| > 0 && Recommend(source, c) in Evaluated(source, cs, minMatchingTags)
    decreases |cs|
  {
    if cs != [] {
      var init := cs[..|cs| - 1];
      assert cs == init + [cs[|cs| - 1]];
      EvaluatedMembers(source, init, minMatchingTags);
    }
  }

  /** Candidates with pairwise distinct identifiers give recommendations
      for pairwise distinct games. */
  lemma {:induction false} EvaluatedKeepsDistinct(source: Game, cs: seq<Game>, minMatchingTags: int)
    requires minMatchingTags > 0 || |source.tags| > 0
    requires DistinctIds(cs)
    ensures DistinctGames(Evaluated(source, cs, minMatchingTags))
    decreases |cs|
  {
    if cs != [] {
      var init, c := cs[..|cs| - 1], cs[|cs| - 1];
      assert cs == init + [c];
      EvaluatedKeepsDistinct(source, init, minMatchingTags);
      if Qualifies(source, c, minMatchingTags) {
        EvaluatedMembers(source, init, minMatchingTags);
        forall y | y in Evaluated(source, init, minMatchingTags)
          ensures y.game.id != c.id
        {
          var k :| 0 <= k < |init| && init[k] == y.game;
          assert cs[k] == y.game;
        }
        DistinctGamesSnoc(Evaluated(source, init, minMatchingTags), Recommend(source, c));
      }
    }
  }

  /** Helper for the scoring loop and the proofs over candidates: appending
      a candidate appends its recommendation exactly when it qualifies. */
  lemma EvaluatedSnoc(source: Game, cs: seq<Game>, c: Game, minMatchingTags: int)
    requires minMatchingTags > 0 || |source.tags| > 0
    ensures Evaluated(source, cs + [c], minMatchingTags) ==
      Evaluated(source, cs, minMatchingTags) + if Qualifies(source, c, minMatchingTags) then [Recommend(source, c)] else []
  {
    assert (cs + [c])[..|cs|] == cs;
  }

  /** Most matching tags first, then highest score. */
  const RankKey: KeyOf := (r: Recommendation) => SortKey(|r.matching|, r.score)

  /** `result` holds at most `max` recommendations, each of a qualifying
      candidate and built by `Recommend`, ordered by matching-tag count and
      then by score. */
  ghost predicate WellRanked(source: Game, candidates: seq<Game>, max: int, minMatchingTags: int, result: seq<Recommendation>)
    requires minMatchingTags > 0 || |source.tags| > 0
  {
    (forall r :: r in result ==>
      r.game in candidates && Qualifies(source, r.game, minMatchingTags) && r == Recommend(source, r.game)) &&
    (forall i, j :: 0 <= i < j < |result| ==>
      |result[i].matching| > |result[j].matching| ||
      (|result[i].matching| == |result[j].matching| && result[i].score >= result[j].score)) &&
    (max >= 0 ==> |result| <= max)
  }

  lemma RankedEvaluation(source: Game, candidates: seq<Game>, max: int, minMatchingTags: int)
    requires minMatchingTags > 0 || |source.tags| > 0
    ensures WellRanked(source, candidates, max, minMatchingTags,
                       Rank(Evaluated(source, candidates, minMatchingTags), RankKey, max))
  {
    var result := Rank(Evaluated(source, candidates, minMatchingTags), RankKey, max);
    EvaluatedMembers(source, candidates, minMatchingTags);
    RankMembers(Evaluated(source, candidates, minMatchingTags), RankKey, max);
    forall i, j | 0 <= i < j < |result|
      ensures !Ahead(RankKey(result[j]), RankKey(result[i]))
    {
    }
  }

  /** The scoring loop: visits the candidates in order, skips the source
      itself, tagless candidates and those with too few matching tags, and
      records a recommendation for every other one. */
  method EvaluateCandidates(source: Game, candidates: seq<Game>, minMatchingTags: int)
    returns (recs: seq<Recommendation>)
    requires minMatchingTags > 0 || |source.tags| > 0
    ensures recs == Evaluated(source, candidates, minMatchingTags)
  {
    recs := [];
    var i := 0;
    while i < |candidates|
      invariant 0 <= i <= |candidates|
      invariant recs == Evaluated(source, candidates[..i], minMatchingTags)
    {
      var cand := candidates[i];
      assert candidates[..i + 1] == candidates[..i] + [cand];
      EvaluatedSnoc(source, candidates[..i], cand, minMatchingTags);
      i := i + 1;
      if cand.id == source.id {
        continue;
      }
      if |cand.tags| == 0 {
        continue;
      }
      var matchingTags := MatchingTags(source, cand);
      if |matchingTags| < minMatchingTags {
        continue;
      }
      var intersection := |matchingTags|;
      var finalScore := Score(intersection, |source.tags|, |cand.tags|, cand.rating);
      var reason := MatchReason(intersection, |source.tags|);
      var rec := Recommendation(cand, finalScore, matchingTags, reason);
      assert rec == Recommend(source, cand);
      recs := recs + [rec];
    }
    assert candidates[..|candidates|] == candidates;
  }

  /** Scores the candidates against `source` and returns the best `max` of
      them: more matching tags first, then higher score, ties in candidate
      order. */
  method ProcessRecommendations(source: Game, candidates: seq<Game>, max: int, minMatchingTags: int)
    returns (result: seq<Recommendation>)
    requires minMatchingTags > 0 || |source.tags| > 0
    ensures result == Rank(Evaluated(source, candidates, minMatchingTags), RankKey, max)
    ensures WellRanked(source, candidates, max, minMatchingTags, result)
  {
    var recs := EvaluateCandidates(source, candidates, minMatchingTags);
    result := Rank(recs, RankKey, max);
    RankedEvaluation(source, candidates, max, minMatchingTags);
  }

  lemma EvaluatesOnlyStrong(source: Game, strong: Game, weak: Game)
    requires strong.id != source.id && strong.tags == source.tags && |source.tags| >= 4
    requires |weak.tags| < 4
    ensures Evaluated(source, [strong, weak], 4) == [Recommend(source, strong)]
  {
    MatchingAllTags(source, strong);
    EvaluatesSingle(source, strong);
    SkipsWeak(source, strong, weak);
  }

  /** A single qualifying candidate is evaluated into its recommendation. */
  lemma EvaluatesSingle(source: Game, cand: Game)
    requires Qualifies(source, cand, 4)
    ensures Evaluated(source, [cand], 4) == [Recommend(source, cand)]
  {
    EvaluatedSnoc(source, [], cand, 4);
    assert [] + [cand] == [cand];
  }

  /** A candidate with fewer tags than the threshold adds nothing. */
  lemma SkipsWeak(source: Game, first: Game, weak: Game)
    requires |weak.tags| < 4 && |source.tags| > 0
    ensures Evaluated(source, [first, weak], 4) == Evaluated(source, [first], 4)
  {
    EvaluatedSnoc(source, [first], weak, 4);
    assert [first] + [weak] == [first, weak];
  }

  /** A candidate carrying exactly the source's (at least four) tags and one
      with fewer than four tags: with four matches required and room for
      at least one result, only the first is recommended. */
  lemma StrongOverWeak(source: Game, strong: Game, weak: Game, max: int)
    requires strong.id != source.id && strong.tags == source.tags && |source.tags| >= 4
    requires |weak.tags| < 4 && max >= 1
    ensures Rank(Evaluated(source, [strong, weak], 4), RankKey, max) == [Recommend(source, strong)]
  {
    EvaluatesOnlyStrong(source, strong, weak);
    RankSingle(Recommend(source, strong), RankKey, max);
  }

  /** The four-tag source of the unit scenario: "Strong Match" shares all
      four tags, "Weak Match" only "RPG"; five results are allowed and four
      matches required. */
  lemma StrongMatchOnly()
    ensures var source := Game(1, "Source", 0.0,
        [Tag(10, "RPG"), Tag(11, "Fantasy"), Tag(12, "Difficult"), Tag(13, "Atmospheric")], []);
      var strong := Game(2, "Strong Match", 0.0, source.tags, []);
      var weak := Game(3, "Weak Match", 0.0, [Tag(10, "RPG")], []);
      Rank(Evaluated(source, [strong, weak], 4), RankKey, 5) == [Recommend(source, strong)]
  {
    var source := Game(1, "Source", 0.0,
      [Tag(10, "RPG"), Tag(11, "Fantasy"), Tag(12, "Difficult"), Tag(13, "Atmospheric")], []);
    StrongOverWeak(source, Game(2, "Strong Match", 0.0, source.tags, []), Game(3, "Weak Match", 0.0, [Tag(10, "RPG")], []), 5);
  }
}
