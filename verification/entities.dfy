/** The shared vocabulary of the recommendation engine: catalog games with
    their tags and genres, and the recommendation records the scorers build.

    A null reference held in some fields of the source's classes is
    modelled by the empty value: a null game `Name` is `""`, a null `Tags`
    or `Genres` list is `[]`. Every branch of the core treats the two alike
    except one: the older scorer reads a candidate's `Tags` without a null
    check (Components/Models/GameRecommendationService.cs:37) and fails on a
    null list, where the model sees an empty list and skips the candidate.
    Tag and genre names are taken to be non-null: the content filter reads
    them without a check (Components/Services/ContentFilter.cs:35, 49). A
    possibly-null game is an `Option<Game>`. */
module Entities {

  datatype Option<+T> = None | Some(value: T)

  /** A catalog tag, the unit of similarity comparison. */
  datatype Tag = Tag(id: int, name: string)

  /** A catalog genre; only the content filter looks at it. */
  datatype Genre = Genre(id: int, name: string)

  /** A catalog entry. The rating is the catalog's 0-5 rating, as an exact real. */
  datatype Game = Game(id: int, name: string, rating: real, tags: seq<Tag>, genres: seq<Genre>)

  /** The result record of a scorer: the recommended game, its score, the
      candidate tags that matched the source, and a short human-readable reason. */
  datatype Recommendation = Recommendation(game: Game, score: real, matching: seq<Tag>, reason: string)

  /** The identifiers carried by a list of tags. */
  function TagIds(tags: seq<Tag>): (ids: set<int>)
    ensures forall t :: t in tags ==> t.id in ids
    ensures forall id :: id in ids ==> exists t :: t in tags && t.id == id
  {
    set t | t in tags :: t.id
  }

  /** No two tags of the list share an identifier. */
  ghost predicate DistinctTagIds(tags: seq<Tag>) {
    forall i, j :: 0 <= i < j < |tags| ==> tags[i].id != tags[j].id
  }

  /** The identifiers of a non-empty list: the first tag's and the rest's. */
  lemma TagIdsCons(tags: seq<Tag>)
    requires tags != []
    ensures TagIds(tags) == {tags[0].id} + TagIds(tags[1..])
  {
    assert tags == [tags[0]] + tags[1..];
  }

  /** Past the first tag of a list without repeated identifiers, the rest
      has none either, and none of them is the first tag's. */
  lemma DistinctTagIdsTail(tags: seq<Tag>)
    requires tags != [] && DistinctTagIds(tags)
    ensures DistinctTagIds(tags[1..]) && tags[0].id !in TagIds(tags[1..])
  {
    var rest := tags[1..];
    forall i, j | 0 <= i < j < |rest| ensures rest[i].id != rest[j].id {
      assert rest[i] == tags[i + 1] && rest[j] == tags[j + 1];
    }
    forall t | t in rest ensures t.id != tags[0].id {
      var k :| 0 <= k < |rest| && rest[k] == t;
      assert tags[k + 1] == t;
    }
  }

  /** A list of tags carries no more identifiers than it has tags, and
      exactly as many when no two of them share one. */
  lemma {:induction false} TagIdsCount(tags: seq<Tag>)
    ensures |TagIds(tags)| <= |tags|
    ensures DistinctTagIds(tags) ==> |TagIds(tags)| == |tags|
  {
    if tags != [] {
      TagIdsCount(tags[1..]);
      TagIdsCons(tags);
      if DistinctTagIds(tags) {
        DistinctTagIdsTail(tags);
      }
    }
  }

  /** The identifiers of a list of tags, in order (the source's `Select(t => t.Id)`). */
  function TagIdList(tags: seq<Tag>): (ids: seq<int>)
    ensures |ids| == |tags|
    ensures forall i :: 0 <= i < |tags| ==> ids[i] == tags[i].id
  {
    seq(|tags|, i requires 0 <= i < |tags| => tags[i].id)
  }

  /** The identifiers carried by a list of games. */
  function GameIds(games: seq<Game>): (ids: set<int>)
    ensures forall g :: g in games ==> g.id in ids
    ensures forall id :: id in ids ==> exists g :: g in games && g.id == id
  {
    set g | g in games :: g.id
  }

  lemma GameIdsCons(g: Game, rest: seq<Game>)
    ensures GameIds([g] + rest) == {g.id} + GameIds(rest)
  {
    var l, r := GameIds([g] + rest), {g.id} + GameIds(rest);
    forall id | id in l ensures id in r {
      var h :| h in [g] + rest && h.id == id;
    }
    forall id | id in r ensures id in l {
      if id != g.id {
        var h :| h in rest && h.id == id;
        assert h in [g] + rest;
      }
    }
  }

  /** No two games of the list share an identifier. */
  ghost predicate DistinctIds(games: seq<Game>) {
    forall i, j :: 0 <= i < j < |games| ==> games[i].id != games[j].id
  }

  lemma DistinctIdsCons(g: Game, rest: seq<Game>)
    requires DistinctIds(rest) && g.id !in GameIds(rest)
    ensures DistinctIds([g] + rest)
  {
    forall i, j | 0 <= i < j < |[g] + rest|
      ensures ([g] + rest)[i].id != ([g] + rest)[j].id
    {
      if i > 0 {
        assert ([g] + rest)[i] == rest[i - 1];
      }
      assert ([g] + rest)[j] == rest[j - 1];
    }
  }
}
