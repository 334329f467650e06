/** The content filter: a game is flagged when one of its tags carries a
    listed identifier, or when a listed keyword occurs, ignoring case, in a
    tag name, in the game's name or in a genre name. Filtering keeps the
    unflagged games in their order. */
module ContentFilter {
  import opened Entities
  import opened Seqs
  import opened Text

  /** Tag identifiers that flag a game on their own. */
  const NsfwTagIds: set<int> := {42, 96, 97, 222, 398, 1070}

  /** Keywords that flag a game wherever they occur, ignoring case. */
  const NsfwKeywords: seq<string> :=
    ["nsfw", "hentai", "erotic", "adult only", "sexual content",
     "nudity", "porn", "xxx", "18+", "mature content"]

  /** Some listed keyword occurs in `text`, ignoring case. */
  predicate MentionsKeyword(text: string) {
    exists k :: k in NsfwKeywords && ContainsIgnoreCase(text, k)
  }

  /** A tag flags its game by identifier or by name. */
  predicate TagFlagged(t: Tag) {
    t.id in NsfwTagIds || MentionsKeyword(t.name)
  }

  /** Whether a game, possibly absent, is flagged. */
  predicate IsNsfw(game: Option<Game>) {
    match game
    case None => false
    case Some(g) =>
      (exists t :: t in g.tags && TagFlagged(t))
      || (g.name != "" && MentionsKeyword(g.name))
      || (exists gn :: gn in g.genres && MentionsKeyword(gn.name))
  }

  /** The games `FilterNsfw` keeps. */
  const IsSafe: Game -> bool := g => !IsNsfw(Some(g))

  /** The unflagged games of the list, in their order. */
  function FilterNsfw(games: seq<Game>): (r: seq<Game>)
    ensures forall g :: g in r <==> g in games && !IsNsfw(Some(g))
    ensures forall g :: multiset(r)[g] == if IsNsfw(Some(g)) then 0 else multiset(games)[g]
    ensures IsSubsequence(r, games)
    ensures |r| <= |games|
  {
    FilterKeepsOccurrences(games, IsSafe);
    Filter(games, IsSafe)
  }

  /** A listed keyword occurs in the ASCII lower-cased text: the meaning of
      `MentionsKeyword`, stated with the positional definition of a substring. */
  ghost predicate KeywordOccursIn(text: string) {
    exists k :: k in NsfwKeywords && Occurs(k, Lower(text))
  }

  lemma KeywordsAreLowerCase()
    ensures forall k :: k in NsfwKeywords ==> Lower(k) == k
  {
    forall k | k in NsfwKeywords ensures Lower(k) == k {
      forall i | 0 <= i < |k| ensures LowerChar(k[i]) == k[i] {
        assert !('A' <= k[i] <= 'Z');
      }
    }
  }

  lemma {:induction false} MentionsKeywordMeaning(text: string)
    ensures MentionsKeyword(text) <==> KeywordOccursIn(text)
  {
    KeywordsAreLowerCase();
    forall k | k in NsfwKeywords
      ensures ContainsIgnoreCase(text, k) <==> Occurs(k, Lower(text))
    {
      ContainsIffOccurs(Lower(text), Lower(k));
    }
  }

  /** `IsNsfw` is exactly the disjunction of its three rules: an absent game
      is never flagged; a present one is flagged by a listed tag identifier, a
      keyword in a tag name, a keyword in a non-empty game name, or a keyword in
      a genre name, and by nothing else. */
  lemma {:induction false} IsNsfwMeaning(game: Option<Game>)
    ensures game.None? ==> !IsNsfw(game)
    ensures game.Some? ==>
      (IsNsfw(game) <==>
        (exists t :: t in game.value.tags && (t.id in NsfwTagIds || KeywordOccursIn(t.name)))
        || (game.value.name != "" && KeywordOccursIn(game.value.name))
        || (exists gn :: gn in game.value.genres && KeywordOccursIn(gn.name)))
  {
    if game.Some? {
      var g := game.value;
      forall t | t in g.tags ensures MentionsKeyword(t.name) <==> KeywordOccursIn(t.name) {
        MentionsKeywordMeaning(t.name);
      }
      forall gn | gn in g.genres ensures MentionsKeyword(gn.name) <==> KeywordOccursIn(gn.name) {
        MentionsKeywordMeaning(gn.name);
      }
      MentionsKeywordMeaning(g.name);
    }
  }

  /** Filtering never leaves two games with the same identifier when the
      input has none. */
  lemma {:induction false} FilterNsfwKeepsDistinct(games: seq<Game>)
    requires DistinctIds(games)
    ensures DistinctIds(FilterNsfw(games))
  {
    if games != [] {
      var rest := Filter(games[1..], IsSafe);
      FilterNsfwKeepsDistinct(games[1..]);
      if IsSafe(games[0]) {
        forall g | g in rest ensures g.id != games[0].id {
          var k :| 0 <= k < |games[1..]| && games[1..][k] == g;
          assert g == games[k + 1];
        }
        DistinctIdsCons(games[0], rest);
      }
    }
  }

  /** Filtering an already filtered list changes nothing. */
  lemma FilterNsfwIdempotent(games: seq<Game>)
    ensures FilterNsfw(FilterNsfw(games)) == FilterNsfw(games)
  {
    FilterIdempotent(games, IsSafe);
  }

  /** A text whose lower-cased form misses one character of every keyword
      mentions none of them. */
  lemma NoKeywordWithout(text: string)
    requires 'n' !in Lower(text) && 'h' !in Lower(text) && 'e' !in Lower(text)
    requires 'p' !in Lower(text) && 'x' !in Lower(text) && '1' !in Lower(text)
    requires 'm' !in Lower(text)
    requires 'a' !in Lower(text) || 't' !in Lower(text)
    ensures !MentionsKeyword(text)
  {
    KeywordLacks(text, "nsfw", 0);
    KeywordLacks(text, "hentai", 0);
    KeywordLacks(text, "erotic", 0);
    KeywordLacks(text, "adult only", if 'a' !in Lower(text) then 0 else 4);
    KeywordLacks(text, "sexual content", 2);
    KeywordLacks(text, "nudity", 0);
    KeywordLacks(text, "porn", 0);
    KeywordLacks(text, "xxx", 0);
    KeywordLacks(text, "18+", 0);
    KeywordLacks(text, "mature content", 0);
  }

  lemma KeywordLacks(text: string, k: string, j: nat)
    requires j < |k| && LowerChar(k[j]) !in Lower(text)
    ensures !ContainsIgnoreCase(text, k)
  {
    ContainsOnlyItsChars(Lower(text), Lower(k), j);
  }

  lemma DarkSoulsName()
    ensures !MentionsKeyword("Dark Souls")
  {
    LowerDarkSouls();
    NoKeywordWithout("Dark Souls");
  }

  lemma LowerDarkSouls()
    ensures var low := Lower("Dark Souls");
      'n' !in low && 'h' !in low && 'e' !in low && 'p' !in low &&
      'x' !in low && '1' !in low && 'm' !in low && 't' !in low
  {
    assert Lower("Dark Souls") == "dark souls";
  }

  lemma DifficultTagName()
    ensures !MentionsKeyword("Difficult")
  {
    LowerDifficult();
    NoKeywordWithout("Difficult");
  }

  lemma LowerDifficult()
    ensures var low := Lower("Difficult");
      'n' !in low && 'h' !in low && 'e' !in low && 'p' !in low &&
      'x' !in low && '1' !in low && 'm' !in low && 'a' !in low
  {
    assert Lower("Difficult") == "difficult";
  }

  /** A mature but allowed game is kept: "Dark Souls" tagged "Difficult". */
  lemma DarkSoulsIsAllowed()
    ensures !IsNsfw(Some(Game(0, "Dark Souls", 0.0, [Tag(0, "Difficult")], [])))
  {
    DarkSoulsName();
    DifficultTagName();
    assert !TagFlagged(Tag(0, "Difficult"));
  }

  /** "Hentai Adventure" tagged "NSFW" is flagged (by its tag name). */
  lemma HentaiAdventureIsFlagged()
    ensures IsNsfw(Some(Game(0, "Hentai Adventure", 0.0, [Tag(0, "NSFW")], [])))
  {
    assert Lower("NSFW") == "nsfw";
    assert Lower("nsfw") == "nsfw";
    assert Contains("nsfw", "nsfw");
    assert "nsfw" in NsfwKeywords;
    assert TagFlagged(Tag(0, "NSFW"));
  }
}
