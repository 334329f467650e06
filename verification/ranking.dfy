/** Ranking: the stable descending sort behind the source's
    `OrderByDescending(...).ThenByDescending(...)` and the `Take` that
    truncates it. A sort key has two levels compared lexicographically; a
    single-level ordering uses a constant first level. */
module Ranking {
  import opened Entities
  import opened Seqs

  datatype SortKey = SortKey(primary: int, secondary: real)

  type KeyOf = Recommendation -> SortKey

  /** `a` ranks strictly ahead of `b`: larger first level, or equal first
      level and larger second level. */
  predicate Ahead(a: SortKey, b: SortKey) {
    a.primary > b.primary || (a.primary == b.primary && a.secondary > b.secondary)
  }

  /** No element ranks strictly ahead of an element before it. */
  ghost predicate SortedBy(s: seq<Recommendation>, key: KeyOf) {
    forall i, j :: 0 <= i < j < |s| ==> !Ahead(key(s[j]), key(s[i]))
  }

  /** Places `x` after the elements strictly ahead of it and before all others. */
  function Insert(x: Recommendation, s: seq<Recommendation>, key: KeyOf): (r: seq<Recommendation>)
    ensures multiset(r) == multiset(s) + multiset{x}
    ensures |r| == |s| + 1
  {
    if s == [] then [x]
    else if Ahead(key(s[0]), key(x)) then
      assert s == [s[0]] + s[1..];
      [s[0]] + Insert(x, s[1..], key)
    else
      [x] + s
  }

  lemma NotAheadTransitive(a: SortKey, b: SortKey, c: SortKey)
    requires !Ahead(b, a) && !Ahead(c, b)
    ensures !Ahead(c, a)
  {
  }

  lemma {:induction false} InsertSorted(x: Recommendation, s: seq<Recommendation>, key: KeyOf)
    requires SortedBy(s, key)
    ensures SortedBy(Insert(x, s, key), key)
  {
    var r := Insert(x, s, key);
    if s == [] {
    } else if Ahead(key(s[0]), key(x)) {
      var rest := Insert(x, s[1..], key);
      InsertSorted(x, s[1..], key);
      forall j | 0 < j < |r| ensures !Ahead(key(r[j]), key(r[0])) {
        var y := r[j];
        assert y in multiset(rest) by { assert y == rest[j - 1]; }
        if y != x {
          assert y in multiset(s[1..]);
          var m :| 0 <= m < |s[1..]| && s[1..][m] == y;
          assert y == s[m + 1];
        }
      }
    } else {
      forall j | 0 < j < |r| ensures !Ahead(key(r[j]), key(x)) {
        if j > 1 {
          NotAheadTransitive(key(x), key(s[0]), key(s[j - 1]));
        }
      }
    }
  }

  /** The stable sort, descending by key. */
  function SortBy(s: seq<Recommendation>, key: KeyOf): (r: seq<Recommendation>)
    ensures multiset(r) == multiset(s)
    ensures |r| == |s|
    ensures SortedBy(r, key)
  {
    if s == [] then []
    else
      assert s == [s[0]] + s[1..];
      InsertSorted(s[0], SortBy(s[1..], key), key);
      Insert(s[0], SortBy(s[1..], key), key)
  }

  /** Selects the elements whose key is `k`. */
  function HasKey(key: KeyOf, k: SortKey): Recommendation -> bool {
    r => key(r) == k
  }

  lemma {:induction false} InsertKeepsTies(x: Recommendation, s: seq<Recommendation>, key: KeyOf, k: SortKey)
    ensures Filter(Insert(x, s, key), HasKey(key, k)) == Filter([x] + s, HasKey(key, k))
  {
    var p := HasKey(key, k);
    if s != [] && Ahead(key(s[0]), key(x)) {
      var rest := Insert(x, s[1..], key);
      InsertKeepsTies(x, s[1..], key, k);
      assert ([s[0]] + rest)[1..] == rest;
      assert ([x] + s[1..])[1..] == s[1..];
      assert ([x] + s)[1..] == s;
      assert s == [s[0]] + s[1..];
      assert !(p(s[0]) && p(x));
    }
  }

  /** Elements with equal keys keep their input order. */
  lemma {:induction false} SortByIsStable(s: seq<Recommendation>, key: KeyOf, k: SortKey)
    ensures Filter(SortBy(s, key), HasKey(key, k)) == Filter(s, HasKey(key, k))
  {
    if s != [] {
      var sorted := SortBy(s[1..], key);
      InsertKeepsTies(s[0], sorted, key, k);
      SortByIsStable(s[1..], key, k);
      assert ([s[0]] + sorted)[1..] == sorted;
    }
  }

  /** The first `n` elements of the stable sort. */
  function Rank(s: seq<Recommendation>, key: KeyOf, n: int): (r: seq<Recommendation>)
    ensures |r| == if n <= 0 then 0 else if n < |s| then n else |s|
    ensures SortedBy(r, key)
    ensures multiset(r) <= multiset(s)
  {
    var sorted := SortBy(s, key);
    var r := Take(sorted, n);
    assert sorted == r + sorted[|r|..];
    r
  }

  /** Everything ranked comes from the input, and with room for all of it
      the ranking is a permutation of the input. */
  lemma RankMembers(s: seq<Recommendation>, key: KeyOf, n: int)
    ensures forall x :: x in Rank(s, key, n) ==> x in s
    ensures n >= |s| ==> multiset(Rank(s, key, n)) == multiset(s)
  {
    var r := Rank(s, key, n);
    forall x | x in r ensures x in s {
      assert x in multiset(r);
    }
  }

  /** A single recommendation ranks as itself when there is room for it. */
  lemma RankSingle(x: Recommendation, key: KeyOf, n: int)
    requires n >= 1
    ensures Rank([x], key, n) == [x]
  {
    assert [x][1..] == [];
  }

  /** Nothing the truncation leaves out ranks strictly ahead of anything it keeps. */
  lemma RankKeepsBest(s: seq<Recommendation>, key: KeyOf, n: int)
    ensures var r := Rank(s, key, n);
      forall x, y :: x in r && y in multiset(s) - multiset(r) ==> !Ahead(key(y), key(x))
  {
    var sorted := SortBy(s, key);
    var r := Take(sorted, n);
    var rest := sorted[|r|..];
    assert sorted == r + rest;
    SortedSplit(sorted, key, |r|);
    assert multiset(s) - multiset(r) == multiset(rest) by {
      assert multiset(sorted) == multiset(r) + multiset(rest);
    }
  }

  /** In a sorted sequence nothing after position `i` ranks strictly ahead of
      anything before it. */
  lemma SortedSplit(sorted: seq<Recommendation>, key: KeyOf, i: int)
    requires SortedBy(sorted, key) && 0 <= i <= |sorted|
    ensures forall x, y :: x in sorted[..i] && y in multiset(sorted[i..]) ==> !Ahead(key(y), key(x))
  {
    forall x, y | x in sorted[..i] && y in multiset(sorted[i..])
      ensures !Ahead(key(y), key(x))
    {
      var a :| 0 <= a < i && sorted[..i][a] == x;
      assert y in sorted[i..];
      var b :| 0 <= b < |sorted[i..]| && sorted[i..][b] == y;
      assert sorted[a] == x && sorted[i + b] == y;
    }
  }

  /** No two recommendations of the list are for the same game. */
  ghost predicate DistinctGames(s: seq<Recommendation>) {
    forall i, j :: 0 <= i < j < |s| ==> s[i].game.id != s[j].game.id
  }

  lemma DistinctGamesCons(x: Recommendation, s: seq<Recommendation>)
    requires DistinctGames(s) && forall y :: y in s ==> y.game.id != x.game.id
    ensures DistinctGames([x] + s)
  {
    forall i, j | 0 <= i < j < |[x] + s|
      ensures ([x] + s)[i].game.id != ([x] + s)[j].game.id
    {
      assert ([x] + s)[j] == s[j - 1];
      if i > 0 {
        assert ([x] + s)[i] == s[i - 1];
      }
    }
  }

  lemma DistinctGamesSnoc(s: seq<Recommendation>, x: Recommendation)
    requires DistinctGames(s) && forall y :: y in s ==> y.game.id != x.game.id
    ensures DistinctGames(s + [x])
  {
    forall i, j | 0 <= i < j < |s + [x]|
      ensures (s + [x])[i].game.id != (s + [x])[j].game.id
    {
      assert (s + [x])[i] == s[i];
      if j < |s| {
        assert (s + [x])[j] == s[j];
      }
    }
  }

  lemma {:induction false} InsertKeepsDistinct(x: Recommendation, s: seq<Recommendation>, key: KeyOf)
    requires DistinctGames(s) && forall y :: y in s ==> y.game.id != x.game.id
    ensures DistinctGames(Insert(x, s, key))
  {
    if s == [] {
    } else if Ahead(key(s[0]), key(x)) {
      var rest := Insert(x, s[1..], key);
      assert s == [s[0]] + s[1..];
      InsertKeepsDistinct(x, s[1..], key);
      forall y | y in rest
        ensures y.game.id != s[0].game.id
      {
        assert y in multiset(rest);
        if y != x {
          assert y in multiset(s[1..]);
          var m :| 0 <= m < |s[1..]| && s[1..][m] == y;
          assert y == s[m + 1];
        }
      }
      DistinctGamesCons(s[0], rest);
    } else {
      DistinctGamesCons(x, s);
    }
  }

  /** Sorting and truncating never list a game twice when the input does not. */
  lemma {:induction false} SortByKeepsDistinct(s: seq<Recommendation>, key: KeyOf)
    requires DistinctGames(s)
    ensures DistinctGames(SortBy(s, key))
  {
    if s != [] {
      var sorted := SortBy(s[1..], key);
      SortByKeepsDistinct(s[1..], key);
      forall y | y in sorted
        ensures y.game.id != s[0].game.id
      {
        assert y in multiset(s[1..]);
        var m :| 0 <= m < |s[1..]| && s[1..][m] == y;
        assert y == s[m + 1];
      }
      InsertKeepsDistinct(s[0], sorted, key);
    }
  }

  lemma RankKeepsDistinct(s: seq<Recommendation>, key: KeyOf, n: int)
    requires DistinctGames(s)
    ensures DistinctGames(Rank(s, key, n))
  {
    SortByKeepsDistinct(s, key);
  }
}
