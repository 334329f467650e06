/** Candidate-pool acquisition: pages 1 to `TotalPages` of the catalog's games
    for the source's tag identifiers, requested in batches of `BatchSize`
    consecutive pages with a pause between two batches, concatenated in page
    order and then deduplicated by identifier, the first occurrence winning.

    The requests of one batch run concurrently in the source and are joined
    before the next batch starts; the model issues them one after the other
    in page order, the order in which their results are concatenated. */
module CandidatePool {
  import opened Entities
  import opened Seqs

  const TotalPages := 25
  const PageSize := 40
  const BatchSize := 5

  /** The catalog client: the games of one page for a tag filter, a page size
      and a page number. A failed request yields the empty page. */
  type Catalog = (seq<int>, int, int) -> seq<Game>

  /** One step of the fetch schedule: a batch of page requests, or the pause
      between two batches. */
  datatype Step = Batch(pages: seq<int>) | Pause

  /** The page numbers `first` to `last`, in order. */
  function Pages(first: int, last: int): (r: seq<int>)
    ensures |r| == if last < first then 0 else last - first + 1
    ensures forall i :: 0 <= i < |r| ==> r[i] == first + i
  {
    if last < first then [] else seq(last - first + 1, i => first + i)
  }

  lemma PagesSplit(first: int, mid: int, last: int)
    requires first <= mid <= last + 1
    ensures Pages(first, mid - 1) + Pages(mid, last) == Pages(first, last)
  {
  }

  /** The games of pages `first` to `last`, concatenated in page order. */
  function PagesFrom(catalog: Catalog, tagIds: seq<int>, first: int, last: int): seq<Game>
    decreases last - first
  {
    if last < first then [] else PagesFrom(catalog, tagIds, first, last - 1) + catalog(tagIds, PageSize, last)
  }

  /** A game is among the fetched ones exactly when one of the pages
      `first` to `last` returns it. */
  lemma {:induction false} PagesFromMembers(catalog: Catalog, tagIds: seq<int>, first: int, last: int)
    ensures forall g :: g in PagesFrom(catalog, tagIds, first, last) <==>
      exists p :: first <= p <= last && g in catalog(tagIds, PageSize, p)
    decreases last - first
  {
    if last >= first {
      PagesFromMembers(catalog, tagIds, first, last - 1);
    }
  }

  lemma {:induction false} PagesFromSplit(catalog: Catalog, tagIds: seq<int>, first: int, mid: int, last: int)
    requires first <= mid <= last + 1
    ensures PagesFrom(catalog, tagIds, first, mid - 1) + PagesFrom(catalog, tagIds, mid, last)
         == PagesFrom(catalog, tagIds, first, last)
    decreases last - mid
  {
    if last >= mid {
      PagesFromSplit(catalog, tagIds, first, mid, last - 1);
    }
  }

  /** The page numbers the batches of a schedule request, in order. */
  function RequestedPages(log: seq<Step>): seq<int> {
    if log == [] then []
    else
      var last := log[|log| - 1];
      RequestedPages(log[..|log| - 1]) + (if last.Batch? then last.pages else [])
  }

  lemma RequestedPagesSnoc(log: seq<Step>, step: Step)
    ensures RequestedPages(log + [step]) == RequestedPages(log) + if step.Batch? then step.pages else []
  {
    assert (log + [step])[..|log|] == log;
  }

  /** Batches and pauses alternate, starting and ending with a batch: a pause
      separates two consecutive batches and none follows the last. */
  ghost predicate Alternating(log: seq<Step>)
    decreases |log|
  {
    |log| > 0 && log[0].Batch? &&
    (|log| == 1 || (|log| > 2 && log[1].Pause? && Alternating(log[2..])))
  }

  /** A pause followed by a batch extends an alternating schedule. */
  lemma {:induction false} AlternatingExtended(log: seq<Step>, pages: seq<int>)
    requires Alternating(log)
    ensures Alternating(log + [Pause, Batch(pages)])
    decreases |log|
  {
    var ext := log + [Pause, Batch(pages)];
    if |log| == 1 {
      assert ext[2..] == [Batch(pages)];
    } else {
      AlternatingExtended(log[2..], pages);
      assert ext[2..] == log[2..] + [Pause, Batch(pages)];
    }
  }

  /** The schedule so far ends just after a pause: it is empty, or an
      alternating schedule followed by a pause. */
  ghost predicate AwaitingBatch(log: seq<Step>) {
    log == [] || (log[|log| - 1] == Pause && Alternating(log[..|log| - 1]))
  }

  /** Appending a batch to a schedule awaiting one makes it alternating;
      appending a pause after that makes it await the next batch. */
  lemma BatchAppended(log: seq<Step>, pages: seq<int>)
    requires AwaitingBatch(log)
    ensures Alternating(log + [Batch(pages)])
    ensures AwaitingBatch(log + [Batch(pages)] + [Pause])
  {
    if log != [] {
      AlternatingExtended(log[..|log| - 1], pages);
      assert log[..|log| - 1] + [Pause, Batch(pages)] == log + [Batch(pages)];
    }
    assert (log + [Batch(pages)] + [Pause])[..|log| + 1] == log + [Batch(pages)];
  }

  function CountBatches(log: seq<Step>): nat {
    if log == [] then 0 else CountBatches(log[1..]) + (if log[0].Batch? then 1 else 0)
  }

  function CountPauses(log: seq<Step>): nat {
    if log == [] then 0 else CountPauses(log[1..]) + (if log[0].Pause? then 1 else 0)
  }

  /** In an alternating schedule there is one pause fewer than there are batches. */
  lemma {:induction false} AlternatingPauses(log: seq<Step>)
    requires Alternating(log)
    ensures CountPauses(log) + 1 == CountBatches(log)
    decreases |log|
  {
    if |log| > 1 {
      AlternatingPauses(log[2..]);
      assert log[1..][1..] == log[2..];
    }
  }

  /** Requests pages `batchStart` to `batchEnd` of one batch and joins
      their games in page order. */
  method FetchBatch(catalog: Catalog, tagIds: seq<int>, batchStart: int, batchEnd: int)
    returns (pages: seq<int>, batchGames: seq<Game>)
    requires batchStart <= batchEnd + 1
    ensures pages == Pages(batchStart, batchEnd)
    ensures batchGames == PagesFrom(catalog, tagIds, batchStart, batchEnd)
  {
    pages, batchGames := [], [];
    var page := batchStart;
    while page <= batchEnd
      invariant batchStart <= page <= batchEnd + 1
      invariant pages == Pages(batchStart, page - 1)
      invariant batchGames == PagesFrom(catalog, tagIds, batchStart, page - 1)
    {
      pages := pages + [page];
      batchGames := batchGames + catalog(tagIds, PageSize, page);
      page := page + 1;
    }
  }

  /** `log` is the schedule of the batches before page `next`: it requests
      pages 1 to `next - 1` in batches of `BatchSize` pages, and awaits the
      next batch if pages remain, or is complete and alternating otherwise. */
  ghost predicate ScheduledUpTo(log: seq<Step>, next: int) {
    RequestedPages(log) == Pages(1, next - 1) &&
    (next <= TotalPages ==> AwaitingBatch(log)) &&
    (next > TotalPages ==> Alternating(log)) &&
    forall i :: 0 <= i < |log| && log[i].Batch? ==> |log[i].pages| == BatchSize
  }

  /** One more full batch, followed by a pause unless it reaches the last
      page, extends the schedule by `BatchSize` pages. */
  lemma ScheduleStep(log: seq<Step>, batchStart: int, pages: seq<int>)
    requires ScheduledUpTo(log, batchStart) && 1 <= batchStart <= TotalPages
    requires pages == Pages(batchStart, batchStart + BatchSize - 1)
    ensures var next := batchStart + BatchSize;
      ScheduledUpTo(log + [Batch(pages)] + if next - 1 < TotalPages then [Pause] else [], next)
  {
    var next := batchStart + BatchSize;
    var ext := log + [Batch(pages)];
    BatchAppended(log, pages);
    RequestedPagesSnoc(log, Batch(pages));
    PagesSplit(1, batchStart, next - 1);
    if next - 1 < TotalPages {
      RequestedPagesSnoc(ext, Pause);
    } else {
      assert ext + [] == ext;
    }
  }

  /** Requests pages 1 to `TotalPages`, `BatchSize` consecutive pages per
      batch, pausing between batches, and returns the deduplicated games
      together with the schedule it followed. */
  method FetchLargeCandidatePool(catalog: Catalog, tagIds: seq<int>) returns (pool: seq<Game>, log: seq<Step>)
    ensures RequestedPages(log) == Pages(1, TotalPages)
    ensures Alternating(log)
    ensures forall i :: 0 <= i < |log| && log[i].Batch? ==> |log[i].pages| == BatchSize
    ensures pool == DistinctById(PagesFrom(catalog, tagIds, 1, TotalPages))
  {
    var all: seq<Game> := [];
    log := [];
    var batchStart := 1;
    while batchStart <= TotalPages
      invariant 1 <= batchStart <= TotalPages + 1 && (batchStart - 1) % BatchSize == 0
      invariant all == PagesFrom(catalog, tagIds, 1, batchStart - 1)
      invariant ScheduledUpTo(log, batchStart)
    {
      var batchEnd := if batchStart + 4 < TotalPages then batchStart + 4 else TotalPages;
      assert batchEnd == batchStart + BatchSize - 1;
      var pages, batchGames := FetchBatch(catalog, tagIds, batchStart, batchEnd);
      PagesFromSplit(catalog, tagIds, 1, batchStart, batchEnd);
      all := all + batchGames;
      assert all == PagesFrom(catalog, tagIds, 1, batchEnd);
      ScheduleStep(log, batchStart, pages);
      log := log + [Batch(pages)];
      if batchEnd < TotalPages {
        log := log + [Pause];
      } else {
        assert log + [] == log;
      }
      batchStart := batchStart + BatchSize;
    }
    pool := DistinctById(all);
  }

  /** The position of the first game of the list carrying identifier `id`. */
  function FirstIndex(games: seq<Game>, id: int): (k: nat)
    requires id in GameIds(games)
    ensures k < |games| && games[k].id == id
    ensures forall j :: 0 <= j < k ==> games[j].id != id
  {
    if games[0].id == id then 0
    else
      assert games == [games[0]] + games[1..];
      GameIdsCons(games[0], games[1..]);
      1 + FirstIndex(games[1..], id)
  }

  /** The first game of the list carrying identifier `id`. */
  function FirstWithId(games: seq<Game>, id: int): (g: Game)
    requires id in GameIds(games)
    ensures g in games && g.id == id
  {
    games[FirstIndex(games, id)]
  }

  /** The games whose identifier is neither in `seen` nor carried by an
      earlier game, in their order. */
  function DistinctAfter(games: seq<Game>, seen: set<int>): (r: seq<Game>)
    ensures GameIds(r) == GameIds(games) - seen
    ensures DistinctIds(r)
  {
    if games == [] then []
    else
      var g0, rest := games[0], games[1..];
      assert games == [g0] + rest;
      GameIdsCons(g0, rest);
      if g0.id in seen then
        DistinctAfter(rest, seen)
      else
        var tail := DistinctAfter(rest, seen + {g0.id});
        GameIdsCons(g0, tail);
        DistinctIdsCons(g0, tail);
        [g0] + tail
  }

  /** Every game `DistinctAfter` keeps is the first of its identifier. */
  lemma {:induction false} DistinctAfterKeepsFirst(games: seq<Game>, seen: set<int>)
    ensures forall g :: g in DistinctAfter(games, seen) ==>
      g.id in GameIds(games) && g == FirstWithId(games, g.id)
  {
    if games != [] {
      var g0, rest := games[0], games[1..];
      assert games == [g0] + rest;
      GameIdsCons(g0, rest);
      if g0.id in seen {
        DistinctAfterKeepsFirst(rest, seen);
      } else {
        DistinctAfterKeepsFirst(rest, seen + {g0.id});
      }
    }
  }

  /** `DistinctAfter` keeps games in their order. */
  lemma {:induction false} DistinctAfterInOrder(games: seq<Game>, seen: set<int>)
    ensures IsSubsequence(DistinctAfter(games, seen), games)
  {
    if games != [] {
      var g0, rest := games[0], games[1..];
      if g0.id in seen {
        DistinctAfterInOrder(rest, seen);
      } else {
        var tail := DistinctAfter(rest, seen + {g0.id});
        DistinctAfterInOrder(rest, seen + {g0.id});
        assert ([g0] + tail)[1..] == tail;
      }
    }
  }

  /** The identifiers of `r` occur in `games`, and `r` lists them in order
      of their first occurrence there. */
  ghost predicate InFirstOccurrenceOrder(r: seq<Game>, games: seq<Game>) {
    (forall i :: 0 <= i < |r| ==> r[i].id in GameIds(games)) &&
    forall i, j :: 0 <= i < j < |r| ==> FirstIndex(games, r[i].id) < FirstIndex(games, r[j].id)
  }

  /** An identifier the first game does not carry first occurs one place
      further on than in the rest of the list. */
  lemma FirstIndexPastHead(games: seq<Game>, id: int)
    requires |games| > 0 && id in GameIds(games[1..]) && games[0].id != id
    ensures id in GameIds(games) && FirstIndex(games, id) == 1 + FirstIndex(games[1..], id)
  {
    assert games == [games[0]] + games[1..];
    GameIdsCons(games[0], games[1..]);
  }

  /** Past a first game whose identifier `r` avoids, every first occurrence
      moves one place. */
  lemma OrderPastHead(r: seq<Game>, games: seq<Game>)
    requires |games| > 0 && InFirstOccurrenceOrder(r, games[1..])
    requires forall i :: 0 <= i < |r| ==> r[i].id != games[0].id
    ensures InFirstOccurrenceOrder(r, games)
    ensures forall i :: 0 <= i < |r| ==> FirstIndex(games, r[i].id) > 0
  {
    forall i | 0 <= i < |r|
      ensures r[i].id in GameIds(games)
      ensures FirstIndex(games, r[i].id) == 1 + FirstIndex(games[1..], r[i].id)
    {
      FirstIndexPastHead(games, r[i].id);
    }
    forall i, j | 0 <= i < j < |r|
      ensures FirstIndex(games, r[i].id) < FirstIndex(games, r[j].id)
    {
    }
  }

  /** The first game's identifier first occurs at position zero. */
  lemma FirstIndexOfHead(games: seq<Game>)
    requires |games| > 0
    ensures games[0].id in GameIds(games) && FirstIndex(games, games[0].id) == 0
  {
    assert games[0] in games;
  }

  /** The first game, followed by a list in first-occurrence order of the
      rest that avoids its identifier, is in first-occurrence order. */
  lemma OrderWithHead(tail: seq<Game>, games: seq<Game>)
    requires |games| > 0 && InFirstOccurrenceOrder(tail, games[1..])
    requires forall i :: 0 <= i < |tail| ==> tail[i].id != games[0].id
    ensures InFirstOccurrenceOrder([games[0]] + tail, games)
  {
    OrderPastHead(tail, games);
    FirstIndexOfHead(games);
    var r := [games[0]] + tail;
    assert forall i :: 0 < i < |r| ==> r[i] == tail[i - 1];
  }

  /** `DistinctAfter` lists the identifiers it keeps in order of their first
      occurrence in `games`. */
  lemma {:induction false} DistinctAfterFirstOrder(games: seq<Game>, seen: set<int>)
    ensures InFirstOccurrenceOrder(DistinctAfter(games, seen), games)
  {
    if games != [] {
      var g0, rest := games[0], games[1..];
      assert games == [g0] + rest;
      var seen' := if g0.id in seen then seen else seen + {g0.id};
      var tail := DistinctAfter(rest, seen');
      DistinctAfterFirstOrder(rest, seen');
      forall i | 0 <= i < |tail| ensures tail[i].id != g0.id {
        assert tail[i].id in GameIds(tail);
      }
      if g0.id in seen {
        OrderPastHead(tail, games);
      } else {
        OrderWithHead(tail, games);
      }
    }
  }

  /** The source's `DistinctBy(g => g.Id)`: the first game of each identifier,
      in order of first occurrence. */
  function DistinctById(games: seq<Game>): seq<Game> {
    DistinctAfter(games, {})
  }

  /** Deduplication keeps one game per identifier present, the first one,
      keeps the games in their order, and lists the identifiers in order of
      their first occurrence. */
  lemma DistinctByIdKeepsFirst(games: seq<Game>)
    ensures DistinctIds(DistinctById(games))
    ensures GameIds(DistinctById(games)) == GameIds(games)
    ensures forall g :: g in DistinctById(games) ==> g == FirstWithId(games, g.id)
    ensures IsSubsequence(DistinctById(games), games)
    ensures InFirstOccurrenceOrder(DistinctById(games), games)
  {
    DistinctAfterKeepsFirst(games, {});
    DistinctAfterInOrder(games, {});
    DistinctAfterFirstOrder(games, {});
  }
}
