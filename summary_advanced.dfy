/**
 * The advanced summary route (apps/api/src/routes/summary-advanced.ts): the
 * fetched rows are cut to an inclusive time window and sorted by start time,
 * one pass aggregates totals, sides, streaks, records, hero and lane counters
 * and two histograms, and the results are projected into the top heroes, the
 * lane list and the sorted histograms. The solo/party split is a second pass
 * over the unsorted window.
 */
module SummaryAdvanced {
  import opened Wrappers
  import opened Seqs
  import opened Decimal
  import opened OrderedMap
  import opened StableSort
  import opened Matches
  import opened Queue
  import opened Steam

  // ------------------------------------------------------- window and order

  function InWindow(start: int, end: int): Row -> bool
  {
    (m: Row) => start <= m.startTime <= end
  }

  /** The rows whose start time lies in `[start, end]`, both ends included, in fetched order. */
  function WindowRows(base: seq<Row>, start: int, end: int): (rows: seq<Row>)
    ensures forall m :: m in rows ==> m in base && start <= m.startTime <= end
    ensures |rows| == Count(base, InWindow(start, end))
  {
    Filter(base, InWindow(start, end))
  }

  /** No row inside the window is dropped. */
  lemma WindowKeepsInside(base: seq<Row>, start: int, end: int, i: nat)
    requires i < |base| && start <= base[i].startTime <= end
    ensures base[i] in WindowRows(base, start, end)
  {
    FilterKeeps(base, InWindow(start, end), i);
  }

  /** `[...rows].sort((a, b) => a.start_time - b.start_time)`. */
  function SortedByTime(rows: seq<Row>): seq<Row>
  {
    SortBy(rows, StartTime)
  }

  /**
   * The sorted rows are a permutation of the window, ascending by start time,
   * and rows with the same start time keep their fetched order.
   */
  lemma SortedByTimeIsStableSort(rows: seq<Row>, t: int)
    ensures multiset(SortedByTime(rows)) == multiset(rows)
    ensures forall i, j :: 0 <= i < j < |SortedByTime(rows)| ==>
      SortedByTime(rows)[i].startTime <= SortedByTime(rows)[j].startTime
    ensures Filter(SortedByTime(rows), KeyIs(StartTime, t)) == Filter(rows, KeyIs(StartTime, t))
  {
    SortBySorted(rows, StartTime);
    SortByStable(rows, StartTime, t);
  }

  // ------------------------------------------------------------ aggregation

  /** The `totals` counters; the averages are kept as their numerators. */
  datatype Totals = Totals(
    matches: int,
    wins: int,
    playtimeSeconds: int,
    totalHeroDamage: int,
    totalTowerDamage: int,
    gpmTotal: int,
    xpmTotal: int,
    lastHitsTotal: int,
    deniesTotal: int)

  /** `radG`, `radW`, `direG`, `direW`. */
  datatype Sides = Sides(radiantGames: int, radiantWins: int, direGames: int, direWins: int)

  /** `curWin`, `bestWin`, `curLose`, `bestLose`. */
  datatype Streaks = Streaks(currentWin: int, longestWin: int, currentLoss: int, longestLoss: int)

  /** The five record slots. */
  datatype Records = Records(
    mostKills: Option<Record>,
    mostDeaths: Option<Record>,
    mostAssists: Option<Record>,
    bestGpm: Option<Record>,
    bestXpm: Option<Record>)

  /** Everything the main loop accumulates. */
  datatype Aggregates = Aggregates(
    totals: Totals,
    sides: Sides,
    streaks: Streaks,
    records: Records,
    heroes: OMap<int, HeroAgg>,
    lanes: OMap<string, LaneAgg>,
    gpmBins: OMap<int, int>,
    xpmBins: OMap<int, int>)

  // The loop body, one group of variables at a time. Each group's state after
  // a sequence of matches is the fold of its step over them.

  const TotalsZero := Totals(0, 0, 0, 0, 0, 0, 0, 0, 0)

  function AddTotals(t: Totals, m: Row): Totals
  {
    Totals(t.matches + 1, if Won(m) then t.wins + 1 else t.wins,
           t.playtimeSeconds + Duration(m), t.totalHeroDamage + HeroDamage(m),
           t.totalTowerDamage + TowerDamage(m), t.gpmTotal + Gpm(m), t.xpmTotal + Xpm(m),
           t.lastHitsTotal + LastHits(m), t.deniesTotal + Denies(m))
  }

  const SidesZero := Sides(0, 0, 0, 0)

  function AddSides(d: Sides, m: Row): Sides
  {
    if OnRadiant(m) then
      Sides(d.radiantGames + 1, if Won(m) then d.radiantWins + 1 else d.radiantWins, d.direGames, d.direWins)
    else
      Sides(d.radiantGames, d.radiantWins, d.direGames + 1, if Won(m) then d.direWins + 1 else d.direWins)
  }

  const StreaksZero := Streaks(0, 0, 0, 0)

  function AddStreaks(k: Streaks, m: Row): Streaks
  {
    if Won(m) then
      var cur := k.currentWin + 1;
      Streaks(cur, if k.longestWin < cur then cur else k.longestWin, 0, k.longestLoss)
    else
      var cur := k.currentLoss + 1;
      Streaks(0, k.longestWin, cur, if k.longestLoss < cur then cur else k.longestLoss)
  }

  /** `!maxX || (m.x ?? 0) > maxX.x`: only a strictly greater stat takes over the record. */
  function Challenge(best: Option<Record>, m: Row, f: Row -> int): Option<Record>
  {
    if best.None? || f(m) > best.value.stat then Some(Record(m.matchId, f(m), m.heroId, m.startTime)) else best
  }

  const RecordsZero := Records(None, None, None, None, None)

  function AddRecords(r: Records, m: Row): Records
  {
    Records(Challenge(r.mostKills, m, Kills), Challenge(r.mostDeaths, m, Deaths),
            Challenge(r.mostAssists, m, Assists), Challenge(r.bestGpm, m, Gpm),
            Challenge(r.bestXpm, m, Xpm))
  }

  /** The counters are the number of matches and wins and the sums of each stat. */
  lemma {:induction false} TotalsCount(s: seq<Row>)
    ensures Fold(s, TotalsZero, AddTotals)
         == Totals(|s|, Count(s, Won), SumOf(s, Duration), SumOf(s, HeroDamage),
                   SumOf(s, TowerDamage), SumOf(s, Gpm), SumOf(s, Xpm),
                   SumOf(s, LastHits), SumOf(s, Denies))
  {
    if s != [] {
      TotalsCount(s[..|s| - 1]);
    }
  }

  /** The side counters count the matches, and the wins, on each side. */
  lemma {:induction false} SidesCount(s: seq<Row>)
    ensures Fold(s, SidesZero, AddSides)
         == Sides(Count(s, OnRadiant), Count(s, RadiantWon), Count(s, OnDire), Count(s, DireWon))
  {
    if s != [] {
      SidesCount(s[..|s| - 1]);
    }
  }

  /** The streak counters are the trailing and the longest runs of wins and of losses. */
  lemma {:induction false} StreaksAreRuns(s: seq<Row>)
    ensures Fold(s, StreaksZero, AddStreaks)
         == Streaks(TrailingRun(s, Won), LongestRun(s, Won), TrailingRun(s, Lost), LongestRun(s, Lost))
  {
    if s != [] {
      StreaksAreRuns(s[..|s| - 1]);
    }
  }

  lemma ChallengeIsFirstMax(s: seq<Row>, f: Row -> int)
    requires s != []
    ensures RecordOf(FirstMax(s, f), f) == Challenge(RecordOf(FirstMax(s[..|s| - 1], f), f), s[|s| - 1], f)
  {
  }

  /** Each record is taken from the first match with the greatest value of its stat. */
  lemma {:induction false} RecordsAreFirstMaxima(s: seq<Row>)
    ensures Fold(s, RecordsZero, AddRecords)
         == Records(RecordOf(FirstMax(s, Kills), Kills), RecordOf(FirstMax(s, Deaths), Deaths),
                    RecordOf(FirstMax(s, Assists), Assists), RecordOf(FirstMax(s, Gpm), Gpm),
                    RecordOf(FirstMax(s, Xpm), Xpm))
  {
    if s != [] {
      RecordsAreFirstMaxima(s[..|s| - 1]);
      ChallengeIsFirstMax(s, Kills);
      ChallengeIsFirstMax(s, Deaths);
      ChallengeIsFirstMax(s, Assists);
      ChallengeIsFirstMax(s, Gpm);
      ChallengeIsFirstMax(s, Xpm);
    }
  }

  /**
   * The `for (const m of sortedByTime)` loop. The averages' numerators are
   * returned as sums; the division and `toFixed(2)` rounding are not modelled.
   */
  method Aggregate(sorted: seq<Row>, laneNames: map<int, string>) returns (a: Aggregates)
    ensures a.totals == Totals(|sorted|, Count(sorted, Won), SumOf(sorted, Duration), SumOf(sorted, HeroDamage),
                               SumOf(sorted, TowerDamage), SumOf(sorted, Gpm), SumOf(sorted, Xpm),
                               SumOf(sorted, LastHits), SumOf(sorted, Denies))
    ensures a.sides == Sides(Count(sorted, OnRadiant), Count(sorted, RadiantWon), Count(sorted, OnDire), Count(sorted, DireWon))
    ensures a.streaks == Streaks(TrailingRun(sorted, Won), LongestRun(sorted, Won),
                                 TrailingRun(sorted, Lost), LongestRun(sorted, Lost))
    ensures a.records == Records(RecordOf(FirstMax(sorted, Kills), Kills), RecordOf(FirstMax(sorted, Deaths), Deaths),
                                 RecordOf(FirstMax(sorted, Assists), Assists), RecordOf(FirstMax(sorted, Gpm), Gpm),
                                 RecordOf(FirstMax(sorted, Xpm), Xpm))
    ensures a.heroes == Group(sorted, HeroOf, HeroZero, AddHeroMatch)
    ensures a.lanes == Group(sorted, LaneKeyOf(laneNames), LaneZero, AddLaneMatch)
    ensures a.gpmBins == Group(sorted, GpmBucket, 0, Bump)
    ensures a.xpmBins == Group(sorted, XpmBucket, 0, Bump)
  {
    var totals, sides, streaks, records := TotalsZero, SidesZero, StreaksZero, RecordsZero;
    var heroAgg: OMap<int, HeroAgg> := Empty();
    var laneAgg: OMap<string, LaneAgg> := Empty();
    var gpmBins: OMap<int, int> := Empty();
    var xpmBins: OMap<int, int> := Empty();

    for i := 0 to |sorted|
      invariant totals == Fold(sorted[..i], TotalsZero, AddTotals)
      invariant sides == Fold(sorted[..i], SidesZero, AddSides)
      invariant streaks == Fold(sorted[..i], StreaksZero, AddStreaks)
      invariant records == Fold(sorted[..i], RecordsZero, AddRecords)
      invariant heroAgg == Group(sorted[..i], HeroOf, HeroZero, AddHeroMatch)
      invariant laneAgg == Group(sorted[..i], LaneKeyOf(laneNames), LaneZero, AddLaneMatch)
      invariant gpmBins == Group(sorted[..i], GpmBucket, 0, Bump)
      invariant xpmBins == Group(sorted[..i], XpmBucket, 0, Bump)
    {
      var m := sorted[i];
      ghost var pre := sorted[..i];
      assert sorted[..i + 1] == pre + [m];

      FoldSnoc(pre, m, TotalsZero, AddTotals);
      totals := AddTotals(totals, m);
      FoldSnoc(pre, m, StreaksZero, AddStreaks);
      streaks := AddStreaks(streaks, m);
      FoldSnoc(pre, m, SidesZero, AddSides);
      sides := AddSides(sides, m);
      FoldSnoc(pre, m, RecordsZero, AddRecords);
      records := AddRecords(records, m);

      AddBinStep(pre, m, GpmBucket, Gpm(m));
      gpmBins := AddBin(gpmBins, Gpm(m));
      AddBinStep(pre, m, XpmBucket, Xpm(m));
      xpmBins := AddBin(xpmBins, Xpm(m));

      HeroStep(pre, m);
      var h := Get(heroAgg, m.heroId).GetOr(HeroZero);
      heroAgg := Set(heroAgg, m.heroId, AddHeroMatch(h, m));

      LaneStep(pre, m, laneNames);
      var laneName := LaneName(laneNames, m);
      var la := Get(laneAgg, laneName).GetOr(LaneZero);
      laneAgg := Set(laneAgg, laneName, AddLaneMatch(la, m));
    }
    assert sorted[..|sorted|] == sorted;
    TotalsCount(sorted);
    SidesCount(sorted);
    StreaksAreRuns(sorted);
    RecordsAreFirstMaxima(sorted);
    a := Aggregates(totals, sides, streaks, records, heroAgg, laneAgg, gpmBins, xpmBins);
  }

  // ------------------------------------------------------------ projections

  /** The sort key of `(a, b) => b[1].games - a[1].games`: most games first. */
  function FewerGames(e: (int, HeroAgg)): int { -e.1.games }

  /** The hero entries, stably sorted by games, most first. */
  function Ranking(heroes: OMap<int, HeroAgg>): seq<(int, HeroAgg)>
    requires Valid(heroes)
  {
    SortBy(Entries(heroes), FewerGames)
  }

  /** The ranking holds each hero entry once: it is a permutation of the entries. */
  lemma RankingPermutes(heroes: OMap<int, HeroAgg>)
    requires Valid(heroes)
    ensures multiset(Ranking(heroes)) == multiset(Entries(heroes))
    ensures |Ranking(heroes)| == |heroes.keys|
  {
    assert |multiset(Entries(heroes))| == |heroes.keys|;
  }

  /** `.slice(0, 3)` of the ranking. */
  function TopHeroes(heroes: OMap<int, HeroAgg>): (top: seq<(int, HeroAgg)>)
    requires Valid(heroes)
    ensures |top| == if |heroes.keys| < 3 then |heroes.keys| else 3
  {
    var ranked := Ranking(heroes);
    RankingPermutes(heroes);
    ranked[..if |ranked| < 3 then |ranked| else 3]
  }

  /** The top heroes come in order of non-increasing games. */
  lemma TopHeroesOrdered(heroes: OMap<int, HeroAgg>)
    requires Valid(heroes)
    ensures forall i, j :: 0 <= i < j < |TopHeroes(heroes)| ==>
      TopHeroes(heroes)[i].1.games >= TopHeroes(heroes)[j].1.games
  {
    var es := Entries(heroes);
    var n := if |es| < 3 then |es| else 3;
    SortByPrefixIsLeast(es, FewerGames, n);
    var top := SortBy(es, FewerGames)[..n];
    assert TopHeroes(heroes) == top;
    forall i, j | 0 <= i < j < |top| ensures top[i].1.games >= top[j].1.games {
      assert FewerGames(top[i]) <= FewerGames(top[j]);
    }
  }

  /** The top heroes are stored heroes, and every hero left out has at most as many games as each one kept. */
  lemma TopHeroesAreTop(heroes: OMap<int, HeroAgg>)
    requires Valid(heroes)
    ensures forall t :: t in TopHeroes(heroes) ==> t in Entries(heroes)
    ensures forall e, t :: e in Entries(heroes) && e !in TopHeroes(heroes) && t in TopHeroes(heroes) ==>
      e.1.games <= t.1.games
  {
    var es := Entries(heroes);
    var n := if |es| < 3 then |es| else 3;
    SortByPrefixIsLeast(es, FewerGames, n);
    var top := SortBy(es, FewerGames)[..n];
    assert TopHeroes(heroes) == top;
    forall e, t | e in es && e !in top && t in top
      ensures e.1.games <= t.1.games
    {
      assert FewerGames(t) <= FewerGames(e);
    }
  }

  /**
   * Heroes with equal games (equal sort key `k`, minus their games) keep their
   * order in the entries, which is the order of their first match
   * (`GroupOrder`): the sort is stable.
   */
  lemma {:induction false} RankingKeepsTies(heroes: OMap<int, HeroAgg>, k: int)
    requires Valid(heroes)
    ensures Filter(Ranking(heroes), KeyIs(FewerGames, k)) == Filter(Entries(heroes), KeyIs(FewerGames, k))
  {
    SortByStable(Entries(heroes), FewerGames, k);
  }

  /** `[...bins.entries()].sort((a, b) => a[0] - b[0])`. */
  function Histogram(bins: OMap<int, int>): (h: seq<(int, int)>)
    requires Valid(bins)
    ensures multiset(h) == multiset(Entries(bins))
  {
    SortBy(Entries(bins), EntryKey)
  }

  /** The emitted buckets are strictly ascending: sorted, and no bucket twice. */
  lemma HistogramAscending(bins: OMap<int, int>)
    requires Valid(bins)
    ensures forall i, j :: 0 <= i < j < |Histogram(bins)| ==> Histogram(bins)[i].0 < Histogram(bins)[j].0
  {
    var h := Histogram(bins);
    SortBySorted(Entries(bins), EntryKey);
    forall i, j | 0 <= i < j < |h| ensures h[i].0 < h[j].0 {
      if h[i].0 == h[j].0 {
        var k := h[i].0;
        CountTwo(h, KeyIs(EntryKey, k), i, j);
        SortByKeepsTotals(Entries(bins), EntryKey, KeyIs(EntryKey, k), OnValue(Identity));
        EntriesKeyOnce(bins.keys, bins.vals, k);
        assert false;
      }
    }
  }

  /** An emitted bin is a stored bucket with the number of matches in it. */
  lemma HistogramEntry(s: seq<Row>, bucketOf: Row -> int, e: (int, int))
    requires Valid(Group(s, bucketOf, 0, Bump))
    requires e in Histogram(Group(s, bucketOf, 0, Bump))
    ensures e.1 == Count(s, KeyIs(bucketOf, e.0))
  {
    var g := Group(s, bucketOf, 0, Bump);
    var es := Entries(g);
    assert e in multiset(es);
    var a :| 0 <= a < |es| && es[a] == e;
    GroupKeys(s, bucketOf, 0, Bump);
    ElementsAt(g.keys, a);
    BinCounts(s, bucketOf, e.0);
  }

  /**
   * In the histogram of a sequence of matches, each bucket's count is the number
   * of matches in that bucket, and the counts add up to the number of matches.
   */
  lemma HistogramCounts(s: seq<Row>, bucketOf: Row -> int)
    ensures Valid(Group(s, bucketOf, 0, Bump))
    ensures forall e :: e in Histogram(Group(s, bucketOf, 0, Bump)) ==> e.1 == Count(s, KeyIs(bucketOf, e.0))
    ensures SumOf(Histogram(Group(s, bucketOf, 0, Bump)), OnValue(Identity)) == |s|
  {
    GroupValid(s, bucketOf, 0, Bump);
    forall e | e in Histogram(Group(s, bucketOf, 0, Bump)) ensures e.1 == Count(s, KeyIs(bucketOf, e.0)) {
      HistogramEntry(s, bucketOf, e);
    }
    GroupSum(s, bucketOf, 0, Bump, Identity, One);
    SumOfOne(s);
    SortByKeepsTotals(Entries(Group(s, bucketOf, 0, Bump)), EntryKey, KeyIs(EntryKey, 0), OnValue(Identity));
  }

  // ---------------------------------------------------------- solo vs party

  /** Matches and wins of one kind of game. */
  datatype Split = Split(matches: nat, wins: nat)

  /** The `for (const m of rows)` loop over the window, in fetched order. */
  method SoloVsParty(rows: seq<Row>) returns (solo: Split, party: Split)
    ensures solo == Split(Count(rows, IsSolo), Count(rows, SoloWon))
    ensures party == Split(Count(rows, IsParty), Count(rows, PartyWon))
  {
    var soloG, soloW, partyG, partyW := 0, 0, 0, 0;
    for i := 0 to |rows|
      invariant soloG == Count(rows[..i], IsSolo) && soloW == Count(rows[..i], SoloWon)
      invariant partyG == Count(rows[..i], IsParty) && partyW == Count(rows[..i], PartyWon)
    {
      var m := rows[i];
      assert rows[..i + 1][..i] == rows[..i];
      var won := (m.radiantWin && IsRadiant(m.playerSlot)) || (!m.radiantWin && !IsRadiant(m.playerSlot));
      var isParty := m.partySize.GetOr(1) > 1;
      if isParty {
        partyG := partyG + 1;
        if won { partyW := partyW + 1; }
      } else {
        soloG := soloG + 1;
        if won { soloW := soloW + 1; }
      }
    }
    assert rows[..|rows|] == rows;
    solo := Split(soloG, soloW);
    party := Split(partyG, partyW);
  }

  /**
   * Solo and party split the same matches and wins as the totals, although
   * they are counted over the window in fetched order rather than sorted.
   */
  lemma SoloPartyMatchTotals(rows: seq<Row>)
    ensures Count(rows, IsSolo) + Count(rows, IsParty) == |SortedByTime(rows)|
    ensures Count(rows, SoloWon) + Count(rows, PartyWon) == Count(SortedByTime(rows), Won)
  {
    SoloPartyPartition(rows);
    SortByKeepsTotals(rows, StartTime, Won, One);
    assert |multiset(SortedByTime(rows))| == |multiset(rows)|;
  }
}
