/**
 * The calendar-year summary route: the matches of one UTC year, counted in a
 * single pass (totals, sides, per-hero game counts, total hero damage and the
 * match with most kills), and then the most played hero picked from the
 * per-hero counts.
 */
module Summary {
  import opened Wrappers
  import opened Seqs
  import opened OrderedMap
  import opened Matches
  import opened Steam

  // ------------------------------------------------------------ year window

  predicate IsLeap(y: int)
  {
    (y % 4 == 0 && y % 100 != 0) || y % 400 == 0
  }

  function DaysInYear(y: int): int
  {
    if IsLeap(y) then 366 else 365
  }

  /** Days from 1 January 1970 to 1 January of `year`. */
  function DaysBefore(year: int): nat
    requires year >= 1970
    decreases year - 1970
  {
    if year == 1970 then 0 else DaysBefore(year - 1) + DaysInYear(year - 1)
  }

  /** `Date.UTC(year, 0, 1) / 1000`: the Unix second at which `year` begins. */
  function YearStart(year: int): int
    requires year >= 1970
  {
    DaysBefore(year) * 86400
  }

  /** Later years begin later, by at least 365 days a year. */
  lemma {:induction false} YearStartGrows(a: int, b: int)
    requires 1970 <= a <= b
    ensures YearStart(b) - YearStart(a) >= (b - a) * 365 * 86400
    decreases b - a
  {
    if a < b {
      YearStartGrows(a, b - 1);
    }
  }

  /** The rule `start <= start_time < end`. */
  function InYear(start: int, end: int): Row -> bool
  {
    (m: Row) => start <= m.startTime < end
  }

  /** The fetched matches whose start time lies in `[start, end)`, in fetched order. */
  function YearRows(matches: seq<Row>, start: int, end: int): (rows: seq<Row>)
    ensures forall m :: m in rows ==> m in matches && start <= m.startTime < end
    ensures |rows| == Count(matches, InYear(start, end))
  {
    Filter(matches, InYear(start, end))
  }

  /** No match inside the window is dropped. */
  lemma YearKeepsInside(matches: seq<Row>, start: int, end: int, i: nat)
    requires i < |matches| && start <= matches[i].startTime < end
    ensures matches[i] in YearRows(matches, start, end)
  {
    FilterKeeps(matches, InYear(start, end), i);
  }

  /**
   * The windows of two different years never share a match: with `end` the
   * start of the next year, a match starting exactly at midnight on
   * 1 January belongs to the new year only.
   */
  lemma YearWindowsDisjoint(a: int, b: int, m: Row)
    requires 1970 <= a && 1970 <= b && a != b
    ensures !(InYear(YearStart(a), YearStart(a + 1))(m) && InYear(YearStart(b), YearStart(b + 1))(m))
  {
    if a < b {
      YearStartGrows(a + 1, b);
    } else {
      YearStartGrows(b + 1, a);
    }
  }

  /** Every instant from 1970 on falls in the window of some year. */
  lemma {:induction false} YearWindowsCover(t: int, year: int) returns (y: int)
    requires year >= 1970 && YearStart(year) <= t
    ensures year <= y && YearStart(y) <= t < YearStart(y + 1)
    decreases t - YearStart(year)
  {
    if t < YearStart(year + 1) {
      y := year;
    } else {
      y := YearWindowsCover(t, year + 1);
    }
  }

  // --------------------------------------------------------------- most kills

  /** `mostKills` and `mostKillsMatch` as the scan leaves them. */
  datatype KillsBest = KillsBest(mostKills: int, best: Option<Record>)

  /**
   * The kills scan: starting from -1 and no match, a match whose kills
   * (missing as 0) exceed the best so far replaces it.
   */
  function KillsScan(s: seq<Row>): KillsBest
  {
    if s == [] then KillsBest(-1, None) else
      var b := KillsScan(s[..|s| - 1]);
      var m := s[|s| - 1];
      if Kills(m) > b.mostKills then KillsBest(Kills(m), Some(Record(m.matchId, Kills(m), m.heroId, m.startTime)))
      else b
  }

  /** No match is recorded exactly when every match has fewer than 0 kills. */
  lemma {:induction false} KillsScanNone(s: seq<Row>)
    ensures KillsScan(s).best.None? <==> forall j :: 0 <= j < |s| ==> Kills(s[j]) < 0
    ensures KillsScan(s).best.None? ==> KillsScan(s).mostKills == -1
    ensures KillsScan(s).best.Some? ==> KillsScan(s).mostKills == KillsScan(s).best.value.stat >= 0
  {
    if s != [] {
      var init := s[..|s| - 1];
      KillsScanNone(init);
      forall j | 0 <= j < |init| ensures s[j] == init[j] { }
    }
  }

  /**
   * When kills are never negative, the scan keeps exactly the record of the
   * first match with most kills, as the strict `>` comparison does from any
   * starting value below every match's kills.
   */
  lemma {:induction false} KillsScanIsFirstMax(s: seq<Row>)
    requires forall j :: 0 <= j < |s| ==> Kills(s[j]) >= 0
    ensures KillsScan(s).best == RecordOf(FirstMax(s, Kills), Kills)
    ensures s != [] ==> KillsScan(s).mostKills == Kills(FirstMax(s, Kills).value)
  {
    if s != [] {
      var init := s[..|s| - 1];
      forall j | 0 <= j < |init| ensures Kills(init[j]) >= 0 { assert init[j] == s[j]; }
      KillsScanIsFirstMax(init);
      KillsScanNone(init);
    }
  }

  /** With kills never negative, the most-kills game is null iff there are no matches. */
  lemma MostKillsNullIffEmpty(s: seq<Row>)
    requires forall j :: 0 <= j < |s| ==> Kills(s[j]) >= 0
    ensures KillsScan(s).best.None? <==> s == []
    ensures KillsScan(s).best.Some? ==>
      var r := KillsScan(s).best.value;
      (forall j :: 0 <= j < |s| ==> Kills(s[j]) <= r.stat)
      && exists k :: 0 <= k < |s| && r.matchId == s[k].matchId && r.stat == Kills(s[k])
                 && (forall j :: 0 <= j < k ==> Kills(s[j]) < r.stat)
  {
    KillsScanIsFirstMax(s);
    RecordIsFirstMaximum(s, Kills);
  }

  // --------------------------------------------------------- the year pass

  /** The counters of the year pass. */
  datatype YearTotals = YearTotals(
    total: int, wins: int,
    radGames: int, radWins: int, direGames: int, direWins: int,
    totalHeroDamage: int)

  const YearZero := YearTotals(0, 0, 0, 0, 0, 0, 0)

  /** What one match adds to the counters: a game, a win on its side if won, its hero damage. */
  function AddYear(t: YearTotals, m: Row): YearTotals
  {
    var r := IsRadiant(m.playerSlot);
    var won := (m.radiantWin && r) || (!m.radiantWin && !r);
    YearTotals(
      t.total + 1, if won then t.wins + 1 else t.wins,
      if r then t.radGames + 1 else t.radGames, if r && won then t.radWins + 1 else t.radWins,
      if r then t.direGames else t.direGames + 1, if !r && won then t.direWins + 1 else t.direWins,
      t.totalHeroDamage + HeroDamage(m))
  }

  /** The counters after any prefix of matches are its size, its counts by side and outcome, and its damage sum. */
  lemma {:induction false} YearCounts(s: seq<Row>)
    ensures Fold(s, YearZero, AddYear) == YearTotals(
      |s|, Count(s, Won),
      Count(s, OnRadiant), Count(s, RadiantWon), Count(s, OnDire), Count(s, DireWon),
      SumOf(s, HeroDamage))
  {
    if s != [] {
      YearCounts(s[..|s| - 1]);
    }
  }

  /** The aggregation loop over the year's matches. */
  method AggregateYear(rows: seq<Row>) returns (t: YearTotals, heroCounts: OMap<int, int>, mostKillsMatch: Option<Record>)
    ensures t == YearTotals(
      |rows|, Count(rows, Won),
      Count(rows, OnRadiant), Count(rows, RadiantWon), Count(rows, OnDire), Count(rows, DireWon),
      SumOf(rows, HeroDamage))
    ensures heroCounts == Group(rows, HeroOf, 0, Bump)
    ensures mostKillsMatch == KillsScan(rows).best
  {
    t := YearZero;
    heroCounts := Empty();
    var mostKills := -1;
    mostKillsMatch := None;
    for i := 0 to |rows|
      invariant t == Fold(rows[..i], YearZero, AddYear)
      invariant heroCounts == Group(rows[..i], HeroOf, 0, Bump)
      invariant KillsBest(mostKills, mostKillsMatch) == KillsScan(rows[..i])
    {
      var m := rows[i];
      ghost var pre := rows[..i];
      assert rows[..i + 1] == pre + [m];
      assert (pre + [m])[..i] == pre;

      FoldSnoc(pre, m, YearZero, AddYear);
      t := AddYear(t, m);

      GroupSnoc(pre, m, HeroOf, 0, Bump);
      heroCounts := Set(heroCounts, m.heroId, Get(heroCounts, m.heroId).GetOr(0) + 1);

      if m.kills.GetOr(0) > mostKills {
        mostKills := m.kills.GetOr(0);
        mostKillsMatch := Some(Record(m.matchId, mostKills, m.heroId, m.startTime));
      }
    }
    assert rows[..|rows|] == rows;
    YearCounts(rows);
  }

  /** The sides split both the matches and the wins, and the hero counts add up to the matches. */
  lemma YearTotalsAddUp(rows: seq<Row>)
    ensures Count(rows, OnRadiant) + Count(rows, OnDire) == |rows|
    ensures Count(rows, RadiantWon) + Count(rows, DireWon) == Count(rows, Won)
    ensures Valid(Group(rows, HeroOf, 0, Bump))
    ensures SumValues(Group(rows, HeroOf, 0, Bump), Identity) == |rows|
  {
    SidesPartition(rows);
    GroupSum(rows, HeroOf, 0, Bump, Identity, One);
    SumOfOne(rows);
  }

  // -------------------------------------------------------- most played hero

  function GamesOf(e: (int, int)): int { e.1 }

  /** The second loop: over the hero counts in insertion order, a strictly larger count replaces the pick. */
  method MostPlayed(heroCounts: OMap<int, int>) returns (mostPlayed: Option<(int, int)>)
    requires Valid(heroCounts)
    ensures mostPlayed == FirstMax(Entries(heroCounts), GamesOf)
  {
    var es := Entries(heroCounts);
    mostPlayed := None;
    for i := 0 to |es|
      invariant mostPlayed == FirstMax(es[..i], GamesOf)
    {
      var (heroId, games) := es[i];
      assert es[..i + 1][..i] == es[..i];
      if mostPlayed.None? || games > mostPlayed.value.1 {
        mostPlayed := Some((heroId, games));
      }
    }
    assert es[..|es|] == es;
  }

  /** The `j`-th hero entry holds that hero's number of matches. */
  lemma HeroEntryAt(rows: seq<Row>, j: int)
    requires 0 <= j < |Group(rows, HeroOf, 0, Bump).keys|
    ensures Valid(Group(rows, HeroOf, 0, Bump))
    ensures var e := Entries(Group(rows, HeroOf, 0, Bump))[j];
      e.0 in KeySet(rows, HeroOf) && e.1 == Count(rows, KeyIs(HeroOf, e.0))
  {
    var g := Group(rows, HeroOf, 0, Bump);
    GroupValid(rows, HeroOf, 0, Bump);
    GroupKeys(rows, HeroOf, 0, Bump);
    ElementsAt(g.keys, j);
    BinCounts(rows, HeroOf, g.keys[j]);
  }

  /** Every hero that was played has an entry. */
  lemma HeroHasEntry(rows: seq<Row>, h: int) returns (j: nat)
    requires h in KeySet(rows, HeroOf)
    ensures j < |Group(rows, HeroOf, 0, Bump).keys| && Group(rows, HeroOf, 0, Bump).keys[j] == h
  {
    GroupValid(rows, HeroOf, 0, Bump);
    GroupKeys(rows, HeroOf, 0, Bump);
    j := ElementsHaveIndex(Group(rows, HeroOf, 0, Bump).keys, h);
  }

  /** The most played hero is null iff there are no matches. */
  lemma MostPlayedNullIffEmpty(rows: seq<Row>)
    ensures Valid(Group(rows, HeroOf, 0, Bump))
    ensures FirstMax(Entries(Group(rows, HeroOf, 0, Bump)), GamesOf).None? <==> rows == []
  {
    GroupValid(rows, HeroOf, 0, Bump);
    FirstMaxIsFirstMaximum(Entries(Group(rows, HeroOf, 0, Bump)), GamesOf);
    if rows != [] {
      KeySetHas(rows, HeroOf, 0);
      var j := HeroHasEntry(rows, HeroOf(rows[0]));
    }
  }

  /**
   * `hero` with `games` is a rightful most played hero of `rows`: it was
   * played `games` times, no hero was played more, and among heroes played as
   * often its first match comes first.
   */
  ghost predicate MostPlayedOf(rows: seq<Row>, hero: int, games: int)
  {
    hero in KeySet(rows, HeroOf)
    && games == Count(rows, KeyIs(HeroOf, hero))
    && (forall h :: h in KeySet(rows, HeroOf) ==> Count(rows, KeyIs(HeroOf, h)) <= games)
    && (forall h :: h in KeySet(rows, HeroOf) && Count(rows, KeyIs(HeroOf, h)) == games ==>
          FirstAt(rows, HeroOf, hero) <= FirstAt(rows, HeroOf, h))
  }

  /** The first entry with the largest count beats or ties any played hero, and wins the ties. */
  lemma TopEntryBeats(rows: seq<Row>, k: int, h: int)
    requires Valid(Group(rows, HeroOf, 0, Bump))
    requires var es := Entries(Group(rows, HeroOf, 0, Bump));
      0 <= k < |es|
      && (forall j :: 0 <= j < |es| ==> GamesOf(es[j]) <= GamesOf(es[k]))
      && (forall j :: 0 <= j < k ==> GamesOf(es[j]) < GamesOf(es[k]))
    requires h in KeySet(rows, HeroOf)
    ensures var e := Entries(Group(rows, HeroOf, 0, Bump))[k];
      e.0 in KeySet(rows, HeroOf)
      && Count(rows, KeyIs(HeroOf, h)) <= e.1
      && (Count(rows, KeyIs(HeroOf, h)) == e.1 ==> FirstAt(rows, HeroOf, e.0) <= FirstAt(rows, HeroOf, h))
  {
    var es := Entries(Group(rows, HeroOf, 0, Bump));
    HeroEntryAt(rows, k);
    var j := HeroHasEntry(rows, h);
    HeroEntryAt(rows, j);
    assert GamesOf(es[j]) <= GamesOf(es[k]);
    if Count(rows, KeyIs(HeroOf, h)) == es[k].1 && j > k {
      GroupOrder(rows, HeroOf, 0, Bump, k, j);
    }
  }

  /** The hero the second loop keeps is a rightful most played hero. */
  lemma MostPlayedHero(rows: seq<Row>)
    ensures Valid(Group(rows, HeroOf, 0, Bump))
    ensures var mp := FirstMax(Entries(Group(rows, HeroOf, 0, Bump)), GamesOf);
      mp.Some? ==> MostPlayedOf(rows, mp.value.0, mp.value.1)
  {
    GroupValid(rows, HeroOf, 0, Bump);
    var es := Entries(Group(rows, HeroOf, 0, Bump));
    FirstMaxIsFirstMaximum(es, GamesOf);
    var mp := FirstMax(es, GamesOf);
    if mp.Some? {
      var k :| 0 <= k < |es| && es[k] == mp.value
        && (forall j :: 0 <= j < |es| ==> GamesOf(es[j]) <= GamesOf(es[k]))
        && (forall j :: 0 <= j < k ==> GamesOf(es[j]) < GamesOf(es[k]));
      HeroEntryAt(rows, k);
      forall h | h in KeySet(rows, HeroOf)
        ensures Count(rows, KeyIs(HeroOf, h)) <= mp.value.1
        ensures Count(rows, KeyIs(HeroOf, h)) == mp.value.1 ==>
          FirstAt(rows, HeroOf, mp.value.0) <= FirstAt(rows, HeroOf, h)
      {
        TopEntryBeats(rows, k, h);
      }
    }
  }

  // ---------------------------------------------------------------- response

  /** The counted part of the response; the hero names and the date string are left to the caller. */
  datatype YearSummary = YearSummary(
    totals: YearTotals,
    mostPlayedHero: Option<(int, int)>,
    mostKillsGame: Option<Record>)

  /** The whole route after the fetch: filter by year, aggregate, pick the most played hero. */
  method Summarise(matches: seq<Row>, year: int) returns (r: YearSummary)
    requires 2012 <= year <= 2100
    ensures Valid(Group(YearRows(matches, YearStart(year), YearStart(year + 1)), HeroOf, 0, Bump))
    ensures var rows := YearRows(matches, YearStart(year), YearStart(year + 1));
      r.totals == YearTotals(
        |rows|, Count(rows, Won),
        Count(rows, OnRadiant), Count(rows, RadiantWon), Count(rows, OnDire), Count(rows, DireWon),
        SumOf(rows, HeroDamage))
      && r.totals.radGames + r.totals.direGames == r.totals.total
      && r.totals.radWins + r.totals.direWins == r.totals.wins
      && r.mostKillsGame == KillsScan(rows).best
      && (r.mostPlayedHero.None? <==> rows == [])
      && r.mostPlayedHero == FirstMax(Entries(Group(rows, HeroOf, 0, Bump)), GamesOf)
      && (r.mostPlayedHero.Some? ==> MostPlayedOf(rows, r.mostPlayedHero.value.0, r.mostPlayedHero.value.1))
  {
    var rows := YearRows(matches, YearStart(year), YearStart(year + 1));
    var totals, heroCounts, mostKillsMatch := AggregateYear(rows);
    YearTotalsAddUp(rows);
    MostPlayedNullIffEmpty(rows);
    MostPlayedHero(rows);
    var mostPlayed := MostPlayed(heroCounts);
    r := YearSummary(totals, mostPlayed, mostKillsMatch);
  }
}
