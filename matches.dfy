/**
 * A player's match rows as the summary routes read them, and the per-match
 * quantities they aggregate: the win rule, sides, party size, the stats used
 * with a `?? 0` fallback, histogram buckets, and the per-hero and per-lane
 * counters kept in insertion-ordered maps.
 */
module Matches {
  import opened Wrappers
  import opened Seqs
  import opened OrderedMap
  import opened Steam

  /** One projected row of the player's match list; absent numeric fields are `None`. */
  datatype Row = Row(
    matchId: int,
    startTime: int,
    playerSlot: int,
    heroId: int,
    radiantWin: bool,
    kills: Option<int>,
    deaths: Option<int>,
    assists: Option<int>,
    gpm: Option<int>,
    xpm: Option<int>,
    lastHits: Option<int>,
    denies: Option<int>,
    duration: Option<int>,
    heroDamage: Option<int>,
    towerDamage: Option<int>,
    lane: Option<int>,
    partySize: Option<int>)

  // ------------------------------------------------------------------ sides

  predicate OnRadiant(m: Row) { IsRadiant(m.playerSlot) }

  predicate OnDire(m: Row) { !IsRadiant(m.playerSlot) }

  /** The player won when their side is the side that won. */
  predicate Won(m: Row)
  {
    var r := IsRadiant(m.playerSlot);
    (m.radiantWin && r) || (!m.radiantWin && !r)
  }

  predicate Lost(m: Row) { !Won(m) }

  predicate RadiantWon(m: Row) { OnRadiant(m) && Won(m) }

  predicate DireWon(m: Row) { OnDire(m) && Won(m) }

  lemma WonIffSameSide(m: Row)
    ensures Won(m) <==> (m.radiantWin == (m.playerSlot < 128))
  {
  }

  /** A match is a party game when the party size, defaulting to 1, exceeds 1. */
  predicate IsParty(m: Row) { m.partySize.GetOr(1) > 1 }

  predicate IsSolo(m: Row) { !IsParty(m) }

  predicate PartyWon(m: Row) { IsParty(m) && Won(m) }

  predicate SoloWon(m: Row) { IsSolo(m) && Won(m) }

  // ------------------------------------------------------ stats, missing as 0

  function Kills(m: Row): int { m.kills.GetOr(0) }
  function Deaths(m: Row): int { m.deaths.GetOr(0) }
  function Assists(m: Row): int { m.assists.GetOr(0) }
  function Gpm(m: Row): int { m.gpm.GetOr(0) }
  function Xpm(m: Row): int { m.xpm.GetOr(0) }
  function LastHits(m: Row): int { m.lastHits.GetOr(0) }
  function Denies(m: Row): int { m.denies.GetOr(0) }
  function Duration(m: Row): int { m.duration.GetOr(0) }
  function HeroDamage(m: Row): int { m.heroDamage.GetOr(0) }
  function TowerDamage(m: Row): int { m.towerDamage.GetOr(0) }
  function StartTime(m: Row): int { m.startTime }
  function HeroOf(m: Row): int { m.heroId }

  /** Every match counts once. */
  function One(m: Row): int { 1 }

  // ---------------------------------------------------------------- records

  /** The fields a record keeps of the match that holds it. */
  datatype Record = Record(matchId: int, stat: int, heroId: int, startTime: int)

  function RecordOf(best: Option<Row>, f: Row -> int): (r: Option<Record>)
    ensures r.Some? <==> best.Some?
  {
    match best
    case None => None
    case Some(m) => Some(Record(m.matchId, f(m), m.heroId, m.startTime))
  }

  /**
   * The record kept by a strict `>` scan over `s` is absent only for no matches;
   * otherwise it is taken from the earliest match whose stat is maximal.
   */
  lemma RecordIsFirstMaximum(s: seq<Row>, f: Row -> int)
    ensures RecordOf(FirstMax(s, f), f).None? <==> s == []
    ensures RecordOf(FirstMax(s, f), f).Some? ==>
      var r := RecordOf(FirstMax(s, f), f).value;
      (forall j :: 0 <= j < |s| ==> f(s[j]) <= r.stat)
      && exists k :: 0 <= k < |s| && r.matchId == s[k].matchId && r.stat == f(s[k])
                 && (forall j :: 0 <= j < k ==> f(s[j]) < r.stat)
  {
    FirstMaxIsFirstMaximum(s, f);
  }

  // ------------------------------------------------------------- histograms

  /** `Math.floor(v / 100) * 100` (Dafny's division rounds down for a positive divisor). */
  function Bucket(v: int): (b: int)
    ensures b <= v < b + 100
    ensures b % 100 == 0
  {
    (v / 100) * 100
  }

  function GpmBucket(m: Row): int { Bucket(Gpm(m)) }
  function XpmBucket(m: Row): int { Bucket(Xpm(m)) }

  /** One more match in a bucket. */
  function Bump(count: int, m: Row): int { count + 1 }

  function Identity(c: int): int { c }

  /** `addBin(map, value)`: increments the count of the value's bucket, starting from 0. */
  function AddBin(bins: OMap<int, int>, value: int): OMap<int, int>
  {
    var bucket := Bucket(value);
    Set(bins, bucket, Get(bins, bucket).GetOr(0) + 1)
  }

  /** `addBin` on a match's stat is one step of grouping the matches by that stat's bucket. */
  lemma AddBinStep(s: seq<Row>, m: Row, bucketOf: Row -> int, value: int)
    requires bucketOf(m) == Bucket(value)
    ensures AddBin(Group(s, bucketOf, 0, Bump), value) == Group(s + [m], bucketOf, 0, Bump)
  {
    GroupSnoc(s, m, bucketOf, 0, Bump);
  }

  lemma {:induction false} FoldBump(s: seq<Row>)
    ensures Fold(s, 0, Bump) == |s|
  {
    if s != [] {
      FoldBump(s[..|s| - 1]);
    }
  }

  /**
   * A histogram built by `Bump` holds, for each bucket, the number of matches
   * in it, and the counts add up to the number of matches.
   */
  lemma BinCounts(s: seq<Row>, bucketOf: Row -> int, b: int)
    requires b in KeySet(s, bucketOf)
    ensures b in Group(s, bucketOf, 0, Bump).vals
    ensures Group(s, bucketOf, 0, Bump).vals[b] == Count(s, KeyIs(bucketOf, b))
    ensures Valid(Group(s, bucketOf, 0, Bump))
    ensures SumValues(Group(s, bucketOf, 0, Bump), Identity) == |s|
  {
    GroupValue(s, bucketOf, 0, Bump, b);
    FoldBump(Filter(s, KeyIs(bucketOf, b)));
    GroupSum(s, bucketOf, 0, Bump, Identity, One);
    SumOfOne(s);
  }

  lemma {:induction false} SumOfOne(s: seq<Row>)
    ensures SumOf(s, One) == |s|
  {
    if s != [] {
      SumOfOne(s[..|s| - 1]);
    }
  }

  // ----------------------------------------------------------------- heroes

  /** The per-hero counters of the advanced summary. */
  datatype HeroAgg = HeroAgg(games: int, wins: int, kills: int, deaths: int, assists: int)

  const HeroZero := HeroAgg(0, 0, 0, 0, 0)

  function AddHeroMatch(h: HeroAgg, m: Row): HeroAgg
  {
    HeroAgg(h.games + 1, if Won(m) then h.wins + 1 else h.wins,
            h.kills + Kills(m), h.deaths + Deaths(m), h.assists + Assists(m))
  }

  function Games(h: HeroAgg): int { h.games }

  /** Reading, stepping and writing back the match's hero entry is one step of grouping by hero. */
  lemma HeroStep(s: seq<Row>, m: Row)
    ensures var g := Group(s, HeroOf, HeroZero, AddHeroMatch);
      Set(g, m.heroId, AddHeroMatch(Get(g, m.heroId).GetOr(HeroZero), m))
        == Group(s + [m], HeroOf, HeroZero, AddHeroMatch)
  {
    GroupSnoc(s, m, HeroOf, HeroZero, AddHeroMatch);
  }

  lemma {:induction false} FoldHeroes(s: seq<Row>)
    ensures Fold(s, HeroZero, AddHeroMatch)
         == HeroAgg(|s|, Count(s, Won), SumOf(s, Kills), SumOf(s, Deaths), SumOf(s, Assists))
  {
    if s != [] {
      FoldHeroes(s[..|s| - 1]);
    }
  }

  /**
   * Each hero's counters are the number of its matches, the wins among them and
   * the summed kills, deaths and assists; the games over all heroes add up to
   * the number of matches, and there is one entry per distinct hero.
   */
  lemma HeroCounters(s: seq<Row>, hero: int)
    requires hero in KeySet(s, HeroOf)
    ensures hero in Group(s, HeroOf, HeroZero, AddHeroMatch).vals
    ensures var mine := Filter(s, KeyIs(HeroOf, hero));
      Group(s, HeroOf, HeroZero, AddHeroMatch).vals[hero]
        == HeroAgg(Count(s, KeyIs(HeroOf, hero)), Count(mine, Won),
                   SumOf(mine, Kills), SumOf(mine, Deaths), SumOf(mine, Assists))
    ensures Valid(Group(s, HeroOf, HeroZero, AddHeroMatch))
    ensures SumValues(Group(s, HeroOf, HeroZero, AddHeroMatch), Games) == |s|
    ensures |Group(s, HeroOf, HeroZero, AddHeroMatch).keys| == |KeySet(s, HeroOf)|
  {
    GroupValue(s, HeroOf, HeroZero, AddHeroMatch, hero);
    FoldHeroes(Filter(s, KeyIs(HeroOf, hero)));
    GroupSum(s, HeroOf, HeroZero, AddHeroMatch, Games, One);
    SumOfOne(s);
    GroupSize(s, HeroOf, HeroZero, AddHeroMatch);
  }

  // ------------------------------------------------------------------ lanes

  /** The per-lane counters of the advanced summary. */
  datatype LaneAgg = LaneAgg(games: int, wins: int)

  const LaneZero := LaneAgg(0, 0)

  function AddLaneMatch(l: LaneAgg, m: Row): LaneAgg
  {
    LaneAgg(l.games + 1, if Won(m) then l.wins + 1 else l.wins)
  }

  function LaneGames(l: LaneAgg): int { l.games }

  /**
   * `LANE_NAME[m.lane ?? 0] ?? "unknown"`, with the lane-name table (defined
   * in the OpenDota client, not part of this model) as `laneNames`.
   */
  function LaneName(laneNames: map<int, string>, m: Row): (name: string)
    ensures m.lane.GetOr(0) in laneNames ==> name == laneNames[m.lane.GetOr(0)]
    ensures m.lane.GetOr(0) !in laneNames ==> name == "unknown"
  {
    var code := m.lane.GetOr(0);
    if code in laneNames then laneNames[code] else "unknown"
  }

  function LaneKeyOf(laneNames: map<int, string>): Row -> string
  {
    m => LaneName(laneNames, m)
  }

  /** Reading, stepping and writing back the match's lane entry is one step of grouping by lane. */
  lemma LaneStep(s: seq<Row>, m: Row, laneNames: map<int, string>)
    ensures var g := Group(s, LaneKeyOf(laneNames), LaneZero, AddLaneMatch);
      var lane := LaneName(laneNames, m);
      Set(g, lane, AddLaneMatch(Get(g, lane).GetOr(LaneZero), m))
        == Group(s + [m], LaneKeyOf(laneNames), LaneZero, AddLaneMatch)
  {
    GroupSnoc(s, m, LaneKeyOf(laneNames), LaneZero, AddLaneMatch);
  }

  lemma {:induction false} FoldLanes(s: seq<Row>)
    ensures Fold(s, LaneZero, AddLaneMatch) == LaneAgg(|s|, Count(s, Won))
  {
    if s != [] {
      FoldLanes(s[..|s| - 1]);
    }
  }

  /**
   * Each lane's counters are its number of matches and the wins among them, and
   * the games over all lanes add up to the number of matches.
   */
  lemma LaneCounters(s: seq<Row>, laneNames: map<int, string>, lane: string)
    requires lane in KeySet(s, LaneKeyOf(laneNames))
    ensures lane in Group(s, LaneKeyOf(laneNames), LaneZero, AddLaneMatch).vals
    ensures Group(s, LaneKeyOf(laneNames), LaneZero, AddLaneMatch).vals[lane]
         == LaneAgg(Count(s, KeyIs(LaneKeyOf(laneNames), lane)),
                    Count(Filter(s, KeyIs(LaneKeyOf(laneNames), lane)), Won))
    ensures Valid(Group(s, LaneKeyOf(laneNames), LaneZero, AddLaneMatch))
    ensures SumValues(Group(s, LaneKeyOf(laneNames), LaneZero, AddLaneMatch), LaneGames) == |s|
  {
    GroupValue(s, LaneKeyOf(laneNames), LaneZero, AddLaneMatch, lane);
    FoldLanes(Filter(s, KeyIs(LaneKeyOf(laneNames), lane)));
    GroupSum(s, LaneKeyOf(laneNames), LaneZero, AddLaneMatch, LaneGames, One);
    SumOfOne(s);
  }

  /** A match whose lane code has no name is counted under "unknown". */
  lemma UnknownLane(s: seq<Row>, laneNames: map<int, string>, i: int)
    requires 0 <= i < |s| && s[i].lane.GetOr(0) !in laneNames
    ensures "unknown" in Group(s, LaneKeyOf(laneNames), LaneZero, AddLaneMatch).vals
    ensures Group(s, LaneKeyOf(laneNames), LaneZero, AddLaneMatch).vals["unknown"].games >= 1
  {
    KeySetHas(s, LaneKeyOf(laneNames), i);
    LaneCounters(s, laneNames, "unknown");
    CountPositive(s, KeyIs(LaneKeyOf(laneNames), "unknown"));
  }

  // ------------------------------------------------------------- partitions

  /** Every match is on exactly one side, so the side counts split the totals. */
  lemma {:induction false} SidesPartition(s: seq<Row>)
    ensures Count(s, OnRadiant) + Count(s, OnDire) == |s|
    ensures Count(s, RadiantWon) + Count(s, DireWon) == Count(s, Won)
  {
    if s != [] {
      SidesPartition(s[..|s| - 1]);
    }
  }

  /** Every match is either solo or party, so those counts split the totals too. */
  lemma {:induction false} SoloPartyPartition(s: seq<Row>)
    ensures Count(s, IsSolo) + Count(s, IsParty) == |s|
    ensures Count(s, SoloWon) + Count(s, PartyWon) == Count(s, Won)
  {
    if s != [] {
      SoloPartyPartition(s[..|s| - 1]);
    }
  }

  // ---------------------------------------------------------------- streaks

  /** The current win and loss streaks are never both running. */
  lemma CurrentStreaksExclusive(s: seq<Row>)
    ensures TrailingRun(s, Won) == 0 || TrailingRun(s, Lost) == 0
  {
  }

  /** With no losses the longest losing streak is 0 and the winning streak covers all matches. */
  lemma AllWinsStreaks(s: seq<Row>)
    requires forall k :: 0 <= k < |s| ==> Won(s[k])
    ensures LongestRun(s, Won) == |s|
    ensures LongestRun(s, Lost) == 0
  {
    LongestRunOfAll(s, Won);
    LongestRunOfNone(s, Lost);
  }

  /** When wins and losses strictly alternate, both longest streaks are 1. */
  lemma AlternatingStreaks(s: seq<Row>)
    requires |s| >= 2
    requires forall k :: 0 <= k < |s| - 1 ==> Won(s[k]) != Won(s[k + 1])
    ensures LongestRun(s, Won) == 1
    ensures LongestRun(s, Lost) == 1
  {
    LongestRunAlternating(s, Won);
    LongestRunAlternating(s, Lost);
  }
}
