/**
 * The "deep" pass of the advanced summary (apps/api/src/routes/summary-advanced.ts):
 * for the most recent `deepLimit` matches it fetches the match detail, finds
 * the player's row, and either adds that row's wards, healing, stuns,
 * purchases and farm profile to the running totals or, when the row has none
 * of those fields, optionally asks for the match to be parsed. A failed fetch
 * is skipped and a 429 status raises the rate-limit flag.
 *
 * The fetches run through a bounded-concurrency mapper; every update is a sum
 * or a flag that is only ever set, so the pass is modelled as a sequential
 * loop over the targets. The outcome of each fetch and parse request is input
 * data: one `Attempt` per target, in the targets' order.
 */
module DeepStats {
  import opened Wrappers
  import opened Seqs
  import opened StableSort
  import opened Matches

  // ----------------------------------------------------------------- targets

  /** `deepLimit > 0 ? sortedByTime.slice(-deepLimit) : []`. */
  function DeepTargets(sorted: seq<Row>, deepLimit: nat): (targets: seq<Row>)
    ensures |targets| == if deepLimit < |sorted| then deepLimit else |sorted|
    ensures sorted == sorted[..|sorted| - |targets|] + targets
  {
    if deepLimit == 0 then []
    else if deepLimit >= |sorted| then sorted
    else sorted[|sorted| - deepLimit..]
  }

  /** Over matches sorted by start time, no match left out started after a target. */
  lemma DeepTargetsAreMostRecent(sorted: seq<Row>, deepLimit: nat)
    requires SortedBy(sorted, StartTime)
    ensures var targets := DeepTargets(sorted, deepLimit);
      forall i, j :: 0 <= i < |sorted| - |targets| <= j < |sorted| ==> sorted[i].startTime <= sorted[j].startTime
  {
  }

  // ------------------------------------------------------------- match data

  /** One entry of a player's `purchase_log`. */
  datatype Purchase = Purchase(key: Option<string>)

  /** The fields of a player row in a match detail that the pass reads; `None` is null or absent. */
  datatype Player = Player(
    accountId: Option<int>,
    obsPlaced: Option<int>,
    senPlaced: Option<int>,
    obsKilled: Option<int>,
    senKilled: Option<int>,
    purchaseLog: Option<seq<Purchase>>,
    goldT: Option<seq<int>>,
    healing: Option<int>,
    heroHealing: Option<int>,
    stuns: Option<real>)

  /** What fetching a match detail gave: an error with its HTTP status, if any, or the players. */
  datatype Fetch = Failed(status: Option<int>) | Fetched(players: Option<seq<Player>>)

  /** The outcome of the calls for one target: the detail fetch and, if made, the parse request. */
  datatype Attempt = Attempt(fetch: Fetch, parseOk: bool)

  /** `players.find(pl => pl.account_id === accountId)`: the first row with that account id. */
  function FindPlayer(players: seq<Player>, accountId: int): (p: Option<Player>)
    ensures p.None? <==> forall i :: 0 <= i < |players| ==> players[i].accountId != Some(accountId)
    ensures p.Some? ==> exists i :: 0 <= i < |players| && players[i] == p.value
                          && p.value.accountId == Some(accountId)
                          && forall j :: 0 <= j < i ==> players[j].accountId != Some(accountId)
  {
    if players == [] then None
    else if players[0].accountId == Some(accountId) then Some(players[0])
    else
      var p := FindPlayer(players[1..], accountId);
      assert forall i :: 0 <= i < |players| - 1 ==> players[1..][i] == players[i + 1];
      p
  }

  /** The player row exists and carries at least one of the fields the pass reads. */
  predicate HasUseful(p: Option<Player>)
  {
    p.Some? &&
    (p.value.obsPlaced.Some? || p.value.senPlaced.Some? || p.value.obsKilled.Some? ||
     p.value.senKilled.Some? || p.value.purchaseLog.Some? || p.value.goldT.Some? ||
     p.value.healing.Some? || p.value.heroHealing.Some? || p.value.stuns.Some?)
  }

  /** `Math.round`: the nearest integer, halves rounded up. */
  function Round(x: real): (n: int)
    ensures x - 0.5 < n as real <= x + 0.5
  {
    (x + 0.5).Floor
  }

  // --------------------------------------------------------------- purchases

  datatype Purchases = Purchases(smoke: int, dust: int, obs: int, sen: int)

  /** `String(it?.key ?? "")`. */
  function ItemKey(it: Purchase): string { it.key.GetOr("") }

  predicate IsSmoke(it: Purchase) { ItemKey(it) == "smoke_of_deceit" }
  predicate IsDust(it: Purchase) { ItemKey(it) == "dust" || ItemKey(it) == "dust_of_appearance" }
  predicate IsObserver(it: Purchase) { ItemKey(it) == "ward_observer" }
  predicate IsSentry(it: Purchase) { ItemKey(it) == "ward_sentry" }

  /** The counters after the purchase loop has gone over `log`. */
  function TallyPurchases(c: Purchases, log: seq<Purchase>): Purchases
  {
    if log == [] then c else
      var t := TallyPurchases(c, log[..|log| - 1]);
      var it := log[|log| - 1];
      Purchases(if IsSmoke(it) then t.smoke + 1 else t.smoke,
                if IsDust(it) then t.dust + 1 else t.dust,
                if IsObserver(it) then t.obs + 1 else t.obs,
                if IsSentry(it) then t.sen + 1 else t.sen)
  }

  /** Each counter goes up by the number of items with its key(s). */
  lemma {:induction false} TallyPurchasesCounts(c: Purchases, log: seq<Purchase>)
    ensures TallyPurchases(c, log)
         == Purchases(c.smoke + Count(log, IsSmoke), c.dust + Count(log, IsDust),
                      c.obs + Count(log, IsObserver), c.sen + Count(log, IsSentry))
  {
    if log != [] {
      TallyPurchasesCounts(c, log[..|log| - 1]);
    }
  }

  /** The counters raised by the number of items of each kind in `log`. */
  function AddPurchases(c: Purchases, log: seq<Purchase>): Purchases
  {
    Purchases(c.smoke + Count(log, IsSmoke), c.dust + Count(log, IsDust),
              c.obs + Count(log, IsObserver), c.sen + Count(log, IsSentry))
  }

  predicate Tracked(it: Purchase) { IsSmoke(it) || IsDust(it) || IsObserver(it) || IsSentry(it) }
  predicate SmokeOrDust(it: Purchase) { IsSmoke(it) || IsDust(it) }
  predicate Ward(it: Purchase) { IsObserver(it) || IsSentry(it) }

  /** No item counts twice: the four counters together grow by at most the log's length. */
  lemma PurchasesAtMostLog(log: seq<Purchase>)
    ensures Count(log, IsSmoke) + Count(log, IsDust) + Count(log, IsObserver) + Count(log, IsSentry)
         == Count(log, Tracked)
    ensures Count(log, Tracked) <= |log|
  {
    KindsDisjoint();
    CountPartition(log, IsSmoke, IsDust, SmokeOrDust);
    CountPartition(log, IsObserver, IsSentry, Ward);
    CountPartition(log, SmokeOrDust, Ward, Tracked);
  }

  /** The item keys of the four counters are all different. */
  lemma KindsDisjoint()
    ensures forall it :: !(IsSmoke(it) && IsDust(it))
    ensures forall it :: !(IsObserver(it) && IsSentry(it))
    ensures forall it :: !(SmokeOrDust(it) && Ward(it))
  {
    assert "smoke_of_deceit"[0] != "dust"[0] && "smoke_of_deceit"[0] != "dust_of_appearance"[0];
    assert "ward_observer"[5] != "ward_sentry"[5];
    assert "smoke_of_deceit"[0] != "ward_observer"[0] && "smoke_of_deceit"[0] != "ward_sentry"[0];
    assert "dust"[0] != "ward_observer"[0] && "dust_of_appearance"[0] != "ward_sentry"[0];
  }

  /** The `for (const it of p.purchase_log)` loop. */
  method CountPurchases(c: Purchases, log: seq<Purchase>) returns (r: Purchases)
    ensures r == Purchases(c.smoke + Count(log, IsSmoke), c.dust + Count(log, IsDust),
                           c.obs + Count(log, IsObserver), c.sen + Count(log, IsSentry))
  {
    r := c;
    for i := 0 to |log|
      invariant r == TallyPurchases(c, log[..i])
    {
      assert log[..i + 1][..i] == log[..i];
      var key := ItemKey(log[i]);
      if key == "smoke_of_deceit" { r := r.(smoke := r.smoke + 1); }
      if key == "dust" || key == "dust_of_appearance" { r := r.(dust := r.dust + 1); }
      if key == "ward_observer" { r := r.(obs := r.obs + 1); }
      if key == "ward_sentry" { r := r.(sen := r.sen + 1); }
    }
    assert log[..|log|] == log;
    TallyPurchasesCounts(c, log);
  }

  // ------------------------------------------------------------ farm profile

  function Min(a: int, b: int): int { if a < b then a else b }
  function Max(a: int, b: int): int { if a < b then b else a }

  /** Whole minutes covered by a `gold_t` series (it starts at minute 0). */
  function Mins(g: seq<int>): int { |g| - 1 }

  /** `seg(from, to)`: net-worth gained between two minutes, each capped at the last, never negative. */
  function Seg(g: seq<int>, from: nat, to: nat): (gain: int)
    requires |g| > 1
    ensures gain >= 0
    ensures gain >= g[Min(to, Mins(g))] - g[Min(from, Mins(g))]
    ensures gain == 0 || gain == g[Min(to, Mins(g))] - g[Min(from, Mins(g))]
  {
    Max(0, g[Min(to, Mins(g))] - g[Min(from, Mins(g))])
  }

  /** The three divisors; none is below 1, so no rate divides by zero. */
  function EarlyMinutes(mins: int): (d: int)
    ensures d >= 1 && (1 <= mins <= 10 ==> d == mins) && (mins >= 10 ==> d == 10)
  {
    Max(1, Min(10, mins))
  }

  function MidMinutes(mins: int): (d: int)
    ensures d >= 1 && (11 <= mins <= 25 ==> d == mins - 10) && (mins >= 25 ==> d == 15)
  {
    Max(1, Min(15, Max(0, mins - 10)))
  }

  function LateMinutes(mins: int): (d: int)
    ensures d >= 1 && (mins > 25 ==> d == mins - 25)
  {
    Max(1, Max(0, mins - 25))
  }

  /** Net-worth per minute in the early (0-10), mid (10-25) and late (25-end) game. */
  datatype Rates = Rates(early: real, mid: real, late: real)

  function FarmRates(g: seq<int>): Rates
    requires |g| > 1
  {
    var mins := Mins(g);
    Rates(Seg(g, 0, 10) as real / EarlyMinutes(mins) as real,
          Seg(g, 10, 25) as real / MidMinutes(mins) as real,
          Seg(g, 25, mins) as real / LateMinutes(mins) as real)
  }

  /** For a non-decreasing series the three segments add up to the whole gain. */
  lemma SegmentsTelescope(g: seq<int>)
    requires |g| > 1
    requires forall i, j :: 0 <= i <= j < |g| ==> g[i] <= g[j]
    ensures Seg(g, 0, 10) + Seg(g, 10, 25) + Seg(g, 25, Mins(g)) == g[Mins(g)] - g[0]
  {
    var mins := Mins(g);
    assert g[Min(0, mins)] <= g[Min(10, mins)] <= g[Min(25, mins)] <= g[Min(mins, mins)];
  }

  /** A series growing by `slope` every minute, over more than 25 minutes, farms at `slope` in every phase. */
  lemma LinearFarm(g: seq<int>, base: int, slope: nat)
    requires |g| > 26
    requires forall t :: 0 <= t < |g| ==> g[t] == base + slope * t
    ensures FarmRates(g) == Rates(slope as real, slope as real, slope as real)
  {
    var mins := Mins(g);
    assert Seg(g, 0, 10) == slope * 10;
    assert Seg(g, 10, 25) == slope * 15;
    assert g[mins] - g[25] == slope * (mins - 25) by {
      assert g[mins] == base + slope * mins;
    }
    DivCancel(slope as real, 10.0);
    DivCancel(slope as real, 15.0);
    DivCancel(slope as real, (mins - 25) as real);
  }

  lemma DivCancel(x: real, n: real)
    requires n > 0.0
    ensures (x * n) / n == x
  {
  }

  // -------------------------------------------------------------- deep pass

  datatype Wards = Wards(obsPlaced: int, senPlaced: int, obsKilled: int, senKilled: int)

  datatype Farm = Farm(early: real, mid: real, late: real, matchesUsed: nat)

  /** The `deep` object and the `rateLimited` flag. */
  datatype Deep = Deep(
    attempted: nat,
    withDetails: nat,
    parseRequested: nat,
    wards: Wards,
    healing: int,
    stuns: int,
    purchases: Purchases,
    farm: Farm,
    rateLimited: bool)

  /** The state before any target is visited. */
  function DeepStart(attempted: nat): Deep
  {
    Deep(attempted, 0, 0, Wards(0, 0, 0, 0), 0, 0, Purchases(0, 0, 0, 0), Farm(0.0, 0.0, 0.0, 0), false)
  }

  /** The player's row in a fetched detail (`detail?.players || []`). */
  function PlayerIn(f: Fetch, accountId: int): Option<Player>
    requires f.Fetched?
  {
    FindPlayer(f.players.GetOr([]), accountId)
  }

  /** The callback of the deep pass for one target. */
  function Visit(d: Deep, a: Attempt, accountId: int, parseIfMissing: bool): Deep
  {
    match a.fetch
    case Failed(status) => if status == Some(429) then d.(rateLimited := true) else d
    case Fetched(_) =>
      var p := PlayerIn(a.fetch, accountId);
      if !HasUseful(p) then
        if parseIfMissing && a.parseOk then d.(parseRequested := d.parseRequested + 1) else d
      else
        Detailed(d, p.value)
  }

  /** A useful player row added to the sums: one more detailed game. */
  function Detailed(d: Deep, pl: Player): Deep
  {
    d.(withDetails := d.withDetails + 1,
       wards := AddWards(d.wards, pl),
       healing := d.healing + pl.heroHealing.GetOr(pl.healing.GetOr(0)),
       stuns := d.stuns + Round(pl.stuns.GetOr(0.0)),
       purchases := if pl.purchaseLog.Some? then AddPurchases(d.purchases, pl.purchaseLog.value) else d.purchases,
       farm := if pl.goldT.Some? && |pl.goldT.value| > 1 then AddFarm(d.farm, pl.goldT.value) else d.farm)
  }

  /** The player's ward counts, missing as 0, added to the running sums. */
  function AddWards(w: Wards, pl: Player): Wards
  {
    Wards(w.obsPlaced + pl.obsPlaced.GetOr(0), w.senPlaced + pl.senPlaced.GetOr(0),
          w.obsKilled + pl.obsKilled.GetOr(0), w.senKilled + pl.senKilled.GetOr(0))
  }

  /** One more farm series: its three rates added to the sums. */
  function AddFarm(f: Farm, g: seq<int>): Farm
    requires |g| > 1
  {
    var r := FarmRates(g);
    Farm(f.early + r.early, f.mid + r.mid, f.late + r.late, f.matchesUsed + 1)
  }

  /** The state after visiting, in order, targets whose calls had the outcomes `attempts`. */
  function DeepOf(start: Deep, attempts: seq<Attempt>, accountId: int, parseIfMissing: bool): Deep
  {
    if attempts == [] then start
    else Visit(DeepOf(start, attempts[..|attempts| - 1], accountId, parseIfMissing),
               attempts[|attempts| - 1], accountId, parseIfMissing)
  }

  /** The fetch gave a player row with something useful in it. */
  function Useful(accountId: int): Attempt -> bool
  {
    (a: Attempt) => a.fetch.Fetched? && HasUseful(PlayerIn(a.fetch, accountId))
  }

  /** The fetch gave nothing useful, a parse was wanted and the request went through. */
  function Parsed(accountId: int, parseIfMissing: bool): Attempt -> bool
  {
    (a: Attempt) => a.fetch.Fetched? && !HasUseful(PlayerIn(a.fetch, accountId))
                    && parseIfMissing && a.parseOk
  }

  /** The useful row carries a `gold_t` series of more than one minute. */
  function Farmed(accountId: int): Attempt -> bool
  {
    (a: Attempt) => Useful(accountId)(a) && PlayerIn(a.fetch, accountId).value.goldT.Some?
                    && |PlayerIn(a.fetch, accountId).value.goldT.value| > 1
  }

  /** The fetch failed with status 429. */
  predicate Throttled(a: Attempt)
  {
    a.fetch == Failed(Some(429))
  }

  /**
   * What the pass counts: `with_details` is the number of targets with a useful
   * row, `parse_requested` the number without one whose parse request went
   * through (only when asked for), and `matches_used` the number of useful rows
   * with a farm series.
   */
  lemma {:induction false} DeepCounts(start: Deep, attempts: seq<Attempt>, accountId: int, parseIfMissing: bool)
    ensures var d := DeepOf(start, attempts, accountId, parseIfMissing);
      d.attempted == start.attempted
      && d.withDetails == start.withDetails + Count(attempts, Useful(accountId))
      && d.parseRequested == start.parseRequested + Count(attempts, Parsed(accountId, parseIfMissing))
      && d.farm.matchesUsed == start.farm.matchesUsed + Count(attempts, Farmed(accountId))
  {
    if attempts != [] {
      DeepCounts(start, attempts[..|attempts| - 1], accountId, parseIfMissing);
    }
  }

  /** The rate-limit flag is raised iff some fetch failed with status 429; nothing lowers it. */
  lemma {:induction false} DeepRateLimited(start: Deep, attempts: seq<Attempt>, accountId: int, parseIfMissing: bool)
    ensures DeepOf(start, attempts, accountId, parseIfMissing).rateLimited
        <==> start.rateLimited || exists i :: 0 <= i < |attempts| && Throttled(attempts[i])
  {
    if attempts != [] {
      var init := attempts[..|attempts| - 1];
      DeepRateLimited(start, init, accountId, parseIfMissing);
      if exists i :: 0 <= i < |init| && Throttled(init[i]) {
        var i :| 0 <= i < |init| && Throttled(init[i]);
        assert attempts[i] == init[i];
      }
      if exists i :: 0 <= i < |attempts| && Throttled(attempts[i]) {
        var i :| 0 <= i < |attempts| && Throttled(attempts[i]);
        if i < |init| {
          assert init[i] == attempts[i];
        }
      }
    }
  }

  /** `Useful`, `Parsed` and the rest never overlap: a target is counted at most once. */
  lemma {:induction false} DeepCountsBounded(attempts: seq<Attempt>, accountId: int, parseIfMissing: bool)
    ensures Count(attempts, Farmed(accountId)) <= Count(attempts, Useful(accountId))
    ensures Count(attempts, Useful(accountId)) + Count(attempts, Parsed(accountId, parseIfMissing)) <= |attempts|
  {
    if attempts != [] {
      DeepCountsBounded(attempts[..|attempts| - 1], accountId, parseIfMissing);
    }
  }

  /**
   * Over the deep targets, from the initial state: `matches_used <= with_details`
   * and `with_details + parse_requested <= attempted`.
   */
  lemma DeepMetaBounds(attempts: seq<Attempt>, accountId: int, parseIfMissing: bool)
    ensures var d := DeepOf(DeepStart(|attempts|), attempts, accountId, parseIfMissing);
      d.farm.matchesUsed <= d.withDetails && d.withDetails + d.parseRequested <= d.attempted
  {
    DeepCounts(DeepStart(|attempts|), attempts, accountId, parseIfMissing);
    DeepCountsBounded(attempts, accountId, parseIfMissing);
  }

  /** The per-target callback: one fetch outcome added to the running state. */
  method VisitTarget(d: Deep, a: Attempt, accountId: int, parseIfMissing: bool) returns (next: Deep)
    ensures next == Visit(d, a, accountId, parseIfMissing)
  {
    next := d;
    match a.fetch {
      case Failed(status) =>
        if status == Some(429) {
          next := next.(rateLimited := true);
        }
      case Fetched(players) =>
        var p := FindPlayer(players.GetOr([]), accountId);
        assert p == PlayerIn(a.fetch, accountId);
        if !HasUseful(p) {
          if parseIfMissing && a.parseOk {
            next := next.(parseRequested := next.parseRequested + 1);
          }
          return;
        }
        next := AddDetails(d, p.value);
    }
  }

  /** The block that adds a useful player row's wards, healing, stuns, purchases and farm. */
  method AddDetails(d: Deep, pl: Player) returns (next: Deep)
    ensures next == Detailed(d, pl)
  {
    var wards := AddWards(d.wards, pl);
    var healing := d.healing + pl.heroHealing.GetOr(pl.healing.GetOr(0));
    var stuns := d.stuns + Round(pl.stuns.GetOr(0.0));
    var purchases := d.purchases;
    if pl.purchaseLog.Some? {
      purchases := CountPurchases(purchases, pl.purchaseLog.value);
    }
    var farm := d.farm;
    var goldT := pl.goldT;
    if goldT.Some? && |goldT.value| > 1 {
      farm := AddFarm(farm, goldT.value);
    }
    next := d.(withDetails := d.withDetails + 1, wards := wards, healing := healing, stuns := stuns,
               purchases := purchases, farm := farm);
  }

  /**
   * The `mapWithConcurrency(deepTarget, ...)` pass, one target after another;
   * `attempts[i]` is what the calls for `targets[i]` gave.
   */
  method DeepPass(targets: seq<Row>, attempts: seq<Attempt>, accountId: int, parseIfMissing: bool)
    returns (d: Deep)
    requires |attempts| == |targets|
    ensures d == DeepOf(DeepStart(|targets|), attempts, accountId, parseIfMissing)
  {
    d := DeepStart(|targets|);
    for i := 0 to |targets|
      invariant d == DeepOf(DeepStart(|targets|), attempts[..i], accountId, parseIfMissing)
    {
      assert attempts[..i + 1][..i] == attempts[..i];
      d := VisitTarget(d, attempts[i], accountId, parseIfMissing);
    }
    assert attempts[..|targets|] == attempts;
  }

  // ------------------------------------------------------------- per game

  /** Ward averages per detailed game. */
  datatype PerGame = PerGame(obsPlaced: real, senPlaced: real, obsKilled: real, senKilled: real)

  /**
   * The guarded finalisation: the per-game wards are computed only when there
   * were targets and at least one detailed game, and the farm sums become
   * averages only when some game had a farm series; otherwise they stay as summed.
   */
  function Finalise(d: Deep): (r: (PerGame, Farm))
    ensures !(d.attempted > 0 && d.withDetails > 0) ==> r == (PerGame(0.0, 0.0, 0.0, 0.0), d.farm)
    ensures d.attempted > 0 && d.withDetails > 0 ==>
      var games := d.withDetails as real;
      r.0.obsPlaced * games == d.wards.obsPlaced as real && r.0.senPlaced * games == d.wards.senPlaced as real
      && r.0.obsKilled * games == d.wards.obsKilled as real && r.0.senKilled * games == d.wards.senKilled as real
    ensures r.1.matchesUsed == d.farm.matchesUsed
    ensures d.attempted > 0 && d.withDetails > 0 && d.farm.matchesUsed > 0 ==>
      var used := d.farm.matchesUsed as real;
      r.1.early * used == d.farm.early && r.1.mid * used == d.farm.mid && r.1.late * used == d.farm.late
    ensures d.farm.matchesUsed == 0 ==> r.1 == d.farm
  {
    if d.attempted > 0 && d.withDetails > 0 then
      var games := d.withDetails as real;
      var w := d.wards;
      var perGame := PerGame(w.obsPlaced as real / games, w.senPlaced as real / games,
                             w.obsKilled as real / games, w.senKilled as real / games);
      if d.farm.matchesUsed > 0 then
        var used := d.farm.matchesUsed as real;
        (perGame, Farm(d.farm.early / used, d.farm.mid / used, d.farm.late / used, d.farm.matchesUsed))
      else (perGame, d.farm)
    else (PerGame(0.0, 0.0, 0.0, 0.0), d.farm)
  }

  /** After the pass, `with_details > 0` already implies there were targets; the first guard is redundant. */
  lemma DetailsImplyTargets(attempts: seq<Attempt>, accountId: int, parseIfMissing: bool)
    ensures var d := DeepOf(DeepStart(|attempts|), attempts, accountId, parseIfMissing);
      d.withDetails > 0 ==> d.attempted > 0
  {
    DeepMetaBounds(attempts, accountId, parseIfMissing);
  }
}
