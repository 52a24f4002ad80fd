# dota-rewind in Dafny

A verified model of the logic behind the dota-rewind API. The API turns a
player's Dota 2 match history, as fetched from OpenDota, into a "year in review"
summary.

The model covers the parts of the API that compute something:

- **Match analytics.** `apps/api/src/routes/summary-advanced.ts` has a
  timestamp window and a stable sort by start time. One pass over the sorted
  matches keeps:
  - totals;
  - radiant and dire splits;
  - win and loss streaks;
  - five "record" slots;
  - per-hero and per-lane counters;
  - two GPM/XPM histograms with buckets 100 wide.

  Projections follow: the top three heroes, hero diversity and the sorted
  histograms. A solo/party split is counted separately. A "deep" pass over the
  most recent matches reads each match's detail: ward counts, healing, stuns,
  purchase counts by item key, and a farm profile cut at minutes 10 and 25.
- **The year summary.** `apps/api/src/routes/summary.ts` is an older and
  smaller version of the same pass. It uses a half-open calendar-year window,
  a most-kills scan seeded with -1 and a most-played-hero scan over an
  insertion-ordered map.
- **Player-identifier resolution.** `apps/api/src/routes/resolve.ts` trims the
  input and sorts it into one of seven shapes:
  - a profile URL or a vanity URL;
  - a SteamID64;
  - a 32-bit account id;
  - `STEAM_X:Y:Z`;
  - `[U:1:N]`;
  - a free-text name.

  Every shape except a name or a vanity URL resolves to an id pair, by exact
  big-integer arithmetic against the base 76561197960265728.
- **Utilities.** `toAccountId` and `isRadiant` (`utils/steam.ts`), the range
  helpers (`utils/time.ts`), the queue filters (`utils/queue.ts`), and the TTL
  cache `cacheWrap` over a module-level map (`utils/cache.ts`).

## Layout

**Shared modules**
- `Wrappers`: `Option`.
- `Seqs`: counting, sums, filtering, folds, the first maximum, and runs.
- `Decimal`: decimal text and the big-integer values it denotes.
- `OrderedMap`: a JavaScript `Map` with insertion-ordered keys, and grouping a
  sequence into one.
- `StableSort`: `Array.prototype.sort` with an integer key. It is stable, as
  the language requires.

**Source modules**
- `Steam`, `Resolve`, `Time`, `Queue` and `Cache` follow their source files.
- `Matches` holds the match row and the rules the two summary routes share:
  - who won;
  - sides and parties;
  - records;
  - buckets;
  - hero and lane counters;
  - streaks.
- `SummaryAdvanced` and `DeepStats` are the advanced route: its main pass and
  its deep pass.
- `Summary` is the year route.

**How loops are modelled**
- The source's loops are methods with loop invariants. Each is proved equal to
  a specification function: a fold, a grouping or a scan.
- Lemmas prove what those functions mean: counts, sums, maxima and runs.
- The cache's store is a field of a class, and its method updates the field in
  place.

Fetched data is input to the model: the match rows, the match details, and
whether a parse request succeeded. So are the clock readings and the constants
the source imports but does not define. These are `LANE_NAME`,
`GAME_MODE.TURBO`, `LOBBY.RANKED` and `LOBBY.NORMAL`.

## Model

| member | source | states |
|---|---|---|
| Steam.ToAccountId | apps/api/src/utils/steam.ts:2-5 | the account id is the decimal text of the SteamID64's value minus 76561197960265728; it is "0" exactly for the base and starts with '-' exactly below it (no lower-bound check) |
| Steam.RadiantSlots | apps/api/src/utils/steam.ts:8-11 | slots 0-127 are Radiant and 128-255 Dire; 127 is Radiant, 128 is Dire |
| Resolve.ToSteam64From32 | apps/api/src/routes/resolve.ts:10-13 | the result is signed decimal text whose value is the base plus the account id, canonical for non-negative ids |
| Resolve.To32FromSteam64 | apps/api/src/routes/resolve.ts:14-16 | the result is signed decimal text whose value is the SteamID64's value minus the base |
| Resolve.To32AgreesWithToAccountId | apps/api/src/routes/resolve.ts:14-16 | the route's conversion and `toAccountId` from utils/steam.ts give the same text on every digit string |
| Resolve.AccountIdRoundTrip | apps/api/src/routes/resolve.ts:7-16 | account id to SteamID64 and back returns the account id's text |
| Resolve.Steam64RoundTrip | apps/api/src/routes/resolve.ts:7-16 | any canonical SteamID64, below the base too, goes to an account id and back to the same text |
| Resolve.TrimStart | apps/api/src/routes/resolve.ts:33 | the result is a suffix of the input that does not start with whitespace, and every character dropped before it is whitespace |
| Resolve.TrimEnd | apps/api/src/routes/resolve.ts:33 | the result is a prefix of the input that does not end with whitespace, and every character dropped after it is whitespace |
| Resolve.Trim | apps/api/src/routes/resolve.ts:33 | the trimmed string is no longer than the input, neither starts nor ends with whitespace, and is empty exactly when the input is all whitespace |
| Resolve.TrimEmpty | apps/api/src/routes/resolve.ts:33 | trimming both ends leaves nothing exactly when every character is whitespace |
| Resolve.TrimMiddle | apps/api/src/routes/resolve.ts:33 | the trimmed string is a middle part `s[i..j]` of the input, and every character before `i` and from `j` on is whitespace |
| Resolve.TrimKeeps | apps/api/src/routes/resolve.ts:33 | a stretch of the input that starts and ends with non-whitespace lies inside the trimmed string |
| Resolve.TrimUnchanged | apps/api/src/routes/resolve.ts:33 | trimming a string without surrounding whitespace leaves it as it is |
| Resolve.SegmentRun | apps/api/src/routes/resolve.ts:35 | the run `[^\/\s#?]+` is greedy: all its characters are segment characters and the next one is not |
| Resolve.MatchUrlAt | apps/api/src/routes/resolve.ts:34-36 | a URL match at a position starts with an 'h' in either case |
| Resolve.FindUrlNeedsH | apps/api/src/routes/resolve.ts:34-36 | the unanchored search finds a URL only where an 'h' stands |
| Resolve.NoUrlWithoutH | apps/api/src/routes/resolve.ts:34-36 | text with no 'h' has no URL match |
| Resolve.UrlAtStart | apps/api/src/routes/resolve.ts:34-36 | a match at the very start is the leftmost match and its groups are returned |
| Resolve.NoHMeansAnchored | apps/api/src/routes/resolve.ts:37-44 | without an 'h' neither URL rule applies |
| Resolve.FindUrlSkips | apps/api/src/routes/resolve.ts:34-36 | the leftmost search passes over any stretch without an 'h' |
| Resolve.FindUrlIn | apps/api/src/routes/resolve.ts:33-36 | after trimming, the leftmost URL match in `pre + host + path + seg + tail` is that URL, for any host `http://` or `https://steamcommunity.com/` in any case, a path `profiles/` or `id/` in any case, text before it without an 'h' and a tail that is empty or starts with a character ending the segment |
| Resolve.ParseProfileUrl | apps/api/src/routes/resolve.ts:33-40 | a profile URL with 17 digits, in any case, after `http` or `https`, with any text before it that holds no 'h', and ended by the end of the text or a character that ends the segment, is a profile URL with those digits |
| Resolve.ParseVanityUrl | apps/api/src/routes/resolve.ts:33-43 | the same for `/id/` followed by any segment: a vanity URL with that segment |
| Resolve.ProfilesUrlWithBadIdIsName | apps/api/src/routes/resolve.ts:38-63 | a `/profiles/` URL whose segment is not exactly 17 digits falls through every later rule to a name holding the whole trimmed input |
| Resolve.ParseIgnoresSurroundingSpace | apps/api/src/routes/resolve.ts:33 | surrounding whitespace never changes the classification |
| Resolve.ParseUnpadded | apps/api/src/routes/resolve.ts:32-64 | unpadded text goes through the URL rules first, then the anchored rules in order |
| Resolve.HRulesOutAnchoredShapes | apps/api/src/routes/resolve.ts:46-61 | text holding an 'h' is neither a digit string nor a Steam2 nor a Steam3 id |
| Resolve.ParseDigitStrings | apps/api/src/routes/resolve.ts:46-63 | a trimmed digit string of 17 digits is a SteamID64, of 1-10 digits an account id, and of any other length a name |
| Resolve.DigitsAreNoUrl | apps/api/src/routes/resolve.ts:34-44 | a digit string matches neither URL rule |
| Resolve.DigitsAnchored | apps/api/src/routes/resolve.ts:46-63 | the anchored rules classify a digit string by its length alone |
| Resolve.Steam2TextMatches | apps/api/src/routes/resolve.ts:50 | `STEAM_X:Y:Z` with X in 0..5, Y in 0..1, the prefix in any case and Z any non-empty digit text (leading zeros included) matches with groups X, Y and the value of Z |
| Resolve.ParseSteam2 | apps/api/src/routes/resolve.ts:50-58 | such text parses to the Steam2 shape with X, Y and the value of Z |
| Resolve.DispatchSteam2 | apps/api/src/routes/resolve.ts:119-126 | a Steam2 id is answered with account id Z*2 + Y in decimal, the SteamID64 computed from it, and source "steam2" |
| Resolve.ResolveSteam2 | apps/api/src/routes/resolve.ts:119-126 | such text resolves to account id Value(Z)*2 + Y in decimal and the SteamID64 computed from it, with source "steam2" |
| Resolve.Steam2LeadingZeros | apps/api/src/routes/resolve.ts:50-58 | `STEAM_0:1:007` parses to Steam2(0, 1, 7) and is answered with account id "15" |
| Resolve.ResolveAsSteam2 | apps/api/src/routes/resolve.ts:119-126 | input classified as Steam2(X, Y, Z) is answered with account id Z*2 + Y and the SteamID64 computed from it |
| Resolve.ParseSteam3 | apps/api/src/routes/resolve.ts:60-61 | `[U:1:N]` or `[u:1:N]` parses to the Steam3 shape with the digits N |
| Resolve.ResolveSteam3 | apps/api/src/routes/resolve.ts:111-117 | `[U:1:N]` or `[u:1:N]` resolves to account id N and SteamID64 toSteam64From32(N), with source "steam3" |
| Resolve.ParseInputWellFormed | apps/api/src/routes/resolve.ts:32-64 | every id shape the classifier returns carries digit text, as its pattern demands |
| Resolve.Dispatch | apps/api/src/routes/resolve.ts:95-134 | each kind gets its own answer: a SteamID64 or profile URL keeps its id, gets `to32FromSteam64` of it and source "exact"; an account id keeps its text, gets `toSteam64From32` of it and "exact32"; a Steam3 id the same with "steam3"; a Steam2 id gets account id Z*2 + Y in decimal and "steam2"; a name searches for its text and a vanity URL for its segment; exact answers differ by the base |
| Resolve.ResolveInput | apps/api/src/routes/resolve.ts:87-138 | empty input is refused; any other input is classified and answered as `Dispatch` answers its kind; the "Unrecognized input format" branch is unreachable; names and vanity URLs become a search, and only they do; every exact answer pairs a SteamID64 and an account id that differ by the base |
| Resolve.ResolveParsed | apps/api/src/routes/resolve.ts:87-138 | non-empty input of a given kind is answered as that kind is dispatched |
| Decimal.ShowNat | apps/api/src/routes/resolve.ts:12 | `toString` of a non-negative integer is canonical digit text, starting with '0' only for 0 |
| Decimal.ValueOfShowNat | apps/api/src/routes/resolve.ts:12 | reading back the printed text gives the number |
| Decimal.ShowNatOfValue | apps/api/src/routes/resolve.ts:15 | printing the value of canonical digit text gives the text back |
| Decimal.ShowIntIsSigned | apps/api/src/routes/resolve.ts:15 | a negative or non-negative integer prints as signed text that reads back as itself |
| Time.RangeKeyToDays | apps/api/src/utils/time.ts:3-7 | 30 days exactly for "last_month", 180 exactly for "last_6_months", 365 for every other key |
| Time.RangeUnixBounds | apps/api/src/utils/time.ts:9-13 | `end` is the clock in whole seconds, rounded down; `end - start` is `days` days; `start <= end` for non-negative days |
| Queue.QueueToFilters | apps/api/src/utils/queue.ts:5-19 | a game mode is set exactly for "turbo" (to the turbo code); a lobby type exactly for "ranked" and "normal" (to their codes) |
| Queue.AtMostOneFilter | apps/api/src/utils/queue.ts:9-18 | no key sets both fields, and "all" sets neither |
| Cache.Wrap | apps/api/src/utils/cache.ts:3-14 | the producer runs exactly when there is no entry with expiry after `now`; a hit returns the stored value and leaves the map alone; a rejection propagates and stores nothing; a miss stores `{now + ttl*1000, val}` and returns `val`; only `key`'s entry can change and no entry is ever removed |
| Cache.ExpiryIsExclusive | apps/api/src/utils/cache.ts:10 | an entry whose expiry equals `now` is stale and the producer runs |
| Cache.RepeatWithinTtlHits | apps/api/src/utils/cache.ts:11-13 | after a successful miss, a call for the same key before the TTL elapses returns the stored value without running the producer |
| Cache.OtherKeysIndependent | apps/api/src/utils/cache.ts:12 | a call for one key neither adds, removes nor changes another key's entry |
| Cache.TtlCache.constructor | apps/api/src/utils/cache.ts:1 | the store starts empty |
| Cache.TtlCache.CacheWrap | apps/api/src/utils/cache.ts:3-14 | the method's new store, outcome and producer run are those of `Wrap` on the old store |
| OrderedMap.Get | apps/api/src/routes/summary-advanced.ts:181 | `get` finds a value exactly for stored keys, and it is the stored one |
| OrderedMap.Set | apps/api/src/routes/summary-advanced.ts:181 | `set` stores the value; an existing key keeps its place, a new key goes last |
| OrderedMap.GetAfterSet | apps/api/src/routes/summary-advanced.ts:270 | `set` reads back its value and leaves every other key's value alone |
| OrderedMap.Entries | apps/api/src/routes/summary.ts:85 | `entries()` lists each stored key with its value, in key order |
| OrderedMap.GroupValue | apps/api/src/routes/summary-advanced.ts:258-270 | after the read-step-write pass, each key holds the fold of the step over exactly the elements with that key, in order |
| OrderedMap.GroupKeys | apps/api/src/routes/summary-advanced.ts:258-270 | the stored keys are exactly the keys the elements carry |
| OrderedMap.GroupOrder | apps/api/src/routes/summary.ts:70 | map keys are ordered by the position of the first element carrying them |
| StableSort.SortBy | apps/api/src/routes/summary-advanced.ts:102 | the sorted copy is a permutation of the input |
| StableSort.SortBySorted | apps/api/src/routes/summary-advanced.ts:102 | the sorted copy is ascending by key |
| StableSort.SortByStable | apps/api/src/routes/summary-advanced.ts:102 | the elements with any one key keep their input order |
| StableSort.SortByPrefixIsLeast | apps/api/src/routes/summary-advanced.ts:293-295 | any prefix of the sorted copy is ascending, and no element outside it has a smaller key than one inside |
| Seqs.LongestRunIsUpperBound | apps/api/src/routes/summary-advanced.ts:191-201 | no run of matching elements is longer than the longest-run value |
| Seqs.LongestRunIsAttained | apps/api/src/routes/summary-advanced.ts:191-201 | the longest-run value is the length of an actual run |
| Seqs.TrailingRunIsRun | apps/api/src/routes/summary-advanced.ts:191-201 | the trailing-run value is the length of a run that ends the sequence |
| Matches.WonIffSameSide | apps/api/src/routes/summary-advanced.ts:190-191 | a match is won iff `radiant_win` equals "the player was on Radiant" |
| Matches.RecordIsFirstMaximum | apps/api/src/routes/summary-advanced.ts:212-246 | a strict-`>` record is null iff there are no matches; otherwise its value is at least the stat of every match, and it comes from the earliest match reaching it |
| Matches.Bucket | apps/api/src/routes/summary-advanced.ts:180 | the bucket is a multiple of 100 that is at most the value and more than the value minus 100 |
| Matches.AddBinStep | apps/api/src/routes/summary-advanced.ts:179-182 | `addBin` on a match's stat is one step of grouping the matches by bucket, with counts starting at 0 |
| Matches.BinCounts | apps/api/src/routes/summary-advanced.ts:254-255 | each bucket's count is the number of matches in it, and the counts sum to the number of matches |
| Matches.HeroStep | apps/api/src/routes/summary-advanced.ts:258-270 | the get-or-zero, increment and set of a hero entry is one grouping step |
| Matches.HeroCounters | apps/api/src/routes/summary-advanced.ts:258-270 | a hero's entry holds its games, the wins among them and the summed kills, deaths and assists; the games add up to the number of matches; there is one entry per distinct hero (`diversity`) |
| Matches.LaneName | apps/api/src/routes/summary-advanced.ts:273 | a lane code with a name gets that name, and any other code (missing as 0) gets "unknown" |
| Matches.LaneStep | apps/api/src/routes/summary-advanced.ts:273-277 | the get-or-zero, increment and set of a lane entry is one grouping step |
| Matches.LaneCounters | apps/api/src/routes/summary-advanced.ts:273-277 | a lane's entry holds its games and the wins among them, and the games add up to the number of matches |
| Matches.UnknownLane | apps/api/src/routes/summary-advanced.ts:273-277 | a match whose lane code has no name is counted under "unknown" |
| Matches.SidesPartition | apps/api/src/routes/summary-advanced.ts:203-209 | radiant plus dire matches is all matches, and radiant plus dire wins is all wins |
| Matches.SoloPartyPartition | apps/api/src/routes/summary-advanced.ts:463-475 | solo plus party matches is all matches, and the same holds for wins |
| Matches.CurrentStreaksExclusive | apps/api/src/routes/summary-advanced.ts:191-201 | the current win and loss streaks are never both positive |
| Matches.AllWinsStreaks | apps/api/src/routes/summary-advanced.ts:191-201 | with no losses, the longest win streak is every match and the longest loss streak is 0 |
| Matches.AlternatingStreaks | apps/api/src/routes/summary-advanced.ts:191-201 | strictly alternating wins and losses give both longest streaks 1 |
| SummaryAdvanced.WindowRows | apps/api/src/routes/summary-advanced.ts:99-101 | every kept row was fetched and starts within `[start, end]`, both ends included; as many rows are kept as satisfy the test |
| SummaryAdvanced.WindowKeepsInside | apps/api/src/routes/summary-advanced.ts:99-101 | no row inside the window is dropped |
| SummaryAdvanced.SortedByTimeIsStableSort | apps/api/src/routes/summary-advanced.ts:102 | `sortedByTime` is a permutation of the rows, ascending by start time, and keeps equal-time rows in fetched order |
| SummaryAdvanced.TotalsCount | apps/api/src/routes/summary-advanced.ts:185-188 | the totals are the number of matches and wins and the sums of duration, damage, GPM, XPM, last hits and denies (missing as 0) |
| SummaryAdvanced.SidesCount | apps/api/src/routes/summary-advanced.ts:203-209 | the side counters count the matches and the wins on each side |
| SummaryAdvanced.StreaksAreRuns | apps/api/src/routes/summary-advanced.ts:191-201 | `curWin`/`curLose` are the trailing runs and `bestWin`/`bestLose` the longest runs of wins and losses |
| SummaryAdvanced.ChallengeIsFirstMax | apps/api/src/routes/summary-advanced.ts:212-246 | one strict-`>` challenge extends the first maximum of a prefix to the first maximum of the longer prefix |
| SummaryAdvanced.RecordsAreFirstMaxima | apps/api/src/routes/summary-advanced.ts:212-246 | each of the five records comes from the first match with the greatest value of its stat |
| SummaryAdvanced.Aggregate | apps/api/src/routes/summary-advanced.ts:184-278 | the loop leaves totals, sides, streaks, records, hero and lane maps and both histograms equal to their specification folds and groupings |
| SummaryAdvanced.RankingPermutes | apps/api/src/routes/summary-advanced.ts:293-294 | the sorted hero entries are a permutation of the map's entries |
| SummaryAdvanced.TopHeroes | apps/api/src/routes/summary-advanced.ts:293-295 | exactly min(3, number of heroes played) heroes are kept |
| SummaryAdvanced.TopHeroesOrdered | apps/api/src/routes/summary-advanced.ts:293-295 | the top heroes come in order of non-increasing games |
| SummaryAdvanced.TopHeroesAreTop | apps/api/src/routes/summary-advanced.ts:293-295 | the top heroes are stored heroes, and none left out has more games than one kept |
| SummaryAdvanced.RankingKeepsTies | apps/api/src/routes/summary-advanced.ts:293-294 | heroes with equal games stay in map order, that is, in the order of their first match |
| SummaryAdvanced.Histogram | apps/api/src/routes/summary-advanced.ts:320-325 | the emitted bins are a permutation of the map's entries |
| SummaryAdvanced.HistogramAscending | apps/api/src/routes/summary-advanced.ts:320-325 | the emitted buckets are strictly ascending, so no bucket appears twice |
| SummaryAdvanced.HistogramEntry | apps/api/src/routes/summary-advanced.ts:320-325 | an emitted bin is a stored bucket with the number of matches in it |
| SummaryAdvanced.HistogramCounts | apps/api/src/routes/summary-advanced.ts:320-325 | each emitted count is the number of matches in its bucket, and the counts sum to the number of matches |
| SummaryAdvanced.SoloVsParty | apps/api/src/routes/summary-advanced.ts:459-475 | the loop counts the solo matches (party size, default 1, not above 1), the party matches and the wins of each |
| SummaryAdvanced.SoloPartyMatchTotals | apps/api/src/routes/summary-advanced.ts:459-487 | solo and party together match `totals.matches` and `totals.wins`, although they are counted over the unsorted rows |
| DeepStats.DeepTargets | apps/api/src/routes/summary-advanced.ts:328 | the targets are the last `min(deepLimit, n)` rows, none when `deepLimit` is 0 |
| DeepStats.DeepTargetsAreMostRecent | apps/api/src/routes/summary-advanced.ts:328 | over rows sorted by start time, no row left out started after a target |
| DeepStats.FindPlayer | apps/api/src/routes/summary-advanced.ts:359-361 | no player is found iff no row has the account id; a found row is one of the players |
| DeepStats.Round | apps/api/src/routes/summary-advanced.ts:396 | `Math.round` gives the integer within half of its argument, halves going up |
| DeepStats.TallyPurchasesCounts | apps/api/src/routes/summary-advanced.ts:399-408 | the purchase loop raises each counter by the number of items with its key(s) |
| DeepStats.KindsDisjoint | apps/api/src/routes/summary-advanced.ts:402-406 | no item key counts as two kinds |
| DeepStats.PurchasesAtMostLog | apps/api/src/routes/summary-advanced.ts:399-408 | the four counters together grow by at most the length of the log |
| DeepStats.CountPurchases | apps/api/src/routes/summary-advanced.ts:399-408 | the loop adds, to each counter, the number of items of its kind |
| DeepStats.Seg | apps/api/src/routes/summary-advanced.ts:414-418 | `seg` is never negative, and it is 0 or the gain between the two capped minutes, whichever is larger |
| DeepStats.EarlyMinutes | apps/api/src/routes/summary-advanced.ts:422 | the early divisor is at least 1 and is `min(10, mins)` when that is positive |
| DeepStats.MidMinutes | apps/api/src/routes/summary-advanced.ts:423-424 | the mid divisor is at least 1 and is `min(15, mins - 10)` when that is positive |
| DeepStats.LateMinutes | apps/api/src/routes/summary-advanced.ts:425 | the late divisor is at least 1 and is `mins - 25` beyond minute 25 |
| DeepStats.SegmentsTelescope | apps/api/src/routes/summary-advanced.ts:414-421 | for a non-decreasing series the three segments add up to the whole gain |
| DeepStats.LinearFarm | apps/api/src/routes/summary-advanced.ts:411-430 | a series growing by `slope` every minute, over more than 25 minutes, has all three rates equal to the slope |
| DeepStats.DeepCounts | apps/api/src/routes/summary-advanced.ts:356-435 | `with_details` counts the targets with a useful player row; `parse_requested` counts those without one whose parse request went through when asked for; `matches_used` counts the useful rows with a farm series; `attempted` is unchanged |
| DeepStats.DeepRateLimited | apps/api/src/routes/summary-advanced.ts:432 | `rateLimited` ends up set iff it was set or some fetch failed with status 429 |
| DeepStats.DeepCountsBounded | apps/api/src/routes/summary-advanced.ts:364-386 | farmed targets are among the useful ones, and no target is both useful and parse-requested |
| DeepStats.DeepMetaBounds | apps/api/src/routes/summary-advanced.ts:330-335 | after the pass, `matches_used <= with_details` and `with_details + parse_requested <= attempted` |
| DeepStats.VisitTarget | apps/api/src/routes/summary-advanced.ts:356-435 | the callback for one target computes the specification step `Visit` |
| DeepStats.AddDetails | apps/api/src/routes/summary-advanced.ts:386-430 | the block for a useful row adds its wards, healing, rounded stuns, purchases and farm rates, and counts one detailed game |
| DeepStats.DeepPass | apps/api/src/routes/summary-advanced.ts:356-435 | the pass over the targets, from the initial state with `attempted` set to their number, yields the fold of `Visit` over the outcomes of their calls, taken position by position so that two equal rows may fare differently |
| DeepStats.Finalise | apps/api/src/routes/summary-advanced.ts:437-456 | per-game wards are the sums divided by `with_details` only when there were targets and details; farm sums become averages only when, in addition, some game had a series; otherwise the per-game wards stay 0 and the farm sums stay as summed |
| DeepStats.DetailsImplyTargets | apps/api/src/routes/summary-advanced.ts:437 | after the pass, `with_details > 0` implies `attempted > 0` |
| Summary.YearStartGrows | apps/api/src/routes/summary.ts:32-33 | a later year begins later, by at least 365 days a year |
| Summary.YearRows | apps/api/src/routes/summary.ts:34-36 | every kept match was fetched and starts in `[start, end)`; as many are kept as satisfy the test |
| Summary.YearKeepsInside | apps/api/src/routes/summary.ts:34-36 | no match inside the year is dropped |
| Summary.YearWindowsDisjoint | apps/api/src/routes/summary.ts:32-36 | the windows of two different years share no match |
| Summary.YearWindowsCover | apps/api/src/routes/summary.ts:32-36 | every instant from 1970 on falls in some year's window |
| Summary.KillsScanNone | apps/api/src/routes/summary.ts:48-54 | the scan seeded with -1 records nothing iff every match has negative kills; a recorded game holds the running maximum |
| Summary.KillsScanIsFirstMax | apps/api/src/routes/summary.ts:71-79 | with no negative kills, the scan keeps the first match with the most kills, in input order |
| Summary.MostKillsNullIffEmpty | apps/api/src/routes/summary.ts:119-129 | with no negative kills, `most_kills_game` is null iff the year has no matches; otherwise it holds the maximum, from the first match reaching it |
| Summary.YearCounts | apps/api/src/routes/summary.ts:56-80 | the counters are the number of matches, the wins, the games and wins on each side, and the hero-damage sum |
| Summary.AggregateYear | apps/api/src/routes/summary.ts:56-81 | the loop leaves the counters, the hero-count map and the most-kills game equal to their specifications |
| Summary.YearTotalsAddUp | apps/api/src/routes/summary.ts:57-70 | radiant plus dire games is the total and radiant plus dire wins is the wins; the hero counts sum to the total |
| Summary.MostPlayed | apps/api/src/routes/summary.ts:84-88 | the second loop keeps the first entry with the largest count, in insertion order |
| Summary.HeroEntryAt | apps/api/src/routes/summary.ts:70 | each hero entry holds that hero's number of matches |
| Summary.HeroHasEntry | apps/api/src/routes/summary.ts:70 | every hero that was played has an entry |
| Summary.MostPlayedNullIffEmpty | apps/api/src/routes/summary.ts:112-118 | `most_played_hero` is null iff the year has no matches |
| Summary.TopEntryBeats | apps/api/src/routes/summary.ts:84-88 | the first entry with the largest count has at least any hero's count, and wins ties by first appearance |
| Summary.MostPlayedHero | apps/api/src/routes/summary.ts:84-88 | the kept hero was played the most, and among heroes played as often its first match comes first |
| Summary.Summarise | apps/api/src/routes/summary.ts:32-130 | the response's counters are those of the year's matches: the games, the wins, the Radiant games and wins, the Dire games and wins, and the hero damage sum; the sides add up; the most-kills game and most-played hero are those of the year's matches, with the null cases as above |

## Left out

- Floating point is not modelled, and neither is rounding:
  - the `toFixed(2)` winrates and averages;
  - `playtime_hours`;
  - the per-hero KDA.

  The model keeps the integer sums they are computed from. Farm rates and
  per-game ward averages are exact Dafny reals, with no double rounding.
- The concurrency of `mapWithConcurrency` (summary-advanced.ts:22-42) is not
  modelled: its shared index, parallel workers and swallowed exceptions. The
  deep pass is a sequential fold in target order. Its counters are sums, so
  order does not change them, apart from where the floating-point farm sums
  would round.
- The cache's duplicate-producer race, when two concurrent misses on one key
  both run the producer, is not modelled. `cacheWrap` is sequential, with the
  clock reading and the producer's outcome as parameters.
- Network calls are inputs to the model: the fetched rows, `getMatchDetail`'s
  players or error status, and whether `requestParse` succeeded. Three calls
  are not modelled at all:
  - `searchOpenDota` (resolve.ts:66-84), of which only the query it would be
    given is kept;
  - `getHeroNameMap`;
  - `getPlayerMatchesProjected`, including its filters and limits.
- Express routing, zod validation and `res.json` shaping are not modelled. The
  year route's `2012 <= year <= 2100` check is the one validation kept, as a
  precondition.
- The cache keys built from the query parameters, and the `cacheWrap` calls
  inside the advanced route (summary-advanced.ts:84-96), are not modelled. The
  cache is modelled once, on its own.
- `new Date(...).toISOString()` and the hero names in the responses are not
  modelled.
- Clocks are parameters:
  - `Date.now()` is a parameter of the cache and of the range bounds;
  - `Date.UTC(year, 0, 1) / 1000` is computed from a count of days, Gregorian
    leap years included.
- `LANE_NAME`, `GAME_MODE`, `LOBBY`, `getMatchDetail` and `requestParse` are
  imported from `apps/api/src/clients/opendota.ts` but are not defined there.
  The constants are parameters: a lane-name map and a record of codes.
- The `/summary-advanced` handler's own glue is not one member: query parsing,
  `toAccountId`, the range bounds, the queue filters and the response object.
  Each step is modelled and proved separately.
- A fractional or negative `deepLimit` is not modelled: it is a natural number.
- Match-row and player-row fields are integers, lists or absent. Values the API
  sends as other JSON types are not modelled:
  - `value || 0` in `addBin` is treated as `value ?? 0`;
  - a `purchase_log` entry that is null, or whose key is not a string, is
    read as an entry without a key. `String(it?.key ?? "")` would print a
    number or boolean key, which never equals one of the four item keys, so
    the counts are the same;
  - a `purchase_log` or `gold_t` that is present but not an array is read as
    absent, which is how `Array.isArray` makes the source treat it, both in
    the useful-row check and in the two loops;
  - an entry of `gold_t` that is not a number is not modelled (the series is
    a list of integers).
- Summary.KillsScanIsFirstMax: stated only for matches whose kills are never
  negative, which OpenDota data satisfies. With a negative value, the -1 seed
  of `mostKills` can beat the first match. KillsScanNone covers that case.
- Summary.MostKillsNullIffEmpty: stated only for kills that are never negative,
  for the same reason.
- SummaryAdvanced.RankingKeepsTies: stated with the sort key, which is minus
  the games, rather than with the games.
- Resolve.ResolveSteam2: the account number is an exact integer, and so is
  `2 * Z + Y`. The source works on doubles, which the model does not follow:
  - `parseInt` rounds account numbers above 2^53 to the nearest double;
  - an account number too long for a double parses to `Infinity`;
  - `String(account32)` switches to exponent notation at 1e21 and above,
    where the model prints every digit.
- Resolve.ParseProfileUrl: stated for text before the URL that holds no 'h'.
  Text before it with an 'h' that starts no URL gives the same result, but
  neither this lemma nor FindUrlSkips, which passes over text without an
  'h', states it. An earlier URL would be the match instead, by the
  leftmost-match rule.
- Resolve.ParseVanityUrl: stated for text before the URL that holds no 'h',
  for the same reason.
- Resolve.MatchUrlAt: the regular expressions are modelled one by one, as
  explicit searches and tests, not by a general regex engine. The `i` flag
  folds ASCII letters only, as it does without the `u` flag.
