/**
 * The `/resolve` route (apps/api/src/routes/resolve.ts): classify what a user
 * typed as one of seven identifier shapes, and turn the shapes that carry an
 * id into a SteamID64 / account id pair by exact big-integer arithmetic.
 */
module Resolve {
  import opened Wrappers
  import opened Decimal
  import opened Steam

  // ------------------------------------------------------------ conversions

  /** `toSteam64From32`: `BigInt(accountId)` plus the base, in decimal. */
  function ToSteam64From32(accountId: int): (steamid64: string)
    ensures IsSigned(steamid64) && SignedValue(steamid64) == STEAM64_BASE + accountId
    ensures accountId >= 0 ==> Canonical(steamid64)
  {
    ShowIntIsSigned(STEAM64_BASE + accountId);
    ShowInt(STEAM64_BASE + accountId)
  }

  /** `to32FromSteam64`: `BigInt(steam64)` minus the base, in decimal. */
  function To32FromSteam64(steam64: string): (accountId: string)
    requires IsDigits(steam64)
    ensures IsSigned(accountId) && SignedValue(accountId) == Value(steam64) - STEAM64_BASE
  {
    ShowIntIsSigned(Value(steam64) - STEAM64_BASE);
    ShowInt(Value(steam64) - STEAM64_BASE)
  }

  /** The route's conversion and the shared `toAccountId` helper agree on every input. */
  lemma To32AgreesWithToAccountId(steam64: string)
    requires IsDigits(steam64)
    ensures To32FromSteam64(steam64) == ToAccountId(steam64)
  {
  }

  /** Account id to SteamID64 and back gives the account id's own text. */
  lemma {:induction false} AccountIdRoundTrip(accountId: string)
    requires Canonical(accountId)
    ensures To32FromSteam64(ToSteam64From32(Value(accountId))) == accountId
  {
    ValueOfShowNat(STEAM64_BASE + Value(accountId));
    ShowNatOfValue(accountId);
  }

  /** SteamID64 to account id and back gives the SteamID64's own text. */
  lemma {:induction false} Steam64RoundTrip(steam64: string)
    requires Canonical(steam64)
    ensures ToSteam64From32(SignedValue(To32FromSteam64(steam64))) == steam64
  {
    ShowNatOfValue(steam64);
  }

  // ------------------------------------------------------------- characters

  /** Whitespace as both `String.prototype.trim` and the class `\s` see it. */
  predicate IsJsSpace(c: char)
  {
    c == '\t' || c == '\n' || c == '\U{B}' || c == '\U{C}' || c == '\r' || c == ' '
    || c == '\U{A0}' || c == '\U{1680}' || ('\U{2000}' <= c <= '\U{200A}')
    || c == '\U{2028}' || c == '\U{2029}' || c == '\U{202F}' || c == '\U{205F}'
    || c == '\U{3000}' || c == '\U{FEFF}'
  }

  /** Case folding of the `i` flag for the ASCII letters the patterns use. */
  function Lower(c: char): char
  {
    if 'A' <= c <= 'Z' then ((c as int) + 32) as char else c
  }

  predicate EqualsIgnoreCase(a: string, b: string)
  {
    |a| == |b| && forall i :: 0 <= i < |a| ==> Lower(a[i]) == Lower(b[i])
  }

  predicate StartsWithIgnoreCase(s: string, i: nat, lit: string)
  {
    i + |lit| <= |s| && EqualsIgnoreCase(s[i..i + |lit|], lit)
  }

  // --------------------------------------------------------------- trimming

  /** `trimStart`: only the leading whitespace is dropped. */
  function TrimStart(s: string): (r: string)
    ensures |r| <= |s| && r == s[|s| - |r|..]
    ensures forall k :: 0 <= k < |s| - |r| ==> IsJsSpace(s[k])
    ensures r == [] || !IsJsSpace(r[0])
  {
    if s != [] && IsJsSpace(s[0]) then
      var r := TrimStart(s[1..]);
      assert forall k :: 1 <= k < |s| - |r| ==> s[k] == s[1..][k - 1];
      r
    else s
  }

  /** `trimEnd`: only the trailing whitespace is dropped. */
  function TrimEnd(s: string): (r: string)
    ensures |r| <= |s| && r == s[..|r|]
    ensures forall k :: |r| <= k < |s| ==> IsJsSpace(s[k])
    ensures r == [] || !IsJsSpace(r[|r| - 1])
  {
    if s != [] && IsJsSpace(s[|s| - 1]) then
      var r := TrimEnd(s[..|s| - 1]);
      assert forall k :: |r| <= k < |s| - 1 ==> s[k] == s[..|s| - 1][k];
      r
    else s
  }

  /** Trimming the end of a suffix of `s` leaves a middle part of `s` with only whitespace after it. */
  lemma TrimEndOfSuffix(s: string, t: string)
    requires |t| <= |s| && t == s[|s| - |t|..]
    ensures |s| - |t| + |TrimEnd(t)| <= |s|
    ensures TrimEnd(t) == s[|s| - |t|..|s| - |t| + |TrimEnd(t)|]
    ensures forall k :: |s| - |t| + |TrimEnd(t)| <= k < |s| ==> IsJsSpace(s[k])
  {
    var i := |s| - |t|;
    forall k | i + |TrimEnd(t)| <= k < |s| ensures IsJsSpace(s[k]) {
      assert s[k] == t[k - i];
    }
  }

  /** `String.prototype.trim`: both ends of the result are not whitespace; `TrimMiddle` shows the result
      is a middle part of the text with only whitespace around it. */
  function Trim(s: string): (r: string)
    ensures |r| <= |s|
    ensures r == [] || (!IsJsSpace(r[0]) && !IsJsSpace(r[|r| - 1]))
    ensures r == [] <==> forall k :: 0 <= k < |s| ==> IsJsSpace(s[k])
  {
    var t := TrimStart(s);
    var r := TrimEnd(t);
    assert r != [] ==> r[0] == t[0];
    TrimEmpty(s, t);
    r
  }

  /** The trimmed text is empty exactly when every character of `s` is whitespace. */
  lemma TrimEmpty(s: string, t: string)
    requires t == TrimStart(s)
    ensures TrimEnd(t) == [] <==> forall k :: 0 <= k < |s| ==> IsJsSpace(s[k])
  {
    TrimEndOfSuffix(s, t);
    var i, r := |s| - |t|, TrimEnd(t);
    if r == [] {
      assert forall k :: 0 <= k < i ==> IsJsSpace(s[k]);
      assert forall k :: i <= k < |s| ==> IsJsSpace(s[k]);
    } else {
      assert s[i] == r[0] && !IsJsSpace(s[i]);
    }
  }

  /** Trimming keeps the middle part `s[i..j]` and removes only whitespace before `i` and from `j` on. */
  lemma TrimMiddle(s: string) returns (i: nat, j: nat)
    ensures i <= j <= |s| && Trim(s) == s[i..j]
    ensures forall k :: 0 <= k < i || j <= k < |s| ==> IsJsSpace(s[k])
  {
    var t := TrimStart(s);
    TrimEndOfSuffix(s, t);
    i, j := |s| - |t|, |s| - |t| + |TrimEnd(t)|;
    assert Trim(s) == s[i..j];
    assert forall k :: 0 <= k < i ==> IsJsSpace(s[k]);
  }

  /** Text that starts at `a` and ends before `b` without whitespace at either end survives trimming. */
  lemma TrimKeeps(raw: string, a: nat, b: nat) returns (i: nat, j: nat)
    requires a < b <= |raw| && !IsJsSpace(raw[a]) && !IsJsSpace(raw[b - 1])
    ensures i <= a && b <= j <= |raw| && Trim(raw) == raw[i..j]
  {
    i, j := TrimMiddle(raw);
  }

  /** Trimming a string without surrounding whitespace leaves it unchanged. */
  lemma TrimUnchanged(s: string)
    requires s == [] || (!IsJsSpace(s[0]) && !IsJsSpace(s[|s| - 1]))
    ensures Trim(s) == s
  {
  }

  // -------------------------------------------------------- profile URLs

  const HTTPS_HOST: string := "https://steamcommunity.com/"
  const HTTP_HOST: string := "http://steamcommunity.com/"
  const PROFILES_PATH: string := "profiles/"
  const ID_PATH: string := "id/"

  datatype UrlPath = Profiles | Id
  datatype UrlMatch = UrlMatch(path: UrlPath, segment: string)

  /** A character of the class `[^\/\s#?]`. */
  predicate IsSegmentChar(c: char)
  {
    c != '/' && c != '#' && c != '?' && !IsJsSpace(c)
  }

  /** Length of the greedy run of segment characters starting at `j`. */
  function SegmentRun(s: string, j: nat): (n: nat)
    requires j <= |s|
    ensures j + n <= |s|
    ensures forall k :: j <= k < j + n ==> IsSegmentChar(s[k])
    ensures j + n < |s| ==> !IsSegmentChar(s[j + n])
    decreases |s| - j
  {
    if j < |s| && IsSegmentChar(s[j]) then 1 + SegmentRun(s, j + 1) else 0
  }

  /** Path group and segment of the URL pattern when it matches at `j` (just after the host). */
  function MatchPathAt(s: string, j: nat): Option<UrlMatch>
    requires j <= |s|
  {
    if StartsWithIgnoreCase(s, j, PROFILES_PATH) && SegmentRun(s, j + 9) > 0 then
      Some(UrlMatch(Profiles, s[j + 9..j + 9 + SegmentRun(s, j + 9)]))
    else if StartsWithIgnoreCase(s, j, ID_PATH) && SegmentRun(s, j + 3) > 0 then
      Some(UrlMatch(Id, s[j + 3..j + 3 + SegmentRun(s, j + 3)]))
    else None
  }

  /**
   * The pattern `https?:\/\/steamcommunity\.com\/(profiles|id)\/([^\/\s#?]+)`
   * (case-insensitive) matched at position `i`. When the `https` host matches,
   * the `http` alternative cannot (it needs ':' where the 's' is).
   */
  function MatchUrlAt(s: string, i: nat): (m: Option<UrlMatch>)
    requires i <= |s|
    ensures m.Some? ==> i < |s| && Lower(s[i]) == 'h'
  {
    if StartsWithIgnoreCase(s, i, HTTPS_HOST) then
      assert Lower(s[i..i + |HTTPS_HOST|][0]) == Lower(HTTPS_HOST[0]);
      MatchPathAt(s, i + |HTTPS_HOST|)
    else if StartsWithIgnoreCase(s, i, HTTP_HOST) then
      assert Lower(s[i..i + |HTTP_HOST|][0]) == Lower(HTTP_HOST[0]);
      MatchPathAt(s, i + |HTTP_HOST|)
    else None
  }

  /** The leftmost match of the URL pattern at or after position `i` (`String.prototype.match`). */
  function FindUrl(s: string, i: nat): Option<UrlMatch>
    requires i <= |s|
    decreases |s| - i
  {
    var here := MatchUrlAt(s, i);
    if here.Some? then here
    else if i == |s| then None
    else FindUrl(s, i + 1)
  }

  /** A match is found only where an `h` stands. */
  lemma {:induction false} FindUrlNeedsH(s: string, i: nat) returns (k: nat)
    requires i <= |s| && FindUrl(s, i).Some?
    ensures i <= k < |s| && Lower(s[k]) == 'h'
    decreases |s| - i
  {
    if MatchUrlAt(s, i).Some? {
      k := i;
    } else {
      k := FindUrlNeedsH(s, i + 1);
    }
  }

  lemma {:induction false} NoUrlWithoutH(s: string, i: nat)
    requires i <= |s|
    requires forall k :: i <= k < |s| ==> Lower(s[k]) != 'h'
    ensures FindUrl(s, i) == None
    decreases |s| - i
  {
    if i < |s| {
      assert Lower(s[i]) != 'h';
      NoUrlWithoutH(s, i + 1);
    }
  }

  // ------------------------------------------------------- anchored shapes

  /** `^\d{17}$`. */
  predicate IsSteam64Text(s: string)
  {
    |s| == 17 && IsDigits(s)
  }

  /** `^\d{1,10}$`. */
  predicate IsAccount32Text(s: string)
  {
    1 <= |s| <= 10 && IsDigits(s)
  }

  const STEAM2_PREFIX: string := "STEAM_"

  /** `^STEAM_([0-5]):([01]):(\d+)$` (case-insensitive): universe, auth server, account number. */
  function MatchSteam2(s: string): Option<(nat, nat, nat)>
  {
    if |s| >= 11 && EqualsIgnoreCase(s[..6], STEAM2_PREFIX)
      && '0' <= s[6] <= '5' && s[7] == ':' && '0' <= s[8] <= '1' && s[9] == ':'
      && IsDigits(s[10..])
    then Some((DigitValue(s[6]), DigitValue(s[8]), Value(s[10..])))
    else None
  }

  /** `^\[U:1:(\d+)\]$` (case-insensitive): the account id digits. */
  function MatchSteam3(s: string): Option<string>
  {
    if |s| >= 7 && s[0] == '[' && Lower(s[1]) == 'u' && s[2] == ':' && s[3] == '1'
      && s[4] == ':' && IsDigits(s[5..|s| - 1]) && s[|s| - 1] == ']'
    then Some(s[5..|s| - 1])
    else None
  }

  // ------------------------------------------------------------ classifier

  datatype Parsed =
    | Steam64(steamid64: string)
    | Account32(accountId: string)
    | UrlProfiles(steamid64: string)
    | Steam2(universe: nat, authServer: nat, accountNumber: nat)
    | Steam3(account32: string)
    | Name(q: string)
    | UrlVanity(vanity: string)

  /** The two URL rules: a profile URL needs exactly 17 digits, a vanity URL any segment. */
  function UrlRule(s: string): Option<Parsed>
  {
    var url := FindUrl(s, 0);
    if url.Some? && url.value.path == Profiles && IsSteam64Text(url.value.segment) then
      Some(UrlProfiles(url.value.segment))
    else if url.Some? && url.value.path == Id then
      Some(UrlVanity(url.value.segment))
    else None
  }

  /** The anchored rules, tried in order, with a name as the fallback. */
  function AnchoredRule(s: string): Parsed
  {
    if IsSteam64Text(s) then
      Steam64(s)
    else if IsAccount32Text(s) then
      Account32(s)
    else if MatchSteam2(s).Some? then
      var (universe, authServer, accountNumber) := MatchSteam2(s).value;
      Steam2(universe, authServer, accountNumber)
    else if MatchSteam3(s).Some? then
      Steam3(MatchSteam3(s).value)
    else
      Name(s)
  }

  /** `parseInput`: the rules are tried in the source's order on the trimmed input. */
  function ParseInput(raw: string): Parsed
  {
    var s := Trim(raw);
    if UrlRule(s).Some? then UrlRule(s).value else AnchoredRule(s)
  }

  // --------------------------------------------------------------- dispatch

  datatype Resolution =
    | Exact(steamid64: string, accountId: string, source: string)
    | Search(query: string)
    | MissingInput
    | Unrecognized

  /** The text each id shape carries is made of digits, as its pattern demands. */
  predicate WellFormed(parsed: Parsed)
  {
    match parsed
    case Steam64(steamid64) => IsDigits(steamid64)
    case UrlProfiles(steamid64) => IsDigits(steamid64)
    case Account32(accountId) => IsDigits(accountId)
    case Steam3(account32) => IsDigits(account32)
    case _ => true
  }

  /** A URL rule yields a profile URL only with a 17-digit segment. */
  lemma UrlRuleWellFormed(s: string)
    ensures UrlRule(s).Some? ==> WellFormed(UrlRule(s).value)
  {
  }

  /** The Steam3 pattern captures digits only. */
  lemma AnchoredRuleWellFormed(s: string)
    ensures WellFormed(AnchoredRule(s))
  {
    if !IsSteam64Text(s) && !IsAccount32Text(s) && MatchSteam2(s).None? && MatchSteam3(s).Some? {
      assert AnchoredRule(s) == Steam3(s[5..|s| - 1]);
    }
  }

  /** Every shape the classifier returns carries well-formed id text. */
  lemma ParseInputWellFormed(raw: string)
    ensures WellFormed(ParseInput(raw))
  {
    var s := Trim(raw);
    UrlRuleWellFormed(s);
    AnchoredRuleWellFormed(s);
    assert ParseInput(raw) == if UrlRule(s).Some? then UrlRule(s).value else AnchoredRule(s);
  }

  /**
   * The handler's case analysis on the parsed kind: id shapes resolve exactly,
   * names and vanity URLs become a search query, and no kind is left over.
   */
  function Dispatch(parsed: Parsed): (r: Resolution)
    requires WellFormed(parsed)
    ensures r.Exact? || r.Search?
    ensures r.Search? <==> parsed.Name? || parsed.UrlVanity?
    ensures r.Exact? ==>
      (IsSigned(r.steamid64) && IsSigned(r.accountId)
       && SignedValue(r.steamid64) == STEAM64_BASE + SignedValue(r.accountId))
    ensures parsed.Steam64? || parsed.UrlProfiles? ==>
      r == Exact(parsed.steamid64, To32FromSteam64(parsed.steamid64), "exact")
    ensures parsed.Account32? ==>
      r == Exact(ToSteam64From32(Value(parsed.accountId)), parsed.accountId, "exact32")
    ensures parsed.Steam3? ==>
      r == Exact(ToSteam64From32(Value(parsed.account32)), parsed.account32, "steam3")
    ensures parsed.Steam2? ==>
      var account32 := parsed.accountNumber * 2 + parsed.authServer;
      r == Exact(ToSteam64From32(account32), ShowInt(account32), "steam2")
    ensures parsed.Name? ==> r == Search(parsed.q)
    ensures parsed.UrlVanity? ==> r == Search(parsed.vanity)
  {
    if parsed.Steam64? || parsed.UrlProfiles? then
      DigitsAreSigned(parsed.steamid64);
      Exact(parsed.steamid64, To32FromSteam64(parsed.steamid64), "exact")
    else if parsed.Account32? then
      DigitsAreSigned(parsed.accountId);
      Exact(ToSteam64From32(Value(parsed.accountId)), parsed.accountId, "exact32")
    else if parsed.Steam3? then
      DigitsAreSigned(parsed.account32);
      Exact(ToSteam64From32(Value(parsed.account32)), parsed.account32, "steam3")
    else if parsed.Steam2? then
      var account32 := parsed.accountNumber * 2 + parsed.authServer;
      ShowIntIsSigned(account32);
      Exact(ToSteam64From32(account32), ShowInt(account32), "steam2")
    else if parsed.UrlVanity? || parsed.Name? then
      Search(if parsed.UrlVanity? then parsed.vanity else parsed.q)
    else
      Unrecognized
  }

  /**
   * The `/resolve` handler without its search call: an empty `input` is refused,
   * id shapes resolve exactly, names and vanity URLs become a search query, and
   * the "Unrecognized input format" answer is never given.
   */
  function ResolveInput(input: string): (r: Resolution)
    ensures r.MissingInput? <==> input == ""
    ensures !r.Unrecognized?
    ensures r.Search? <==> input != "" && (ParseInput(input).Name? || ParseInput(input).UrlVanity?)
    ensures r.Exact? ==>
      (IsSigned(r.steamid64) && IsSigned(r.accountId)
       && SignedValue(r.steamid64) == STEAM64_BASE + SignedValue(r.accountId))
    ensures input != "" ==> WellFormed(ParseInput(input)) && r == Dispatch(ParseInput(input))
  {
    if input == "" then MissingInput
    else
      ParseInputWellFormed(input);
      Dispatch(ParseInput(input))
  }

  // ------------------------------------------------------ classifier facts

  /** Surrounding whitespace never changes the classification. */
  lemma ParseIgnoresSurroundingSpace(raw: string)
    ensures ParseInput(Trim(raw)) == ParseInput(raw)
  {
    TrimUnchanged(Trim(raw));
  }

  /** A string holding an `h` anywhere is neither a digit string nor a Steam2/Steam3 id. */
  lemma HRulesOutAnchoredShapes(s: string, k: nat)
    requires k < |s| && Lower(s[k]) == 'h'
    ensures !IsDigits(s) && MatchSteam2(s).None? && MatchSteam3(s).None?
  {
    assert !IsDigit(s[k]);
    if |s| >= 11 {
      if k < 6 {
        assert s[..6][k] == s[k];
        assert Lower(STEAM2_PREFIX[k]) != 'h';
      } else if k >= 10 {
        assert s[10..][k - 10] == s[k];
      }
    }
    if |s| >= 7 && 5 <= k < |s| - 1 {
      assert s[5..|s| - 1][k - 5] == s[k];
    }
  }

  /** Digit strings: 17 digits are a SteamID64, 1 to 10 an account id, any other length a name. */
  lemma ParseDigitStrings(raw: string)
    requires IsDigits(Trim(raw))
    ensures var s := Trim(raw);
      ParseInput(raw) == (if |s| == 17 then Steam64(s) else if 1 <= |s| <= 10 then Account32(s) else Name(s))
  {
    var s := Trim(raw);
    DigitsAreNoUrl(s);
    DigitsAnchored(s);
  }

  /** Text of digits holds no `h`, so no URL. */
  lemma DigitsAreNoUrl(s: string)
    requires IsDigits(s)
    ensures UrlRule(s).None?
  {
    forall k | 0 <= k < |s| ensures Lower(s[k]) != 'h' { assert IsDigit(s[k]); }
    NoUrlWithoutH(s, 0);
  }

  /** Text of digits is a Steam64 id, an account id or a name, by its length alone. */
  lemma DigitsAnchored(s: string)
    requires IsDigits(s)
    ensures AnchoredRule(s) == (if |s| == 17 then Steam64(s) else if 1 <= |s| <= 10 then Account32(s) else Name(s))
  {
    if |s| > 0 {
      assert IsDigit(s[0]);
      assert Lower(s[0]) == s[0];
      assert MatchSteam2(s).None? by {
        if |s| >= 11 { assert Lower(s[..6][0]) != Lower(STEAM2_PREFIX[0]); }
      }
      assert MatchSteam3(s).None?;
    }
  }

  /**
   * A `/profiles/` URL whose segment is not exactly 17 digits falls through
   * every later rule and is treated as a name: the whole trimmed input.
   */
  lemma ProfilesUrlWithBadIdIsName(raw: string)
    requires FindUrl(Trim(raw), 0).Some?
    requires FindUrl(Trim(raw), 0).value.path == Profiles
    requires !IsSteam64Text(FindUrl(Trim(raw), 0).value.segment)
    ensures ParseInput(raw) == Name(Trim(raw))
  {
    var s := Trim(raw);
    var k := FindUrlNeedsH(s, 0);
    HRulesOutAnchoredShapes(s, k);
    assert UrlRule(s).None?;
    assert AnchoredRule(s) == Name(s);
  }

  /** Input without surrounding whitespace goes to the rules as it is. */
  lemma ParseUnpadded(s: string)
    requires s != [] && !IsJsSpace(s[0]) && !IsJsSpace(s[|s| - 1])
    ensures ParseInput(s) == if UrlRule(s).Some? then UrlRule(s).value else AnchoredRule(s)
  {
    TrimUnchanged(s);
  }

  /** Untrimmed text that starts no URL is classified by its anchored rule. */
  lemma ParseAnchored(s: string, parsed: Parsed)
    requires s != [] && !IsJsSpace(s[0]) && !IsJsSpace(s[|s| - 1])
    requires UrlRule(s).None? && AnchoredRule(s) == parsed
    ensures ParseInput(s) == parsed
  {
    ParseUnpadded(s);
  }

  /** Text without any `h` is classified by the anchored rules alone. */
  lemma NoHMeansAnchored(s: string)
    requires forall k :: 0 <= k < |s| ==> Lower(s[k]) != 'h'
    ensures UrlRule(s).None?
  {
    NoUrlWithoutH(s, 0);
  }

  /** Where the URL pattern matches at the very start, that match is the leftmost one. */
  lemma UrlAtStart(s: string, path: UrlPath, segment: string)
    requires |HTTPS_HOST| <= |s| && s[..|HTTPS_HOST|] == HTTPS_HOST
    requires MatchPathAt(s, |HTTPS_HOST|) == Some(UrlMatch(path, segment))
    ensures FindUrl(s, 0) == Some(UrlMatch(path, segment))
  {
    assert s[0..|HTTPS_HOST|] == HTTPS_HOST;
    assert StartsWithIgnoreCase(s, 0, HTTPS_HOST);
  }

  /** Segment characters up to the end of the text are one run. */
  lemma {:induction false} SegmentRunToEnd(s: string, j: nat)
    requires j <= |s| && forall k :: j <= k < |s| ==> IsSegmentChar(s[k])
    ensures SegmentRun(s, j) == |s| - j
    decreases |s| - j
  {
    if j < |s| {
      SegmentRunToEnd(s, j + 1);
    }
  }

  /** A host as the pattern accepts it: `https://` or `http://` and the domain, in any letter case. */
  predicate IsHost(host: string)
  {
    EqualsIgnoreCase(host, HTTPS_HOST) || EqualsIgnoreCase(host, HTTP_HOST)
  }

  /** A URL pattern match cannot start where no `h` stands, so the search passes over such text. */
  lemma {:induction false} FindUrlSkips(s: string, i: nat, m: nat)
    requires i <= m <= |s|
    requires forall k :: i <= k < m ==> Lower(s[k]) != 'h'
    ensures FindUrl(s, i) == FindUrl(s, m)
    decreases m - i
  {
    if i < m {
      assert Lower(s[i]) != 'h';
      FindUrlSkips(s, i + 1, m);
    }
  }

  /** Either host, in any case, hands the match over to the path at the host's end. */
  lemma HostMatches(s: string, m: nat, host: string)
    requires IsHost(host) && m + |host| <= |s| && s[m..m + |host|] == host
    ensures MatchUrlAt(s, m) == MatchPathAt(s, m + |host|)
  {
    if !EqualsIgnoreCase(host, HTTPS_HOST) {
      assert Lower(host[4]) == ':';
      assert !StartsWithIgnoreCase(s, m, HTTPS_HOST) by {
        if m + |HTTPS_HOST| <= |s| {
          assert s[m..m + |HTTPS_HOST|][4] == s[m + 4] == host[4];
        }
      }
    }
  }

  /** The greedy run is exactly `seg` when the end of the text or a non-segment character follows it. */
  lemma {:induction false} SegmentRunIs(s: string, j: nat, seg: string)
    requires j + |seg| <= |s| && s[j..j + |seg|] == seg
    requires forall k :: 0 <= k < |seg| ==> IsSegmentChar(seg[k])
    requires j + |seg| == |s| || !IsSegmentChar(s[j + |seg|])
    ensures SegmentRun(s, j) == |seg|
    decreases |seg|
  {
    if seg != [] {
      assert s[j] == seg[0];
      assert s[j + 1..j + |seg|] == seg[1..];
      SegmentRunIs(s, j + 1, seg[1..]);
    }
  }

  /** The path group the pattern captures for a path text. */
  function PathOf(path: string): UrlPath
  {
    if EqualsIgnoreCase(path, PROFILES_PATH) then Profiles else Id
  }

  /** `profiles/` or `id/`, in any case, then a whole segment: both groups as they stand in the text. */
  lemma PathMatches(s: string, p: nat, path: string, seg: string)
    requires EqualsIgnoreCase(path, PROFILES_PATH) || EqualsIgnoreCase(path, ID_PATH)
    requires p + |path| + |seg| <= |s| && s[p..p + |path|] == path && s[p + |path|..p + |path| + |seg|] == seg
    requires |seg| >= 1 && forall k :: 0 <= k < |seg| ==> IsSegmentChar(seg[k])
    requires p + |path| + |seg| == |s| || !IsSegmentChar(s[p + |path| + |seg|])
    ensures MatchPathAt(s, p) == Some(UrlMatch(PathOf(path), seg))
  {
    SegmentRunIs(s, p + |path|, seg);
    if !EqualsIgnoreCase(path, PROFILES_PATH) {
      assert !StartsWithIgnoreCase(s, p, PROFILES_PATH) by {
        assert Lower(s[p]) == Lower(path[0]) == 'i';
        if p + |PROFILES_PATH| <= |s| {
          assert s[p..p + |PROFILES_PATH|][0] == s[p];
        }
      }
    }
  }

  /** A part found at `i + q` in a text is found at `q` in the slice from `i`. */
  lemma SliceKeepsPart(raw: string, i: nat, j: nat, q: nat, part: string)
    requires i + q + |part| <= j <= |raw| && raw[i + q..i + q + |part|] == part
    ensures raw[i..j][q..q + |part|] == part
  {
    forall k | 0 <= k < |part| ensures raw[i..j][q + k] == part[k] {
      assert raw[i + q..i + q + |part|][k] == part[k];
    }
  }

  /** Where the parts of `pre + host + path + seg + tail` stand. */
  lemma UrlParts(pre: string, host: string, path: string, seg: string, tail: string)
    ensures var raw, a := pre + host + path + seg + tail, |pre|;
      raw[a..a + |host|] == host
      && raw[a + |host|..a + |host| + |path|] == path
      && raw[a + |host| + |path|..a + |host| + |path| + |seg|] == seg
      && raw[a + |host| + |path| + |seg|..] == tail
  {
    var raw, a := pre + host + path + seg + tail, |pre|;
    assert raw == pre + (host + (path + (seg + tail)));
    var r1 := host + (path + (seg + tail));
    assert raw[a..] == r1;
    assert r1[|host|..] == path + (seg + tail);
  }

  /** Where no `h` stands before a host at `m` and the path matches after it, the search finds that match. */
  lemma FindUrlAtHost(s: string, m: nat, host: string, r: Option<UrlMatch>)
    requires IsHost(host) && m + |host| <= |s| && s[m..m + |host|] == host
    requires forall k :: 0 <= k < m ==> Lower(s[k]) != 'h'
    requires MatchPathAt(s, m + |host|) == r && r.Some?
    ensures FindUrl(s, 0) == r
  {
    HostMatches(s, m, host);
    FindUrlSkips(s, 0, m);
  }

  /** In the slice from `i` to `j`, the parts of a URL stand `i` places earlier. */
  lemma SliceKeepsUrl(raw: string, i: nat, j: nat, a: nat, host: string, path: string, seg: string)
    requires i <= a && a + |host| + |path| + |seg| <= j <= |raw|
    requires forall k :: i <= k < a ==> Lower(raw[k]) != 'h'
    requires raw[a..a + |host|] == host
    requires raw[a + |host|..a + |host| + |path|] == path
    requires raw[a + |host| + |path|..a + |host| + |path| + |seg|] == seg
    requires a + |host| + |path| + |seg| == j || !IsSegmentChar(raw[a + |host| + |path| + |seg|])
    ensures var s, m := raw[i..j], a - i;
      (forall k :: 0 <= k < m ==> Lower(s[k]) != 'h')
      && m + |host| + |path| + |seg| <= |s|
      && s[m..m + |host|] == host
      && s[m + |host|..m + |host| + |path|] == path
      && s[m + |host| + |path|..m + |host| + |path| + |seg|] == seg
      && (m + |host| + |path| + |seg| == |s| || !IsSegmentChar(s[m + |host| + |path| + |seg|]))
  {
    var b := a + |host| + |path| + |seg|;
    var s := raw[i..j];
    var m := a - i;
    var p := m + |host|;
    var q := p + |path|;
    forall k | 0 <= k < m ensures Lower(s[k]) != 'h' {
      assert s[k] == raw[i + k];
    }
    SliceKeepsPart(raw, i, j, m, host);
    SliceKeepsPart(raw, i, j, p, path);
    SliceKeepsPart(raw, i, j, q, seg);
    if b < j {
      assert s[q + |seg|] == raw[b];
    }
  }

  /** Trimming keeps a URL whose host starts with `h` and whose segment ends in a segment character. */
  lemma TrimKeepsUrl(raw: string, a: nat, host: string, path: string, seg: string) returns (i: nat, j: nat)
    requires a + |host| + |path| + |seg| <= |raw|
    requires |host| >= 1 && Lower(host[0]) == 'h' && raw[a..a + |host|] == host
    requires |seg| >= 1 && IsSegmentChar(seg[|seg| - 1])
    requires raw[a + |host| + |path|..a + |host| + |path| + |seg|] == seg
    ensures i <= a && a + |host| + |path| + |seg| <= j <= |raw| && Trim(raw) == raw[i..j]
  {
    var b := a + |host| + |path| + |seg|;
    assert raw[a] == raw[a..a + |host|][0];
    assert raw[b - 1] == raw[a + |host| + |path|..b][|seg| - 1];
    i, j := TrimKeeps(raw, a, b);
  }

  /** In the slice from `i` to `j`, the host stands at `a - i` and the path pattern matches after it. */
  lemma SliceUrl(raw: string, i: nat, j: nat, a: nat, host: string, path: string, seg: string, s: string, m: nat)
    requires i <= a && a + |host| + |path| + |seg| <= j <= |raw|
    requires s == raw[i..j] && m == a - i
    requires forall k :: i <= k < a ==> Lower(raw[k]) != 'h'
    requires EqualsIgnoreCase(path, PROFILES_PATH) || EqualsIgnoreCase(path, ID_PATH)
    requires |seg| >= 1 && forall k :: 0 <= k < |seg| ==> IsSegmentChar(seg[k])
    requires raw[a..a + |host|] == host
    requires raw[a + |host|..a + |host| + |path|] == path
    requires raw[a + |host| + |path|..a + |host| + |path| + |seg|] == seg
    requires a + |host| + |path| + |seg| == j || !IsSegmentChar(raw[a + |host| + |path| + |seg|])
    ensures m + |host| <= |s| && s[m..m + |host|] == host
    ensures forall k :: 0 <= k < m ==> Lower(s[k]) != 'h'
    ensures MatchPathAt(s, m + |host|) == Some(UrlMatch(PathOf(path), seg))
  {
    SliceKeepsUrl(raw, i, j, a, host, path, seg);
    PathMatches(s, m + |host|, path, seg);
  }

  /** The slice from `i` to `j` holding a URL with no `h` before its host has that URL as its leftmost match. */
  lemma FindUrlInSlice(raw: string, i: nat, j: nat, a: nat, host: string, path: string, seg: string)
    requires i <= a && a + |host| + |path| + |seg| <= j <= |raw|
    requires forall k :: i <= k < a ==> Lower(raw[k]) != 'h'
    requires IsHost(host)
    requires EqualsIgnoreCase(path, PROFILES_PATH) || EqualsIgnoreCase(path, ID_PATH)
    requires |seg| >= 1 && forall k :: 0 <= k < |seg| ==> IsSegmentChar(seg[k])
    requires raw[a..a + |host|] == host
    requires raw[a + |host|..a + |host| + |path|] == path
    requires raw[a + |host| + |path|..a + |host| + |path| + |seg|] == seg
    requires a + |host| + |path| + |seg| == j || !IsSegmentChar(raw[a + |host| + |path| + |seg|])
    ensures FindUrl(raw[i..j], 0) == Some(UrlMatch(PathOf(path), seg))
  {
    var s, m := raw[i..j], a - i;
    SliceUrl(raw, i, j, a, host, path, seg, s, m);
    FindUrlAtHost(s, m, host, Some(UrlMatch(PathOf(path), seg)));
  }

  /** A URL in text with no `h` before its host is still found after trimming. */
  lemma FindUrlTrimmed(raw: string, a: nat, host: string, path: string, seg: string)
    requires a + |host| + |path| + |seg| <= |raw|
    requires forall k :: 0 <= k < a ==> Lower(raw[k]) != 'h'
    requires IsHost(host)
    requires EqualsIgnoreCase(path, PROFILES_PATH) || EqualsIgnoreCase(path, ID_PATH)
    requires |seg| >= 1 && forall k :: 0 <= k < |seg| ==> IsSegmentChar(seg[k])
    requires raw[a..a + |host|] == host
    requires raw[a + |host|..a + |host| + |path|] == path
    requires raw[a + |host| + |path|..a + |host| + |path| + |seg|] == seg
    requires a + |host| + |path| + |seg| == |raw| || !IsSegmentChar(raw[a + |host| + |path| + |seg|])
    ensures FindUrl(Trim(raw), 0) == Some(UrlMatch(PathOf(path), seg))
  {
    assert |host| >= 1 && Lower(host[0]) == 'h';
    var i, j := TrimKeepsUrl(raw, a, host, path, seg);
    FindUrlInSlice(raw, i, j, a, host, path, seg);
  }

  /** The same for text written as `pre + host + path + seg + tail`. */
  lemma FindUrlIn(pre: string, host: string, path: string, seg: string, tail: string)
    requires forall k :: 0 <= k < |pre| ==> Lower(pre[k]) != 'h'
    requires IsHost(host)
    requires EqualsIgnoreCase(path, PROFILES_PATH) || EqualsIgnoreCase(path, ID_PATH)
    requires |seg| >= 1 && forall k :: 0 <= k < |seg| ==> IsSegmentChar(seg[k])
    requires tail == [] || !IsSegmentChar(tail[0])
    ensures FindUrl(Trim(pre + host + path + seg + tail), 0) == Some(UrlMatch(PathOf(path), seg))
  {
    var raw := pre + host + path + seg + tail;
    var a := |pre|;
    UrlParts(pre, host, path, seg, tail);
    forall k | 0 <= k < a ensures Lower(raw[k]) != 'h' {
      assert raw[k] == pre[k];
    }
    var b := a + |host| + |path| + |seg|;
    if b < |raw| {
      assert raw[b] == raw[b..][0] == tail[0];
    }
    FindUrlTrimmed(raw, a, host, path, seg);
  }

  /**
   * A profile URL with 17 digits, in any case and after `http` or `https`,
   * found anywhere in the text and followed by the end or a character that
   * ends the segment, is a profile URL with those digits.
   */
  lemma ParseProfileUrl(pre: string, host: string, path: string, id: string, tail: string)
    requires forall k :: 0 <= k < |pre| ==> Lower(pre[k]) != 'h'
    requires IsHost(host) && EqualsIgnoreCase(path, PROFILES_PATH)
    requires IsSteam64Text(id)
    requires tail == [] || !IsSegmentChar(tail[0])
    ensures ParseInput(pre + host + path + id + tail) == UrlProfiles(id)
  {
    forall k | 0 <= k < |id| ensures IsSegmentChar(id[k]) { assert IsDigit(id[k]); }
    FindUrlIn(pre, host, path, id, tail);
    var s := Trim(pre + host + path + id + tail);
    assert UrlRule(s) == Some(UrlProfiles(id));
  }

  /** The same for a vanity URL: it yields the whole segment after `id/`. */
  lemma ParseVanityUrl(pre: string, host: string, path: string, vanity: string, tail: string)
    requires forall k :: 0 <= k < |pre| ==> Lower(pre[k]) != 'h'
    requires IsHost(host) && EqualsIgnoreCase(path, ID_PATH)
    requires |vanity| >= 1 && forall k :: 0 <= k < |vanity| ==> IsSegmentChar(vanity[k])
    requires tail == [] || !IsSegmentChar(tail[0])
    ensures ParseInput(pre + host + path + vanity + tail) == UrlVanity(vanity)
  {
    assert Lower(path[0]) == 'i' && |path| == 3;
    assert !EqualsIgnoreCase(path, PROFILES_PATH);
    FindUrlIn(pre, host, path, vanity, tail);
    var s := Trim(pre + host + path + vanity + tail);
    assert UrlRule(s) == Some(UrlVanity(vanity));
  }

  /** The text of a Steam2 id, `STEAM_X:Y:Z`, with any letter case in the prefix and Z as typed. */
  function Steam2Text(prefix: string, universe: nat, authServer: nat, z: string): string
    requires universe <= 5 && authServer <= 1
  {
    prefix + [DigitChar(universe), ':', DigitChar(authServer), ':'] + z
  }

  /**
   * The parts of a Steam2 id as the pattern accepts them: the prefix in any letter case,
   * X in 0..5, Y in 0..1 and Z any non-empty digit text, leading zeros included.
   */
  predicate Steam2Parts(prefix: string, universe: nat, authServer: nat, z: string)
  {
    EqualsIgnoreCase(prefix, STEAM2_PREFIX) && universe <= 5 && authServer <= 1
    && |z| >= 1 && IsDigits(z)
  }

  /** The pattern matches with the groups X, Y and the value of Z, leading zeros included. */
  lemma Steam2TextMatches(prefix: string, universe: nat, authServer: nat, z: string)
    requires Steam2Parts(prefix, universe, authServer, z)
    ensures MatchSteam2(Steam2Text(prefix, universe, authServer, z))
      == Some((universe, authServer, Value(z)))
  {
    var s := Steam2Text(prefix, universe, authServer, z);
    assert s[..6] == prefix;
    assert s[10..] == z;
  }

  lemma Steam2TextHasNoH(prefix: string, universe: nat, authServer: nat, z: string)
    requires Steam2Parts(prefix, universe, authServer, z)
    ensures var s := Steam2Text(prefix, universe, authServer, z);
      forall k :: 0 <= k < |s| ==> Lower(s[k]) != 'h'
  {
    var s := Steam2Text(prefix, universe, authServer, z);
    forall k | 0 <= k < |s| ensures Lower(s[k]) != 'h' {
      if k < 6 {
        assert s[k] == prefix[k];
        assert Lower(prefix[k]) == Lower(STEAM2_PREFIX[k]);
      } else if k >= 10 {
        assert s[k] == z[k - 10];
        assert IsDigit(z[k - 10]);
      }
    }
  }

  /** `STEAM_X:Y:Z` parses to its three numbers; Z may carry leading zeros. */
  lemma ParseSteam2(prefix: string, universe: nat, authServer: nat, z: string)
    requires Steam2Parts(prefix, universe, authServer, z)
    ensures ParseInput(Steam2Text(prefix, universe, authServer, z))
      == Steam2(universe, authServer, Value(z))
  {
    Steam2TextEnds(prefix, universe, authServer, z);
    Steam2TextAnchored(prefix, universe, authServer, z);
    ParseAnchored(Steam2Text(prefix, universe, authServer, z), Steam2(universe, authServer, Value(z)));
  }

  /** A Steam2 text starts with a letter and ends with a digit, so trimming keeps it whole. */
  lemma Steam2TextEnds(prefix: string, universe: nat, authServer: nat, z: string)
    requires Steam2Parts(prefix, universe, authServer, z)
    ensures var s := Steam2Text(prefix, universe, authServer, z);
      s != [] && !IsJsSpace(s[0]) && !IsJsSpace(s[|s| - 1])
  {
    var s := Steam2Text(prefix, universe, authServer, z);
    assert s[0] == prefix[0] && Lower(prefix[0]) == Lower(STEAM2_PREFIX[0]);
    assert s[|s| - 1] == z[|z| - 1] && IsDigit(z[|z| - 1]);
  }

  /** A Steam2 text starts no URL and its anchored rule is the Steam2 one. */
  lemma Steam2TextAnchored(prefix: string, universe: nat, authServer: nat, z: string)
    requires Steam2Parts(prefix, universe, authServer, z)
    ensures var s := Steam2Text(prefix, universe, authServer, z);
      UrlRule(s).None? && AnchoredRule(s) == Steam2(universe, authServer, Value(z))
  {
    var s := Steam2Text(prefix, universe, authServer, z);
    assert s[0] == prefix[0] && Lower(prefix[0]) == Lower(STEAM2_PREFIX[0]);
    Steam2TextHasNoH(prefix, universe, authServer, z);
    NoHMeansAnchored(s);
    Steam2TextMatches(prefix, universe, authServer, z);
    assert !IsDigit(s[0]);
  }

  /** Non-empty input is answered as its classification is dispatched. */
  lemma ResolveParsed(input: string, parsed: Parsed)
    requires input != "" && ParseInput(input) == parsed
    ensures WellFormed(parsed) && ResolveInput(input) == Dispatch(parsed)
  {
    var r := ResolveInput(input);
    assert r == Dispatch(ParseInput(input));
  }

  /** `STEAM_X:Y:Z` resolves to account id `Z*2 + Y` and the matching SteamID64. */
  lemma ResolveSteam2(prefix: string, universe: nat, authServer: nat, z: string) returns (account32: nat)
    requires Steam2Parts(prefix, universe, authServer, z)
    ensures account32 == Value(z) * 2 + authServer
    ensures ResolveInput(Steam2Text(prefix, universe, authServer, z))
      == Exact(ToSteam64From32(account32), ShowNat(account32), "steam2")
  {
    account32 := Value(z) * 2 + authServer;
    ParseSteam2(prefix, universe, authServer, z);
    ResolveAsSteam2(Steam2Text(prefix, universe, authServer, z), universe, authServer, Value(z), account32);
  }

  /** `STEAM_0:1:007` reads Z as 7, so its account id is 15. */
  lemma Steam2LeadingZeros()
    ensures ParseInput("STEAM_0:1:007") == Steam2(0, 1, 7)
    ensures ResolveInput("STEAM_0:1:007") == Exact(ToSteam64From32(15), "15", "steam2")
  {
    assert Steam2Text("STEAM_", 0, 1, "007") == "STEAM_0:1:007";
    assert Value("007") == 7 by {
      assert "007"[..2] == "00" && "00"[..1] == "0" && "0"[..0] == [];
    }
    ParseSteam2("STEAM_", 0, 1, "007");
    var account32 := ResolveSteam2("STEAM_", 0, 1, "007");
    ShowFifteen();
  }

  lemma ShowFifteen()
    ensures ShowNat(15) == "15"
  {
    assert DigitChar(1) == '1' && DigitChar(5) == '5';
    assert ShowNat(1) == "1";
  }

  /** Input classified as a Steam2 id is answered with its account id `account32`. */
  lemma ResolveAsSteam2(input: string, universe: nat, authServer: nat, accountNumber: nat, account32: nat)
    requires input != "" && ParseInput(input) == Steam2(universe, authServer, accountNumber)
    requires account32 == accountNumber * 2 + authServer
    ensures ResolveInput(input) == Exact(ToSteam64From32(account32), ShowNat(account32), "steam2")
  {
    ResolveParsed(input, Steam2(universe, authServer, accountNumber));
    DispatchSteam2(universe, authServer, accountNumber, account32);
  }

  /** A Steam2 id is answered with the account id `2 * accountNumber + authServer`, written in decimal. */
  lemma DispatchSteam2(universe: nat, authServer: nat, accountNumber: nat, account32: nat)
    requires account32 == accountNumber * 2 + authServer
    ensures Dispatch(Steam2(universe, authServer, accountNumber))
      == Exact(ToSteam64From32(account32), ShowNat(account32), "steam2")
  {
    assert Dispatch(Steam2(universe, authServer, accountNumber))
      == Exact(ToSteam64From32(account32), ShowInt(account32), "steam2");
    assert ShowInt(account32) == ShowNat(account32);
  }

  /** The text of a Steam3 id, `[U:1:N]`, with the letter `u` in either case. */
  function Steam3Text(u: char, digits: string): string
  {
    ['[', u] + ":1:" + digits + "]"
  }

  /** `[U:1:N]`, or `[u:1:N]`, parses to the digits N. */
  lemma ParseSteam3(u: char, digits: string)
    requires Lower(u) == 'u'
    requires |digits| >= 1 && IsDigits(digits)
    ensures ParseInput(Steam3Text(u, digits)) == Steam3(digits)
  {
    var s := Steam3Text(u, digits);
    assert s[1] == u;
    assert s[5..|s| - 1] == digits;
    forall k | 0 <= k < |s| ensures Lower(s[k]) != 'h' {
      if 5 <= k < |s| - 1 {
        assert s[k] == digits[k - 5];
        assert IsDigit(digits[k - 5]);
      }
    }
    NoHMeansAnchored(s);
    assert !IsDigit(s[0]);
    assert MatchSteam2(s).None? by {
      if |s| >= 11 { assert s[..6][0] == '['; }
    }
    assert MatchSteam3(s) == Some(digits);
    assert AnchoredRule(s) == Steam3(digits);
    ParseUnpadded(s);
  }

  /** `[U:1:N]`, in either case, resolves to account id N and the SteamID64 computed from it. */
  lemma ResolveSteam3(u: char, digits: string)
    requires Lower(u) == 'u'
    requires |digits| >= 1 && IsDigits(digits)
    ensures ResolveInput(Steam3Text(u, digits))
      == Exact(ToSteam64From32(Value(digits)), digits, "steam3")
  {
    var s := Steam3Text(u, digits);
    ParseSteam3(u, digits);
    ResolveParsed(s, Steam3(digits));
  }
}
