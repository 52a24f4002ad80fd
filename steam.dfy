/**
 * Steam identifier arithmetic shared by the routes (apps/api/src/utils/steam.ts):
 * a SteamID64 is the 32-bit account id plus a fixed base, and the player slot
 * of a match row tells which team the player was on.
 */
module Steam {
  import opened Decimal

  /** The SteamID64 of account id 0: individual account in the public universe. */
  const STEAM64_BASE: nat := 76561197960265728

  /**
   * `toAccountId`: the decimal SteamID64 (validated as `^\d+$` by every caller)
   * minus the base, written back in decimal. There is no lower bound, so an id
   * below the base yields a negative account id.
   */
  function ToAccountId(steamid64: string): (accountId: string)
    requires IsDigits(steamid64)
    ensures IsSigned(accountId) && SignedValue(accountId) == Value(steamid64) - STEAM64_BASE
    ensures accountId == "0" <==> Value(steamid64) == STEAM64_BASE
    ensures accountId[0] == '-' <==> Value(steamid64) < STEAM64_BASE
  {
    var d := Value(steamid64) - STEAM64_BASE;
    ShowIntIsSigned(d);
    ShowInt(d)
  }

  /** Slots 0-127 are the Radiant team, 128-255 the Dire team. */
  predicate IsRadiant(playerSlot: int)
  {
    playerSlot < 128
  }

  /** The team boundary sits between slots 127 and 128. */
  lemma RadiantSlots()
    ensures IsRadiant(0) && IsRadiant(127) && !IsRadiant(128) && !IsRadiant(255)
    ensures forall slot :: 0 <= slot < 256 ==> (IsRadiant(slot) <==> slot <= 127)
  {
  }
}
