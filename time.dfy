/**
 * Report windows (apps/api/src/utils/time.ts): a range key becomes a number of
 * days, and a number of days becomes Unix-second bounds ending now. The clock
 * reading is a parameter.
 */
module Time {

  /** `rangeKeyToDays`: 30 and 180 days for the two short ranges, a year for anything else. */
  function RangeKeyToDays(range: string): (days: nat)
    ensures days == 30 <==> range == "last_month"
    ensures days == 180 <==> range == "last_6_months"
    ensures days == 30 || days == 180 || days == 365
  {
    if range == "last_month" then 30
    else if range == "last_6_months" then 180
    else 365
  }

  datatype Bounds = Bounds(start: int, end: int)

  /**
   * `rangeUnixBounds(days)` with `Date.now()` passed in as `nowMs`: the end is
   * the current Unix second (rounded down) and the start lies `days` whole days
   * before it.
   */
  function RangeUnixBounds(days: int, nowMs: int): (b: Bounds)
    ensures b.end * 1000 <= nowMs < b.end * 1000 + 1000
    ensures b.end - b.start == days * 86400
    ensures days >= 0 ==> b.start <= b.end
  {
    var end := nowMs / 1000;
    Bounds(end - days * 24 * 3600, end)
  }
}
