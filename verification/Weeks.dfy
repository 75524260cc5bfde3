/** Monday-aligned weeks on the Unix millisecond axis. */
module Weeks {

  const DAY_MS: int := 24 * 60 * 60 * 1000
  const WEEK_MS: int := 7 * DAY_MS

  /** Monday midnight UTC at or before `ts`; the epoch itself is a Thursday. */
  function MondayFloor(ts: int): (start: int)
    ensures start <= ts < start + WEEK_MS
  {
    ts - (ts + 3 * DAY_MS) % WEEK_MS
  }

  predicate IsMonday(start: int) { (start + 3 * DAY_MS) % WEEK_MS == 0 }

  /** Writing both as whole weeks turns a comparison of Mondays into one of integers. */
  lemma MondayFloorIsOnlyMonday(ts: int, start: int)
    ensures IsMonday(MondayFloor(ts))
    ensures IsMonday(start) && start <= ts < start + WEEK_MS ==> start == MondayFloor(ts)
  {
    var q, k := (ts + 3 * DAY_MS) / WEEK_MS, (start + 3 * DAY_MS) / WEEK_MS;
    assert MondayFloor(ts) + 3 * DAY_MS == q * WEEK_MS;
    if IsMonday(start) && start <= ts < start + WEEK_MS {
      assert start + 3 * DAY_MS == k * WEEK_MS;
      assert q == k;
    }
  }

  lemma MondaysAWeekApart(a: int, b: int)
    requires IsMonday(a) && IsMonday(b) && a < b
    ensures a + WEEK_MS <= b
  {
    var q, k := (a + 3 * DAY_MS) / WEEK_MS, (b + 3 * DAY_MS) / WEEK_MS;
    assert a + 3 * DAY_MS == q * WEEK_MS && b + 3 * DAY_MS == k * WEEK_MS;
  }

  /** Instants the calendar can name: years -9999 to 9999. */
  const FIRST_MS: int := -377705116800000
  const END_MS: int := 253402300800000

  predicate Supported(ts: int) { FIRST_MS <= ts < END_MS }
}
