/** Calendar days as integer day numbers.
    A day is its proleptic Gregorian ordinal (day 1 is Monday, 1 January of year 1),
    the numbering behind Python's `date.toordinal()`. Every date is taken at midnight. */
module Calendar {

  type Day = int

  const DaysInWeek: nat := 7

  /** The weekday number of Monday (`MONDAY = 0` in the ledger script). */
  const Monday: nat := 0

  /** Day of the week, Monday = 0 ... Sunday = 6, as `date.weekday()` numbers it. */
  function Weekday(d: Day): (w: nat)
    ensures w < DaysInWeek
  {
    (d + 6) % 7
  }

  /** `is_monday`: the day's weekday is Monday. */
  predicate IsMonday(d: Day) {
    Weekday(d) == Monday
  }

  /** The seven days `[start + 0, ..., start + 6]` that `calculate_weekly_cost` builds. */
  function Week(start: Day): (w: seq<Day>)
    ensures |w| == DaysInWeek
  {
    seq(DaysInWeek, n requires 0 <= n < DaysInWeek => start + n)
  }

  /** Membership in `Week(start)` is the closed window `[start, start + 6]`. */
  lemma InWeek(start: Day, d: Day)
    ensures d in Week(start) <==> start <= d <= start + 6
  {
    if start <= d <= start + 6 {
      assert Week(start)[d - start] == d;
    }
  }

  /** The Monday that opens the week containing `d`. */
  function MondayOf(d: Day): (m: Day)
    ensures IsMonday(m)
    ensures m <= d <= m + 6
  {
    d - Weekday(d)
  }

  /** Mondays are exactly the days one past a multiple of seven. */
  lemma IsMondayResidue(d: Day)
    ensures IsMonday(d) <==> d % DaysInWeek == 1
  {
  }

  /** Being a Monday repeats every seven days. */
  lemma IsMondayPeriodic(d: Day)
    ensures IsMonday(d) <==> IsMonday(d + DaysInWeek)
  {
  }

  /** A day lies in the week of Monday `m` exactly when `m` is the Monday of its week. */
  lemma InWeekOfMonday(m: Day, d: Day)
    requires IsMonday(m)
    ensures d in Week(m) <==> MondayOf(d) == m
  {
    var k := MondayOf(d);
    InWeek(m, d);
    if d in Week(m) {
      assert k <= d <= k + 6;
      MondaysSevenApart(m, k);
    }
  }

  /** Two Mondays less than a week apart are the same day. */
  lemma MondaysSevenApart(m: Day, k: Day)
    requires IsMonday(m) && IsMonday(k)
    requires m - 6 <= k <= m + 6
    ensures m == k
  {
  }
}
