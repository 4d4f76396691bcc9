/** `calculate_weekly_cost` (main.py): the total cost of the records dated inside one week. */
module Costs {
  import opened Calendar

  /** A cost in cents; the ledger's float amounts are taken as exact integers. */
  type Cents = int

  /** The sum of every cost whose paired date is one of the seven days of `Week(start)`.
      Dates and costs are paired position by position, as `zip` pairs them, so the
      shorter list decides how many records take part. */
  function WeeklyCost(start: Day, dates: seq<Day>, costs: seq<Cents>): (total: Cents)
    decreases |dates|
  {
    if |dates| == 0 || |costs| == 0 then 0
    else (if dates[0] in Week(start) then costs[0] else 0) + WeeklyCost(start, dates[1..], costs[1..])
  }

  /** The number of records `zip` forms from the two lists. */
  function Paired(dates: seq<Day>, costs: seq<Cents>): nat {
    if |dates| <= |costs| then |dates| else |costs|
  }

  /** Reference definition by index: the sum of `costs[i]` over the positions `from <= i < Paired`
      whose date satisfies `start <= dates[i] <= start + 6`. */
  function WindowSum(start: Day, dates: seq<Day>, costs: seq<Cents>, from: nat): Cents
    requires from <= Paired(dates, costs)
    decreases Paired(dates, costs) - from
  {
    if from == Paired(dates, costs) then 0
    else (if start <= dates[from] <= start + 6 then costs[from] else 0) + WindowSum(start, dates, costs, from + 1)
  }

  /** The weekly cost is the index sum over the paired positions dated inside the window. */
  lemma WeeklyCostIsWindowSum(start: Day, dates: seq<Day>, costs: seq<Cents>)
    ensures WeeklyCost(start, dates, costs) == WindowSum(start, dates, costs, 0)
  {
    WeeklyCostFrom(start, dates, costs, 0);
  }

  /** The same, for the records from position `from` on. */
  lemma {:induction false} WeeklyCostFrom(start: Day, dates: seq<Day>, costs: seq<Cents>, from: nat)
    requires from <= Paired(dates, costs)
    ensures WeeklyCost(start, dates[from..], costs[from..]) == WindowSum(start, dates, costs, from)
    decreases Paired(dates, costs) - from
  {
    if from < Paired(dates, costs) {
      WeeklyCostFrom(start, dates, costs, from + 1);
      assert dates[from..][1..] == dates[from + 1..];
      assert costs[from..][1..] == costs[from + 1..];
      InWeek(start, dates[from]);
    }
  }

  /** With no paired date inside the window, the weekly cost is zero. */
  lemma {:induction false} WeeklyCostEmptyWindow(start: Day, dates: seq<Day>, costs: seq<Cents>)
    requires forall i :: 0 <= i < Paired(dates, costs) ==> !(start <= dates[i] <= start + 6)
    ensures WeeklyCost(start, dates, costs) == 0
    decreases |dates|
  {
    if |dates| > 0 && |costs| > 0 {
      InWeek(start, dates[0]);
      assert forall i :: 0 <= i < Paired(dates[1..], costs[1..]) ==> dates[1..][i] == dates[i + 1];
      WeeklyCostEmptyWindow(start, dates[1..], costs[1..]);
    }
  }

  /** Splitting the records into two runs of paired records splits the weekly cost. */
  lemma {:induction false} WeeklyCostAppend(start: Day, d1: seq<Day>, c1: seq<Cents>, d2: seq<Day>, c2: seq<Cents>)
    requires |d1| == |c1|
    ensures WeeklyCost(start, d1 + d2, c1 + c2) == WeeklyCost(start, d1, c1) + WeeklyCost(start, d2, c2)
    decreases |d1|
  {
    if |d1| == 0 {
      assert d1 + d2 == d2 && c1 + c2 == c2;
    } else {
      assert (d1 + d2)[1..] == d1[1..] + d2;
      assert (c1 + c2)[1..] == c1[1..] + c2;
      WeeklyCostAppend(start, d1[1..], c1[1..], d2, c2);
    }
  }

  /** Entries past the end of the shorter list take no part. */
  lemma {:induction false} WeeklyCostIgnoresUnpaired(start: Day, dates: seq<Day>, costs: seq<Cents>)
    ensures var n := Paired(dates, costs);
            WeeklyCost(start, dates, costs) == WeeklyCost(start, dates[..n], costs[..n])
    decreases |dates|
  {
    if |dates| > 0 && |costs| > 0 {
      var n := Paired(dates, costs);
      WeeklyCostIgnoresUnpaired(start, dates[1..], costs[1..]);
      assert dates[1..][..n - 1] == dates[..n][1..];
      assert costs[1..][..n - 1] == costs[..n][1..];
    }
  }

  /** A record dated outside the window, inserted at any paired position, leaves the weekly cost unchanged. */
  lemma InsertOutsideWindow(start: Day, dates: seq<Day>, costs: seq<Cents>, k: nat, d: Day, c: Cents)
    requires k <= Paired(dates, costs)
    requires !(start <= d <= start + 6)
    ensures WeeklyCost(start, dates[..k] + [d] + dates[k..], costs[..k] + [c] + costs[k..])
         == WeeklyCost(start, dates, costs)
  {
    InWeek(start, d);
    WeeklyCostAppend(start, dates[..k], costs[..k], [d] + dates[k..], [c] + costs[k..]);
    WeeklyCostAppend(start, dates[..k], costs[..k], dates[k..], costs[k..]);
    assert dates[..k] + [d] + dates[k..] == dates[..k] + ([d] + dates[k..]);
    assert costs[..k] + [c] + costs[k..] == costs[..k] + ([c] + costs[k..]);
    assert ([d] + dates[k..])[1..] == dates[k..];
    assert ([c] + costs[k..])[1..] == costs[k..];
    assert dates[..k] + dates[k..] == dates;
    assert costs[..k] + costs[k..] == costs;
  }

  /** A record dated one week after the start (`start + 7`) does not count towards that week. */
  lemma NextMondayNotCounted(start: Day, dates: seq<Day>, costs: seq<Cents>, c: Cents)
    requires |dates| == |costs|
    ensures WeeklyCost(start, dates + [start + DaysInWeek], costs + [c]) == WeeklyCost(start, dates, costs)
  {
    InsertOutsideWindow(start, dates, costs, |dates|, start + DaysInWeek, c);
    assert dates[..|dates|] + [start + DaysInWeek] + dates[|dates|..] == dates + [start + DaysInWeek];
    assert costs[..|costs|] + [c] + costs[|costs|..] == costs + [c];
  }

  /** With non-negative costs the weekly cost is non-negative. */
  lemma {:induction false} WeeklyCostNonNegative(start: Day, dates: seq<Day>, costs: seq<Cents>)
    requires forall i :: 0 <= i < |costs| ==> costs[i] >= 0
    ensures WeeklyCost(start, dates, costs) >= 0
    decreases |dates|
  {
    if |dates| > 0 && |costs| > 0 {
      assert forall i :: 0 <= i < |costs[1..]| ==> costs[1..][i] == costs[i + 1];
      WeeklyCostNonNegative(start, dates[1..], costs[1..]);
    }
  }
}
