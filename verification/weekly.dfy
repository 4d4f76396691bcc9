/** The weekly summary built by `main` (main.py): a header row, then one row per distinct Monday
    among the ledger's dates holding that Monday and the cost of its week. */
module Weekly {
  import opened Wrappers
  import opened Sequences
  import opened Calendar
  import opened Dedup
  import opened Costs
  import opened Columns
  import opened Layout
  import ReadBack

  const StartOfWeekHeader: string := "StartOfWeek (Monday)"
  const WeeklyCostHeader: string := "WeeklyCost"

  /** The header row of the weekly table. */
  const WeeklyHeader: seq<Value> := [Text(StartOfWeekHeader), Text(WeeklyCostHeader)]

  /** The dates that fall on a Monday, in ledger order, repeats kept. */
  function Mondays(dates: seq<Day>): (mondays: seq<Day>)
    ensures forall k :: 0 <= k < |mondays| ==> IsMonday(mondays[k])
    ensures IsSubsequence(mondays, dates)
    ensures forall i :: 0 <= i < |dates| && IsMonday(dates[i]) ==> dates[i] in mondays
    decreases |dates|
  {
    if |dates| == 0 then []
    else
      var rest := Mondays(dates[1..]);
      assert forall i :: 1 <= i < |dates| ==> dates[i] == dates[1..][i - 1];
      if IsMonday(dates[0]) then [dates[0]] + rest else rest
  }

  /** The filter keeps each Monday as often as it occurs in the dates, and nothing else. */
  lemma {:induction false} MondaysCounts(dates: seq<Day>, x: Day)
    ensures multiset(Mondays(dates))[x] == if IsMonday(x) then multiset(dates)[x] else 0
    decreases |dates|
  {
    if |dates| > 0 {
      var rest := Mondays(dates[1..]);
      MondaysCounts(dates[1..], x);
      MultisetOfHead(dates, x);
      if IsMonday(dates[0]) {
        MultisetOfHead([dates[0]] + rest, x);
        assert ([dates[0]] + rest)[1..] == rest;
      }
    }
  }

  /** The week starts of `main`: the distinct Mondays among the dates, in first-seen order. */
  function WeekStarts(dates: seq<Day>): seq<Day> {
    RemoveDuplicates(Mondays(dates))
  }

  /** The summary row of one week. */
  function WeekRow(monday: Day, dates: seq<Day>, costs: seq<Cents>): seq<Value> {
    [Date(monday), Number(WeeklyCost(monday, dates, costs))]
  }

  /** `weekly_costs`: the header row followed by one row per week start. */
  function WeeklyRows(dates: seq<Day>, costs: seq<Cents>): seq<seq<Value>> {
    var starts := WeekStarts(dates);
    [WeeklyHeader] + seq(|starts|, k requires 0 <= k < |starts| => WeekRow(starts[k], dates, costs))
  }

  /** Among Mondays, being seen first in the dates is the same as being seen first among the Mondays. */
  lemma {:induction false} MondaysKeepFirstSeenOrder(dates: seq<Day>, a: Day, b: Day)
    requires a in dates && b in dates && IsMonday(a) && IsMonday(b)
    ensures a in Mondays(dates) && b in Mondays(dates)
    ensures FirstIndex(Mondays(dates), a) < FirstIndex(Mondays(dates), b) <==> FirstIndex(dates, a) < FirstIndex(dates, b)
    decreases |dates|
  {
    if dates[0] != a && dates[0] != b {
      MondaysKeepFirstSeenOrder(dates[1..], a, b);
    }
  }

  /** The week starts are Mondays of the ledger, each Monday of the ledger is one of them, none repeats,
      and they come in the order their Mondays are first seen in the dates. */
  lemma WeekStartsCharacterized(dates: seq<Day>)
    ensures var starts := WeekStarts(dates);
            && (forall k :: 0 <= k < |starts| ==> IsMonday(starts[k]) && starts[k] in dates)
            && (forall i :: 0 <= i < |dates| && IsMonday(dates[i]) ==> dates[i] in starts)
            && NoDuplicates(starts)
            && InFirstOccurrenceOrder(starts, dates)
  {
    var mondays := Mondays(dates);
    var starts := WeekStarts(dates);
    FirstOccurrenceOrder(mondays);
    forall k | 0 <= k < |starts|
      ensures IsMonday(starts[k]) && starts[k] in dates
    {
      assert starts[k] in mondays;
      SubsequenceMembers(mondays, dates);
    }
    forall i, j | 0 <= i < j < |starts| && starts[i] in dates && starts[j] in dates
      ensures FirstIndex(dates, starts[i]) < FirstIndex(dates, starts[j])
    {
      MondaysKeepFirstSeenOrder(dates, starts[i], starts[j]);
    }
  }

  /** The weekly rows: the literal header, then for each week start, in first-seen order, its date
      and its weekly cost. */
  lemma {:induction false} WeeklyRowsLayout(dates: seq<Day>, costs: seq<Cents>)
    ensures var rows := WeeklyRows(dates, costs);
            var starts := WeekStarts(dates);
            && |rows| == 1 + |starts|
            && rows[0] == [Text("StartOfWeek (Monday)"), Text("WeeklyCost")]
            && (forall k :: 0 <= k < |starts| ==>
                  rows[k + 1] == [Date(starts[k]), Number(WeeklyCost(starts[k], dates, costs))])
  {
  }

  /** Every row after the header starts with a Monday of the ledger, no two rows start with the same
      day, and every Monday of the ledger has its row, holding that Monday's weekly cost. */
  lemma WeeklyRowsCoverMondays(dates: seq<Day>, costs: seq<Cents>)
    ensures var rows := WeeklyRows(dates, costs);
            && (forall k :: 1 <= k < |rows| ==>
                  |rows[k]| == 2 && rows[k][0].Date? && IsMonday(rows[k][0].day) && rows[k][0].day in dates)
            && (forall i, j :: 1 <= i < j < |rows| ==> rows[i][0] != rows[j][0])
            && (forall i :: 0 <= i < |dates| && IsMonday(dates[i]) ==>
                  [Date(dates[i]), Number(WeeklyCost(dates[i], dates, costs))] in rows)
  {
    var rows: seq<seq<Value>> := WeeklyRows(dates, costs);
    var starts := WeekStarts(dates);
    WeekStartsCharacterized(dates);
    WeeklyRowsLayout(dates, costs);
    forall k | 1 <= k < |rows|
      ensures |rows[k]| == 2 && rows[k][0].Date? && IsMonday(rows[k][0].day) && rows[k][0].day in dates
    {
      assert rows[k] == WeekRow(starts[k - 1], dates, costs);
    }
    forall i, j | 1 <= i < j < |rows|
      ensures rows[i][0] != rows[j][0]
    {
      assert rows[i] == WeekRow(starts[i - 1], dates, costs);
      assert rows[j] == WeekRow(starts[j - 1], dates, costs);
    }
    forall i | 0 <= i < |dates| && IsMonday(dates[i])
      ensures [Date(dates[i]), Number(WeeklyCost(dates[i], dates, costs))] in rows
    {
      var k :| 0 <= k < |starts| && starts[k] == dates[i];
      assert rows[k + 1] == WeekRow(starts[k], dates, costs);
    }
  }

  /** The total of the weekly costs of the given week starts. */
  function SumOfWeeks(starts: seq<Day>, dates: seq<Day>, costs: seq<Cents>): Cents
    decreases |starts|
  {
    if |starts| == 0 then 0
    else SumOfWeeks(starts[..|starts| - 1], dates, costs) + WeeklyCost(starts[|starts| - 1], dates, costs)
  }

  /** The total cost of the paired records whose week opens on one of `mondays`. */
  function RecordedWeeksCost(mondays: seq<Day>, dates: seq<Day>, costs: seq<Cents>): Cents
    decreases |dates|
  {
    if |dates| == 0 || |costs| == 0 then 0
    else (if MondayOf(dates[0]) in mondays then costs[0] else 0) + RecordedWeeksCost(mondays, dates[1..], costs[1..])
  }

  /** With no Monday listed, no record counts. */
  lemma {:induction false} RecordedWeeksCostNoWeeks(mondays: seq<Day>, dates: seq<Day>, costs: seq<Cents>)
    requires |mondays| == 0
    ensures RecordedWeeksCost(mondays, dates, costs) == 0
    decreases |dates|
  {
    if |dates| > 0 && |costs| > 0 {
      RecordedWeeksCostNoWeeks(mondays, dates[1..], costs[1..]);
    }
  }

  /** Adding a new Monday adds exactly the cost of its week. */
  lemma {:induction false} RecordedWeeksCostAddWeek(mondays: seq<Day>, m: Day, dates: seq<Day>, costs: seq<Cents>)
    requires IsMonday(m) && m !in mondays
    ensures RecordedWeeksCost(mondays + [m], dates, costs) == RecordedWeeksCost(mondays, dates, costs) + WeeklyCost(m, dates, costs)
    decreases |dates|
  {
    if |dates| > 0 && |costs| > 0 {
      RecordedWeeksCostAddWeek(mondays, m, dates[1..], costs[1..]);
      InWeekOfMonday(m, dates[0]);
    }
  }

  /** Only which Mondays are listed matters, not their order or repetition. */
  lemma {:induction false} RecordedWeeksCostSameMondays(w1: seq<Day>, w2: seq<Day>, dates: seq<Day>, costs: seq<Cents>)
    requires forall i :: 0 <= i < |dates| ==> (MondayOf(dates[i]) in w1 <==> MondayOf(dates[i]) in w2)
    ensures RecordedWeeksCost(w1, dates, costs) == RecordedWeeksCost(w2, dates, costs)
    decreases |dates|
  {
    if |dates| > 0 && |costs| > 0 {
      assert forall i :: 0 <= i < |dates[1..]| ==> dates[1..][i] == dates[i + 1];
      RecordedWeeksCostSameMondays(w1, w2, dates[1..], costs[1..]);
    }
  }

  /** Over distinct Mondays, the weekly costs add up to the cost of the records dated in those weeks:
      the weeks neither overlap nor lose a record of theirs. */
  lemma {:induction false} SumOfWeeksIsRecordedCost(starts: seq<Day>, dates: seq<Day>, costs: seq<Cents>)
    requires NoDuplicates(starts)
    requires forall k :: 0 <= k < |starts| ==> IsMonday(starts[k])
    ensures SumOfWeeks(starts, dates, costs) == RecordedWeeksCost(starts, dates, costs)
    decreases |starts|
  {
    if |starts| == 0 {
      RecordedWeeksCostNoWeeks(starts, dates, costs);
    } else {
      var front := starts[..|starts| - 1];
      var m := starts[|starts| - 1];
      SumOfWeeksIsRecordedCost(front, dates, costs);
      assert m !in front;
      RecordedWeeksCostAddWeek(front, m, dates, costs);
      assert front + [m] == starts;
    }
  }

  /** The weekly rows of `main` add up to the cost of exactly those paired records whose week's
      Monday is itself among the dates; a record in a week with no Monday entry is not counted. */
  lemma WeeklyRowsTotal(dates: seq<Day>, costs: seq<Cents>)
    ensures SumOfWeeks(WeekStarts(dates), dates, costs) == RecordedWeeksCost(dates, dates, costs)
  {
    var starts := WeekStarts(dates);
    WeekStartsCharacterized(dates);
    SumOfWeeksIsRecordedCost(starts, dates, costs);
    forall i | 0 <= i < |dates|
      ensures MondayOf(dates[i]) in starts <==> MondayOf(dates[i]) in dates
    {
      if MondayOf(dates[i]) in dates {
        var j := FirstIndex(dates, MondayOf(dates[i]));
        assert dates[j] in starts;
      }
    }
    RecordedWeeksCostSameMondays(starts, dates, dates, costs);
  }

  /** The cost of all paired records. */
  function PairedTotal(dates: seq<Day>, costs: seq<Cents>): Cents
    decreases |dates|
  {
    if |dates| == 0 || |costs| == 0 then 0 else costs[0] + PairedTotal(dates[1..], costs[1..])
  }

  /** When every paired record's week has its Monday among the dates, the weekly rows
      account for the whole ledger. */
  lemma {:induction false} RecordedWeeksCostComplete(mondays: seq<Day>, dates: seq<Day>, costs: seq<Cents>)
    requires forall i :: 0 <= i < Paired(dates, costs) ==> MondayOf(dates[i]) in mondays
    ensures RecordedWeeksCost(mondays, dates, costs) == PairedTotal(dates, costs)
    decreases |dates|
  {
    if |dates| > 0 && |costs| > 0 {
      assert forall i :: 0 <= i < Paired(dates[1..], costs[1..]) ==> dates[1..][i] == dates[i + 1];
      RecordedWeeksCostComplete(mondays, dates[1..], costs[1..]);
    }
  }

  /** A ledger with no Monday entry yields only the header row. */
  lemma NoMondayNoWeeks(dates: seq<Day>, costs: seq<Cents>)
    requires forall i :: 0 <= i < |dates| ==> !IsMonday(dates[i])
    ensures WeeklyRows(dates, costs) == [[Text("StartOfWeek (Monday)"), Text("WeeklyCost")]]
  {
    WeekStartsCharacterized(dates);
    assert |WeekStarts(dates)| == 0;
  }

  /** As `append_data` is written, a weekly table with two or more week starts gets the first
      week's Monday written outside row 1, column 0; the intended layout writes it there. */
  lemma WeeklyLayoutMisplaced(dates: seq<Day>, costs: seq<Cents>)
    requires |WeekStarts(dates)| >= 2
    ensures var rows := WeeklyRows(dates, costs);
            var asWritten := AppendDataAsWritten(rows).value;
            && 2 < |asWritten|
            && asWritten[2].value == Date(WeekStarts(dates)[0])
            && (asWritten[2].row, asWritten[2].col) != (1, 0)
            && 2 < |AppendData(rows)|
            && AppendData(rows)[2] == Write(1, 0, Date(WeekStarts(dates)[0]))
  {
    WeeklyRowsWidth(dates, costs);
    AsWrittenMisplacesSecondRow(WeeklyRows(dates, costs), 2);
  }

  /** Every weekly row has two cells, and the first row after the header opens with the first week start. */
  lemma {:induction false} WeeklyRowsWidth(dates: seq<Day>, costs: seq<Cents>)
    ensures var rows := WeeklyRows(dates, costs);
            && |rows| == |WeekStarts(dates)| + 1
            && (forall r :: 0 <= r < |rows| ==> |rows[r]| == 2)
            && (|rows| >= 2 ==> rows[1][0] == Date(WeekStarts(dates)[0]))
  {
    WeeklyRowsLayout(dates, costs);
  }

  /** Round trip of the weekly table: written with the intended layout into a table of its size, the
      table reads back, through the column lookup, the week starts under the first header and the
      weekly costs under the second. */
  lemma WeeklyTableReadBack(dates: seq<Day>, costs: seq<Cents>)
    ensures var rows := WeeklyRows(dates, costs);
            var table := ReadBack.TableAfter(AppendData(rows), |rows|, 2);
            && GetColumnData(StartOfWeekHeader, table) == Success(StartsColumn(dates))
            && GetColumnData(WeeklyCostHeader, table) == Success(CostsColumn(dates, costs))
  {
    var rows := WeeklyRows(dates, costs);
    var left, right := StartsColumn(dates), CostsColumn(dates, costs);
    WeeklyRowsLayout(dates, costs);
    assert forall k :: 0 <= k < |left| ==> rows[k + 1] == [left[k], right[k]];
    ReadBack.ReadBackTwoColumns(rows, StartOfWeekHeader, WeeklyCostHeader, left, right);
  }

  /** The week starts as date cells, in row order. */
  function StartsColumn(dates: seq<Day>): (column: seq<Value>)
    ensures |column| == |WeekStarts(dates)|
    ensures forall k :: 0 <= k < |column| ==> column[k] == Date(WeekStarts(dates)[k])
  {
    var starts := WeekStarts(dates);
    seq(|starts|, k requires 0 <= k < |starts| => Date(starts[k]))
  }

  /** The weekly costs as number cells, in row order. */
  function CostsColumn(dates: seq<Day>, costs: seq<Cents>): (column: seq<Value>)
    ensures |column| == |WeekStarts(dates)|
    ensures forall k :: 0 <= k < |column| ==> column[k] == Number(WeeklyCost(WeekStarts(dates)[k], dates, costs))
  {
    var starts := WeekStarts(dates);
    seq(|starts|, k requires 0 <= k < |starts| => Number(WeeklyCost(starts[k], dates, costs)))
  }

  /** 2024-01-01, 2024-01-08 and 2024-01-15 as day numbers; all three are Mondays. */
  const Jan01: Day := 738886
  const Jan08: Day := 738893
  const Jan15: Day := 738900

  /** A ledger listed newest first, with a Wednesday (2024-01-03) entry: three week rows, newest first,
      the Wednesday's cost counted in the week of 2024-01-01. */
  lemma ThreeWeeksScenario()
    ensures WeeklyRows([Jan15, Jan08, Jan01 + 2, Jan01], [500, 2000, 300, 1000])
         == [WeeklyHeader, [Date(Jan15), Number(500)], [Date(Jan08), Number(2000)], [Date(Jan01), Number(1300)]]
  {
    var dates := [Jan15, Jan08, Jan01 + 2, Jan01];
    var costs := [500, 2000, 300, 1000];
    ThreeWeeksStarts();
    WeekOfScenario(Jan15, dates, costs);
    WeekOfScenario(Jan08, dates, costs);
    WeekOfScenario(Jan01, dates, costs);
    var rows := WeeklyRows(dates, costs);
    assert rows[1] == WeekRow(Jan15, dates, costs);
    assert rows[2] == WeekRow(Jan08, dates, costs);
    assert rows[3] == WeekRow(Jan01, dates, costs);
  }

  /** The Mondays of the three-week ledger, newest first; the Wednesday opens no week. */
  lemma ThreeWeeksStarts()
    ensures WeekStarts([Jan15, Jan08, Jan01 + 2, Jan01]) == [Jan15, Jan08, Jan01]
  {
    var dates := [Jan15, Jan08, Jan01 + 2, Jan01];
    assert dates[1..] == [Jan08, Jan01 + 2, Jan01];
    assert dates[2..] == [Jan01 + 2, Jan01];
    assert dates[3..] == [Jan01];
    assert Mondays(dates[3..]) == [Jan01];
    assert Mondays(dates[2..]) == [Jan01];
    assert Mondays(dates[1..]) == [Jan08, Jan01];
    assert Mondays(dates) == [Jan15, Jan08, Jan01];
    RemoveDuplicatesOfDistinct([Jan15, Jan08, Jan01]);
  }

  /** The two columns are filtered separately, so a ledger row with a date but an empty cost cell
      shifts the costs against the dates: here `zip` pairs the 2024-01-08 cost with 2024-01-02,
      and the week of 2024-01-01 is charged both costs while the week of 2024-01-08 gets none. */
  lemma ShiftedCostsScenario()
    ensures GetColumnData("Date", ShiftedLedger) == Success([Date(Jan01), Date(Jan01 + 1), Date(Jan08)])
    ensures GetColumnData("Cost", ShiftedLedger) == Success([Number(1000), Number(2000)])
    ensures WeeklyCost(Jan01, [Jan01, Jan01 + 1, Jan08], [1000, 2000]) == 3000
    ensures WeeklyCost(Jan08, [Jan01, Jan01 + 1, Jan08], [1000, 2000]) == 0
  {
    ShiftedColumn(0, "Date", [Date(Jan01), Date(Jan01 + 1), Date(Jan08)]);
    ShiftedColumn(1, "Cost", [Number(1000), Number(2000)]);
    ShiftedCost(Jan01, 3000);
    ShiftedCost(Jan08, 0);
  }

  /** A ledger whose second entry has a date but an empty cost cell. */
  const ShiftedLedger: Table := [[Some(Text("Date")), Some(Text("Cost"))],
                                 [Some(Date(Jan01)), Some(Number(1000))],
                                 [Some(Date(Jan01 + 1)), None],
                                 [Some(Date(Jan08)), Some(Number(2000))]]

  /** The two columns of `ShiftedLedger`, each read on its own. */
  lemma ShiftedColumn(c: nat, name: string, values: seq<Value>)
    requires (c, name, values) in [(0, "Date", [Date(Jan01), Date(Jan01 + 1), Date(Jan08)]),
                                   (1, "Cost", [Number(1000), Number(2000)])]
    ensures GetColumnData(name, ShiftedLedger) == Success(values)
  {
    var header := HeaderRow(ShiftedLedger);
    assert header[1..] == [Some(Text("Cost"))];
    assert HeaderIndex(header, name) == Some(c);
    var column := Column(ShiftedLedger, c);
    var cells := [ShiftedLedger[1][c], ShiftedLedger[2][c], ShiftedLedger[3][c]];
    assert column == [Some(Text(name))] + cells;
    assert column[1..] == cells;
    assert cells[1..][1..][1..] == [];
    assert KeepValues(cells[1..][1..], name) == [values[|values| - 1]];
    if c == 0 {
      assert KeepValues(cells[1..], name) == [Date(Jan01 + 1), Date(Jan08)];
    } else {
      assert KeepValues(cells[1..], name) == [Number(2000)];
    }
    assert KeepValues(cells, name) == values;
  }

  /** The weekly costs of the shifted columns, record by record. */
  lemma ShiftedCost(start: Day, total: Cents)
    requires (start, total) in [(Jan01, 3000), (Jan08, 0)]
    ensures WeeklyCost(start, [Jan01, Jan01 + 1, Jan08], [1000, 2000]) == total
  {
    var dates := [Jan01, Jan01 + 1, Jan08];
    var costs := [1000, 2000];
    InWeek(start, Jan01);
    InWeek(start, Jan01 + 1);
    assert dates[1..] == [Jan01 + 1, Jan08] && costs[1..] == [2000];
    assert dates[2..] == [Jan08] && costs[2..] == [];
    assert WeeklyCost(start, dates[2..], costs[2..]) == 0;
  }

  /** The weekly costs of the ledger of `ThreeWeeksScenario`, evaluated record by record. */
  lemma WeekOfScenario(start: Day, dates: seq<Day>, costs: seq<Cents>)
    requires start in [Jan15, Jan08, Jan01]
    requires dates == [Jan15, Jan08, Jan01 + 2, Jan01] && costs == [500, 2000, 300, 1000]
    ensures WeeklyCost(start, dates, costs)
         == if start == Jan15 then 500 else if start == Jan08 then 2000 else 1300
  {
    InWeek(start, Jan15);
    InWeek(start, Jan08);
    InWeek(start, Jan01 + 2);
    InWeek(start, Jan01);
    assert dates[1..] == [Jan08, Jan01 + 2, Jan01] && costs[1..] == [2000, 300, 1000];
    assert dates[2..] == [Jan01 + 2, Jan01] && costs[2..] == [300, 1000];
    assert dates[3..] == [Jan01] && costs[3..] == [1000];
    assert dates[4..] == [] && costs[4..] == [];
    assert WeeklyCost(start, dates[4..], costs[4..]) == 0;
    assert WeeklyCost(start, dates[3..], costs[3..]) == if start == Jan01 then 1000 else 0;
    assert WeeklyCost(start, dates[2..], costs[2..]) == if start == Jan01 then 1300 else 0;
  }

  /** The same kind of ledger under the layout of `append_data` as written: with two week rows,
      the first Monday goes to row 0, column 2, and its cost to row 1, column 0. */
  lemma TwoWeeksLayoutScenario()
    ensures var rows := WeeklyRows([Jan08, Jan01], [2000, 1000]);
            && rows == [WeeklyHeader, [Date(Jan08), Number(2000)], [Date(Jan01), Number(1000)]]
            && AppendDataAsWritten(rows).Success?
            && |AppendDataAsWritten(rows).value| == 6
            && AppendDataAsWritten(rows).value[2] == Write(0, 2, Date(Jan08))
            && AppendDataAsWritten(rows).value[3] == Write(1, 0, Number(2000))
            && 2 < |AppendData(rows)|
            && AppendData(rows)[2] == Write(1, 0, Date(Jan08))
  {
    var rows := WeeklyRows([Jan08, Jan01], [2000, 1000]);
    TwoWeeksRows();
    ThreeByTwoLayout(rows);
  }

  /** The weekly rows of a two-week ledger listed newest first. */
  lemma TwoWeeksRows()
    ensures WeeklyRows([Jan08, Jan01], [2000, 1000])
         == [WeeklyHeader, [Date(Jan08), Number(2000)], [Date(Jan01), Number(1000)]]
  {
    var dates := [Jan08, Jan01];
    var costs := [2000, 1000];
    TwoWeeksStarts();
    TwoWeeksCost(Jan08, 2000);
    TwoWeeksCost(Jan01, 1000);
    var rows := WeeklyRows(dates, costs);
    assert rows[1] == WeekRow(Jan08, dates, costs);
    assert rows[2] == WeekRow(Jan01, dates, costs);
  }

  /** Both dates of the two-week ledger are Mondays, newest first. */
  lemma TwoWeeksStarts()
    ensures WeekStarts([Jan08, Jan01]) == [Jan08, Jan01]
  {
    var dates := [Jan08, Jan01];
    assert dates[1..] == [Jan01];
    assert Mondays(dates) == [Jan08, Jan01];
    RemoveDuplicatesOfDistinct([Jan08, Jan01]);
  }

  /** The weekly costs of the two-week ledger, record by record. */
  lemma TwoWeeksCost(start: Day, total: Cents)
    requires (start, total) in [(Jan08, 2000), (Jan01, 1000)]
    ensures WeeklyCost(start, [Jan08, Jan01], [2000, 1000]) == total
  {
    var dates := [Jan08, Jan01];
    var costs := [2000, 1000];
    InWeek(start, Jan08);
    InWeek(start, Jan01);
    assert dates[1..] == [Jan01] && costs[1..] == [1000];
    assert dates[2..] == [] && costs[2..] == [];
    assert WeeklyCost(start, dates[2..], costs[2..]) == 0;
    assert WeeklyCost(start, dates[1..], costs[1..]) == if start == Jan01 then 1000 else 0;
  }
}
