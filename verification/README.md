# Weekly budget tracker, modelled in Dafny

The ledger script `main.py` reads a Numbers spreadsheet with a "DailyTracker" table that holds a
`Date` column and a `Cost` column. It builds a weekly summary from these columns. The summary has a
header row `("StartOfWeek (Monday)", "WeeklyCost")`, then one row for each distinct Monday among the
dates, in the order each Monday is first seen. Each row holds that Monday and a weekly cost. The
script reads the two columns separately, dropping the empty cells of each, and then pairs the `i`-th
date with the `i`-th cost by position. The weekly cost is the sum of the costs whose paired date lies
in the seven days starting on that Monday. When the Date and Cost cells are empty in the same ledger
rows, that is the total cost of the records of that week. The script writes the summary into a
"WeeklyTracker" table.

This project models the pure core of the script:

- `get_column_data` (module `Columns`): the header search and the column filter, over a table of optional cells;
- `is_monday` and the seven-day window (module `Calendar`);
- `calculate_weekly_cost` (module `Costs`);
- `remove_duplicates` (module `Dedup`);
- `flatten_list` (module `Flatten`);
- `append_data` (module `Layout`): which cell receives which value;
- the weekly rows built in `main` (module `Weekly`).

Module `ReadBack` reads a written table back through `get_column_data`.

The members that compute the script's functions:

- `Calendar.IsMonday` is `is_monday`, on top of `Calendar.Weekday`, and `Calendar.Week` is the seven-day list of `calculate_weekly_cost`.
- `Costs.WeeklyCost` is `calculate_weekly_cost`.
- `Dedup.RemoveDuplicates` is `remove_duplicates`.
- `Flatten.FlattenList` is `flatten_list`.
- `Columns.GetColumnData` is `get_column_data`, built from `Columns.HeaderIndex`, `Columns.Column` and `Columns.KeepValues`.
- `Layout.AppendDataAsWritten` is `append_data` as written, and `Layout.AppendData` is its corrected layout.
- `Weekly.Mondays` is the Monday filter of `main`, `Weekly.WeekStarts` is `mondays` and `Weekly.WeeklyRows` is `weekly_costs`.

Modelling choices:

- A date is a proleptic Gregorian day number (day 1 is 0001-01-01). `Weekday(d) = (d + 6) % 7` is
  Python's `date.weekday()` (Monday = 0).
- A cost is an integer amount in cents.
- A table cell is `Option<Value>`: `None` is an empty cell, and `Value` is text, a number or a date.
- `table.write(row, col, value)` becomes a `Write(row, col, value)` record. `append_data` returns the
  list of writes it would issue.
- The weekly pipeline takes the two columns as typed lists of days and of cents.

## Model

| member | source | states |
|---|---|---|
| Calendar.IsMondayResidue | main.py:67-70 | a day is a Monday exactly when its day number is 1 modulo 7 |
| Calendar.IsMondayPeriodic | main.py:67-70 | a day is a Monday exactly when the day a week later is |
| Calendar.MondaysSevenApart | main.py:67-70 | two Mondays less than seven days apart are the same day |
| Calendar.InWeek | main.py:60-61 | the seven-day list built from a start contains exactly the days from the start through start + 6 |
| Calendar.MondayOf | main.py:67-70 | every day lies in the seven-day window of some Monday at or before it |
| Calendar.InWeekOfMonday | main.py:60-61 | a day is in the window of Monday `m` exactly when `m` is the Monday of its week, so the windows of distinct Mondays do not overlap |
| Dedup.RemoveDuplicates | main.py:47-54 | the result has no repeated element, holds every input element and nothing else, and is no longer than the input |
| Dedup.FirstOccurrenceOrder | main.py:50-52 | the survivors are in the order of their first occurrence in the input |
| Dedup.RemoveDuplicatesOfDistinct | main.py:47-54 | a list without repeats is returned unchanged |
| Dedup.RemoveDuplicatesIdempotent | main.py:47-54 | removing duplicates twice gives the same list as removing them once |
| Flatten.FlattenAppend | main.py:38-45 | flattening a concatenation is the concatenation of the flattened parts |
| Flatten.FlattenLength | main.py:38-45 | the flattened length is the number of atoms plus the lengths of the inner iterables, counted independently from the last element back |
| Flatten.FlattenAppendsAtom | main.py:40-41 | a non-iterable element is appended as itself |
| Flatten.FlattenRowsIndex | main.py:42-43 | value `j` of inner list `i` lands at the number of values in the lists before `i`, plus `j` |
| Flatten.FlattenRowsConcat | main.py:38-45 | flattening a list of rows gives the rows laid end to end, the same list as an independent back-to-front concatenation |
| Flatten.FlattenRowsLength | main.py:42-43 | flattening lists gives as many values as they hold together |
| Flatten.FlattenUniformRows | main.py:42-43 | `n` lists of width `w` flatten to `n * w` values, and position `k` holds value `k % w` of list `k / w` |
| Costs.WeeklyCostIsWindowSum | main.py:60-63 | the weekly cost equals an independent index sum of the costs at the paired positions whose date lies in the start's seven-day window |
| Costs.WeeklyCostEmptyWindow | main.py:61-63 | with no paired date inside the window the weekly cost is zero |
| Costs.WeeklyCostAppend | main.py:63 | the weekly cost of two runs of records, the first fully paired, is the sum of their weekly costs |
| Costs.WeeklyCostIgnoresUnpaired | main.py:63 | dates or costs past the end of the shorter list do not change the result |
| Costs.InsertOutsideWindow | main.py:61-63 | inserting a record dated outside the window at any paired position leaves the weekly cost unchanged |
| Costs.NextMondayNotCounted | main.py:57-63 | a record dated seven days after the start is not counted |
| Costs.WeeklyCostNonNegative | main.py:63 | with non-negative costs the weekly cost is non-negative |
| Columns.HeaderIndex | main.py:78-82 | the header loop finds nothing exactly when no header cell holds the name; otherwise it finds the first cell that does |
| Columns.KeepValues | main.py:86 | the filtered column contains no value equal to the column name |
| Columns.KeepValuesCounts | main.py:86 | each non-empty cell that differs from the name is kept as many times as it occurs |
| Columns.KeepValuesInOrder | main.py:86 | the kept values appear in column order |
| Columns.GetColumnData | main.py:72-86 | the lookup fails with a header-not-found error exactly when no header cell holds the name; on success no value equals the name |
| Columns.GetColumnDataOfFirstMatch | main.py:78-86 | when the first header holding the name is at index `i`, the result is column `i` in order, with each other non-empty value kept as often as it occurs |
| Layout.CoordinatesLength | main.py:29 | the coordinate list of a `rows` by `columns` grid has `rows * columns` pairs |
| Layout.CoordinateAt | main.py:29 | pair `k` of the coordinate list is `(k / columns, k % columns)` and lies inside the grid |
| Layout.ZipWrites | main.py:31 | the write loop stops at the shorter of the coordinate and value lists; write `k` puts value `k` at coordinate `k` |
| Layout.AppendDataAsWrittenLayout | main.py:24-31 | `append_data` fails exactly on an empty list. Otherwise it writes the first `min(len(data) * len(data[0]), n)` of the `n` flattened values, value `k` at row `k / len(data)`, column `k % len(data)` |
| Layout.AppendDataAsWrittenAt | main.py:26-31 | write `k` of `append_data` carries flattened value `k` to row `k / len(data)`, column `k % len(data)` |
| Layout.AppendDataAsWrittenDistinct | main.py:29-31 | `append_data` never writes the same cell twice |
| Layout.AppendDataPlacesCells | main.py:24-31 | with the intended layout, value `j` of tuple `i` is written at row `i`, column `j` |
| Layout.AppendDataWritesOnlyCells | main.py:24-31 | with the intended layout, the writes carry the flattened values in order, only to cells of the data, and no cell twice |
| Layout.AsWrittenAgreesOnSquareData | main.py:26-29 | when every tuple has as many values as there are tuples, the written layout equals the intended one |
| Layout.AsWrittenMisplacesSecondRow | main.py:26-29 | with at least two tuples of equal width `w` and `w` different from their number, the first value of the second tuple is not written at row 1, column 0 |
| ReadBack.CellAfterDistinct | main.py:31 | when no two writes share a cell, each written cell ends up holding the value written to it |
| ReadBack.TableAfterAppendData | main.py:24-31 | writing rectangular data with the intended layout into an empty table of its size fills cell `(r, c)` with value `c` of tuple `r` |
| ReadBack.ReadBackTwoColumns | main.py:72-86 | under a header row of two distinct texts, each column written with the intended layout reads back under its header, provided no value repeats its header |
| ReadBack.ReadBackColumn | main.py:72-86 | after the intended layout is written, looking up a first-row header returns the values under it, provided no value under it repeats the header text |
| Weekly.Mondays | main.py:16 | the filtered dates are all Mondays, in ledger order, and include every Monday of the ledger |
| Weekly.MondaysCounts | main.py:16 | the filter keeps each Monday exactly as often as it occurs among the dates, and no other day |
| Weekly.MondaysKeepFirstSeenOrder | main.py:16 | filtering keeps the relative first-seen order of any two Mondays |
| Weekly.WeekStartsCharacterized | main.py:16 | the week starts are Mondays of the ledger with no repeats. Every Monday of the ledger is one of them, and they are in first-seen order |
| Weekly.WeeklyRowsLayout | main.py:16-18 | the rows are the literal header `("StartOfWeek (Monday)", "WeeklyCost")`, then one row per week start, in order, holding that Monday and its weekly cost |
| Weekly.WeeklyRowsCoverMondays | main.py:16-18 | every row after the header has two cells and starts with a Monday of the ledger. No two rows share a Monday, and every Monday of the ledger has its row |
| Weekly.RecordedWeeksCostAddWeek | main.py:18 | adding a new Monday adds exactly that week's cost to the cost of the covered records |
| Weekly.RecordedWeeksCostSameMondays | main.py:18 | the cost of the covered records depends only on which Mondays are listed |
| Weekly.SumOfWeeksIsRecordedCost | main.py:18 | over distinct Mondays, the weekly costs add up to the cost of the records dated in those weeks, with no record counted twice |
| Weekly.WeeklyRowsTotal | main.py:16-18 | the weekly costs of the rows add up to the cost of exactly those paired records whose week's Monday itself appears among the dates |
| Weekly.RecordedWeeksCostComplete | main.py:63 | when every paired record's Monday is listed, the covered cost is the total of all paired costs |
| Weekly.NoMondayNoWeeks | main.py:16-18 | a ledger without a Monday gives only the header row |
| Weekly.WeeklyLayoutMisplaced | main.py:17-31 | with two or more week starts, `append_data` as written does not put the first summary row's Monday at row 1, column 0, but the intended layout does |
| Weekly.WeeklyTableReadBack | main.py:14-31 | writing the weekly rows with the intended layout and reading the two columns back gives the week starts and their weekly costs |
| Weekly.ShiftedCostsScenario | main.py:14-18 | a ledger row with a date but an empty cost cell shifts the cost column: the 2024-01-08 cost is paired with 2024-01-02, so the week of 2024-01-01 gets both costs and the week of 2024-01-08 none |
| Weekly.ThreeWeeksScenario | main.py:14-18 | a newest-first ledger for three weeks, with a Wednesday entry, gives three rows, newest first, with the Wednesday counted in its week |
| Weekly.TwoWeeksLayoutScenario | main.py:24-31 | for week starts 2024-01-08 and 2024-01-01, `append_data` as written puts the first summary row's Monday at row 0, column 2 and its cost at row 1, column 0. The intended layout puts that Monday at row 1, column 0 |

## Left out

- File I/O: `np.Document(FILENAME)` and `numbers_doc.save` (main.py:10, 22) and the `settings` module are not modelled. The model starts from the table's cells and ends at the list of writes.
- `create_get_sheet` and `create_get_table` (main.py:88-101) return the first sheet or table with a name, or add one. They only look up or create library objects, so they are left out.
- The spreadsheet library is modelled as a plain grid of cells. `iter_rows`/`iter_cols` become `HeaderRow` and `Column`, with zero-based column indices. A row that stops short reads as empty cells. A table of the library always has a header row; on a grid with no rows the script's `[0]` would raise `IndexError`, and the model reports `HeaderNotFound` instead.
- `table.write` growing the table when a write falls outside it is not modelled. `ReadBack.TableAfter` starts from an empty table of the data's size.
- The `TypeError` guard of `calculate_weekly_cost` (main.py:59) cannot trigger in a typed model: every start is a day number.
- Times of day and time zones (`pendulum` date-times) are left out. A date is a whole day, so `date in week` is equality of day numbers.
- Floating-point costs are modelled as exact integer cents. `sum` rounding is not modelled.
- The script passes the cells returned by `get_column_data` (main.py:14-15) to `is_monday` and `sum` unconverted. `Weekly` assumes the Date column holds only dates and the Cost column only numbers, and takes them as lists of day numbers and cents. Otherwise the script raises an exception the model does not represent:
  - a text or number cell in the Date column raises `AttributeError` at `date.weekday()` (main.py:70);
  - a text or date cell in the Cost column raises `TypeError` in `sum` (main.py:63), but only when `zip` pairs it with a date inside the week of a Monday among the dates. A cost cell paired with no such date never reaches `sum`, and the script ignores it without an error. This happens, for example, when the ledger has no Monday at all, or when the cell's paired date lies in a week whose Monday is not listed.
- Weekly: the week totals of `Weekly.WeeklyRowsTotal` and `Weekly.SumOfWeeksIsRecordedCost` are totals per ledger record only when the Date and Cost cells are empty in the same rows. Otherwise the separately filtered columns shift against each other, and `zip` pairs a date with the cost of a later row. The model keeps this positional pairing (`Weekly.ShiftedCostsScenario` exhibits it) but does not relate it to the ledger's rows.
- `flatten_list` is modelled on lists of `Item`s, either an atom or a finite list. Strings are iterables in Python and would be spread character by character. The weekly rows are tuples, so this case does not arise in the pipeline.
- Calendar.Weekday: its contract only bounds the weekday number. What it computes is stated through `Calendar.IsMondayResidue` and `Calendar.IsMondayPeriodic`.

## Findings

| source | as written | input that shows it | evidently intended | confidence | as-written member | corrected member |
|---|---|---|---|---|---|---|
| main.py:26-31 | `columns` is set to the number of tuples and `rows` to the width of the first tuple, and the coordinates run over `rows` then `columns`, so flattened value `k` goes to row `k / len(data)`, column `k % len(data)` | the weekly rows for a ledger with Mondays 2024-01-08 and 2024-01-01: three tuples of two values. The Monday 2024-01-08 of the first summary row is written at row 0, column 2, and its cost at row 1, column 0 | value `j` of tuple `i` is written at row `i`, column `j`, so the table reads back as the rows built in `main` | not executed; follows from the coordinate arithmetic whenever the number of tuples differs from their width | Layout.AppendDataAsWritten (exhibited by Layout.AsWrittenMisplacesSecondRow and Weekly.TwoWeeksLayoutScenario) | Layout.AppendData (proved by Layout.AppendDataPlacesCells and Weekly.WeeklyTableReadBack) |
