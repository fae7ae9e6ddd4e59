# Payments-against-goal dashboard: the data transform

The dashboard loads a table of payments for one portfolio (*cartera*),
keeps the rows of the selected portfolio, lists the creation months
(`Mes_Creacion`) that occur, adds a column `Acumulado_Pagos` holding the
running sum of `Pagos` within each creation month, plots one line per
selected month with its last value annotated, draws a dashed goal line of
thirty points, and reports the largest running total. This project models
that transform in Dafny and proves what it computes; the page, the widgets,
the download and the chart drawing are not modelled.

Modules:

- `Frame` (`frame.dfy`): the row type `Record(cartera, mes, dia, pagos)`,
  the portfolio filter and the distinct-months list.
- `CumSum` (`cumsum.dfy`): the grouped running sum. `Accumulate` is its
  specification as a function over the table. `WithRunningTotals` is the
  one-pass computation with a `map<Month, real>` of running totals per month,
  writing an output array; it is proved equal to `Accumulate`.
- `Display` (`display.dfy`): the per-month sub-table, its last point, and the
  maximum running total.
- `Target` (`target.dfy`): the portfolio list, the goal per portfolio and the
  thirty-point goal line.

Amounts are exact `real`s, so "running sum" and "closed form" agree exactly.
Months are string labels compared for equality only. Rows are processed in
table order. Nothing sorts by day, because the source never does.

A design description of this dashboard, written apart from its code,
differs from the code in places. The model follows the code:

- The description sorts each month's rows by day before accumulating. The code
  accumulates in row order (`streamlit_app.py:72`), and so does the model.
- The description raises an error for an unknown portfolio. The code filters to an
  empty table. The model returns an empty table, an empty month list and no
  maximum.
- The description excludes malformed rows and classifies monthly peaks as
  low/mid/high. Neither happens in the code, so neither is modelled.
- The description calls the monthly running total non-decreasing. The code does not
  enforce that. The model proves it only for tables with no negative payment
  (`NoRefunds`).
- The description reports a maximum per month. The code reports a single maximum
  over all rows of the portfolio (`streamlit_app.py:105`), and so does the
  model. With no negative payment, that maximum is proved to be the largest
  monthly total.
- The description merges the records of one day into a single point (two
  day-1 payments of 50 and 20 and a day-3 payment of 30 give the points
  (1, 70) and (3, 100)). The code plots one point per row (`streamlit_app.py:79-80`),
  giving (1, 50), (1, 70) and (3, 100), and so does the model
  (`Display.MonthSliceCount`).
- The description takes the number of days of the goal line as a parameter
  and fails for a non-positive day count or a negative goal. The code fixes
  30 days and has no such check (`streamlit_app.py:86-89`), and so does the
  model (`Target.Dias`).

## Model

| member | source | states |
|---|---|---|
| `Frame.FilterCartera` | streamlit_app.py:62 | every kept row comes from the table and belongs to the selected portfolio |
| `Frame.FilterCarteraCount` | streamlit_app.py:62 | each row of the selected portfolio is kept exactly as often as it occurs in the table, and rows of other portfolios never are: nothing is dropped or duplicated |
| `Frame.FilterCarteraAppend` | streamlit_app.py:62 | filtering a concatenation is the concatenation of the filtered parts, so kept rows stay in their original relative order |
| `Frame.FilterCarteraIdempotent` | streamlit_app.py:62 | filtering the filtered table again by the same portfolio changes nothing |
| `Frame.Months` | streamlit_app.py:68 | the month column has one entry per row, and entry i is row i's creation month |
| `Frame.Unique` | streamlit_app.py:68 | the month list holds exactly the months of the filtered rows, each once |
| `Frame.UniqueInFirstAppearanceOrder` | streamlit_app.py:68 | the month list is ordered by each month's first appearance in the table |
| `CumSum.Accumulate` | streamlit_app.py:72 | the table with the running-total column keeps one row per input row; what each row holds is stated by `CumSum.AccumulateAt` |
| `CumSum.AccumulateAt` | streamlit_app.py:72 | row i of the result keeps all its fields and its running total is the sum of `Pagos` over rows j <= i with the same creation month |
| `CumSum.WithRunningTotals` | streamlit_app.py:72 | the one-pass computation with a per-month map of running totals produces exactly the specified column for every row |
| `CumSum.DropColumn` | streamlit_app.py:72 | adding the column keeps the row count and every other field: dropping it gives back the table |
| `CumSum.AccumulateSnoc` | streamlit_app.py:72 | appending a row leaves earlier totals unchanged and gives the new row its month's previous total plus its own payment |
| `CumSum.MonthTotalLocal` | streamlit_app.py:72 | a month's total does not depend on rows of other months |
| `CumSum.OtherMonthsUnchanged` | streamlit_app.py:72 | changing rows of month m (keeping them in month m) changes no running total of a row of another month |
| `CumSum.MonthTotalPrefix` | streamlit_app.py:72 | with no negative payment, a month's total over a prefix of the table is at most its total over the whole table |
| `Display.MonthSlice` | streamlit_app.py:79 | a month's sub-table has at most as many rows as the table; which rows, how often and in what order is stated by `Display.MonthSliceCount` and `Display.MonthSliceAppend` |
| `Display.MonthSliceMembers` | streamlit_app.py:79 | a row is in the month's sub-table exactly when it is a row of the table in that month (membership only) |
| `Display.MonthSliceCount` | streamlit_app.py:79 | each row of the month appears in the sub-table exactly as often as in the table, and no row of another month appears, so the line has one point per row |
| `Display.MonthSliceAppend` | streamlit_app.py:79 | slicing a concatenation is the concatenation of the slices, so the month's rows keep their relative order from the table |
| `Display.MonthSliceSnoc` | streamlit_app.py:79 | appending a row extends the month's sub-table by that row exactly when the row belongs to the month |
| `Display.LastPoint` | streamlit_app.py:82-83 | the last point exists exactly when the sub-table is non-empty, and its value is the last row's running total |
| `Display.MonthSliceSums` | streamlit_app.py:79 | each point of a month's line is the sum of the month's payments up to and including its row, and the line's payments add up to the month's total |
| `Display.MonthSliceEmpty` | streamlit_app.py:79 | a month's sub-table is empty exactly when the month does not occur in the table |
| `Display.MonthSliceIsRunningSum` | streamlit_app.py:79-83 | a month's line is the running sum of its payments, and its last point equals the sum of all the month's payments |
| `Display.LastPointIsMonthTotal` | streamlit_app.py:82-83 | for every month in the table, the annotated last point exists and equals that month's total |
| `Display.RunningSumMonotone` | streamlit_app.py:79 | on a running-sum line with no negative payment, a later point is never below an earlier one |
| `Display.MonthSliceNonDecreasing` | streamlit_app.py:79 | with no negative payment, every month's line is non-decreasing in row order |
| `Display.SelectedMonthsHaveLastPoint` | streamlit_app.py:78-83 | every month that the month selector can offer has a non-empty line whose last point is the month's total, so the last-row lookup cannot fail |
| `Display.MaxAcumulado` | streamlit_app.py:105 | for a non-empty table the maximum is at least every row's running total and equals one of them; an empty table has no maximum |
| `Display.RowTotalAtMostMonthTotal` | streamlit_app.py:72 | with no negative payment, no row's running total exceeds its month's total |
| `Display.MonthTotalAttained` | streamlit_app.py:72 | every month's total is the running total of some row |
| `Display.MaxIsLargestMonthTotal` | streamlit_app.py:105 | with no negative payment, the reported maximum is some month's total and no month's total exceeds it |
| `Target.MetaFor` | streamlit_app.py:86 | the goal lookup succeeds exactly for portfolios that have a goal, and returns that goal |
| `Target.EverySelectableCarteraHasMeta` | streamlit_app.py:32-54 | the selectable portfolios and the portfolios with a goal are the same set, and each goal is positive, so the lookup cannot fail |
| `Target.Repeat` | streamlit_app.py:89 | the list of daily goals has exactly n entries |
| `Target.RunningSum` | streamlit_app.py:89 | the cumulative sum has one entry per summand; its values are stated by `Target.RunningSumOfRepeat` |
| `Target.RunningSumOfRepeat` | streamlit_app.py:89 | the cumulative sum of n copies of x has k·x at position k (counting from 1) |
| `Target.Trajectory` | streamlit_app.py:86-89 | the goal line has `Dias` (30) points; their days and values are stated by `Target.TrajectoryClosedForm` |
| `Target.TrajectoryClosedForm` | streamlit_app.py:86-89 | the goal line has 30 points for days 1..30, day d carries d·meta/30, and day 30 carries the goal itself |

## Left out

- Page setup, the refresh button and cache clearing, the HTML banner, the
  selectors, the table and metric widgets (`streamlit_app.py:11-29`, 54, 65,
  69, 106): user interface. The selectors appear only as inputs: the
  portfolio list and the month selection of `Display.SelectedMonthsHaveLastPoint`.
- The default selection of the first two months (`streamlit_app.py:69`): a
  user-interface choice.
- Reading the Parquet file from its address (`streamlit_app.py:57-59`) and the
  addresses themselves: a network fetch and a file parse done by libraries.
  The table arrives as a `seq<Record>` parameter.
- Building the chart (`streamlit_app.py:75-102`): traces, annotations, layout
  and number formatting. Only the plotted values are modelled: each month's
  sub-table, its last point, and the goal line.
- Floating-point rounding of `meta / 30`, of the cumulative sums and of the
  payment amounts: amounts are exact reals.
- Missing values: every row has a month and an amount. Grouping rows with a
  missing month and skipping missing amounts are not modelled.
- The error handler that shows any exception (`streamlit_app.py:108-109`).
  The two failures it could meet inside the transform are modelled as `None`
  (`Target.MetaFor`, `Display.LastPoint`), and both are proved not to occur
  for inputs the selectors can produce.
- An empty table's maximum, a missing value in the source, is `None` in
  `Display.MaxAcumulado`.
- Unused imports.
