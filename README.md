# Bike-share dashboard: the per-query aggregation pipeline

This project models the data processing in `main()` of the bike-share
dashboard (`dashboard/dashboard.py`, lines 64-119) and proves its properties
in Dafny. On each query the dashboard does the following:

- It keeps the daily rental rows whose `dteday` lies in the selected range,
  inclusive at both ends.
- If no row is left, it shows a "no data in the selected range" warning and
  stops.
- Otherwise it shows three metric cards: the total, the daily mean and the
  peak of `cnt`.
- It also builds three chart series:
  - rentals per calendar month (`resample('M')`);
  - rentals per season, in the order Spring, Summer, Fall, Winter;
  - rentals per day of the week, in the order Monday … Sunday.

The model is pure, like the pipeline itself. It uses datatypes, recursive
functions over `seq<Record>`, and lemmas.

- `calendar.dfy` (module `Calendar`) covers the Gregorian calendar the pandas
  timestamps stand for.
  - A `Date` is a valid (year, month, day) triple.
  - `DayNumber` counts days since 1970-01-01. This is what a timestamp
    comparison compares.
  - `DayName` gives the English weekday name, the value of
    `dt.day_name()`.
  - `YearMonth` and `MonthIndex` number calendar months consecutively. These
    are the bins of `resample('M')`.
- `rentals.dfy` (module `Rentals`) defines the daily record and the two pandas
  idioms the charts use:
  - `GroupTotal` is `groupby(key)['cnt'].sum()` at one group.
  - `Reindex` is `.reindex(order)`. A category without rows becomes a missing
    value (`None`).
  - It also holds the conservation lemmas for these two idioms.
- `dashboard.dfy` (module `Dashboard`) holds the pipeline:
  - `Filter`, the metrics, and the `Monthly`, `Seasonal` and `Weekdays`
    series;
  - `Aggregate`, the whole query, which returns `NoData` or a `Report`.
- `example.dfy` (module `DashboardExample`) works through a two-day table
  (2024-01-01 and 2024-02-15) from start to finish.

### Behaviour worth noting

- **Missing seasons and weekdays.** `.reindex(order)` is called without a fill
  value, so a season or weekday with no rows is a missing value (NaN), which
  the model writes as `None`, not 0.
  - In the two-day example, Summer and Fall are `None`.
  - Conservation is therefore stated over the *present* entries
    (`PresentSum`).
- **Empty months.** `resample('M')` produces every month from the earliest
  row's month to the latest row's month, whatever the table order, and an
  empty month in between sums to 0.
- **Reversed range.** Nothing rejects a start date after the end date: the
  filter selects nothing, and the page shows the same "no data" warning as for
  an empty range (`ReversedRangeIsEmpty`).

## Model

| member | source | states |
|---|---|---|
| Calendar.DayNumberOrder | dashboard/dashboard.py:66-67 | comparing day numbers (timestamps) is comparing dates on the calendar; two dates are equal exactly when their day numbers are equal |
| Calendar.DayNumberNextDay | dashboard/dashboard.py:66-67 | the day after any date has the next day number, across month and year ends |
| Calendar.DaysInMonth | dashboard/dashboard.py:92 | a Gregorian month has 28 to 31 days, and 29 exactly for February of a leap year |
| Calendar.DayNameNextDay | dashboard/dashboard.py:119 | successive calendar days have successive day names, Sunday followed by Monday |
| Calendar.DayNameAnchors | dashboard/dashboard.py:119 | 1970-01-01 is a Thursday, 2011-01-01 a Saturday, 2024-01-01 a Monday, 2012-12-31 a Monday, 2000-03-01 a Wednesday, 2100-03-01 a Monday and 1600-03-01 a Wednesday |
| Calendar.MonthAt | dashboard/dashboard.py:92 | every month index names a valid month whose index it is |
| Calendar.MonthAtIndex | dashboard/dashboard.py:92 | month keys and month indices convert into each other without loss |
| Calendar.MonthAtOrder | dashboard/dashboard.py:92 | month indices are ordered exactly as calendar months are |
| Calendar.MonthOfMonotone | dashboard/dashboard.py:92 | a later date never falls in an earlier month |
| Calendar.DayName | dashboard/dashboard.py:119 | no ensures of its own: the reference definition of `dt.day_name()`, the weekday of the day number counted from a Thursday; `DayNameNextDay` and `DayNameAnchors` characterise it |
| Dashboard.Filter | dashboard/dashboard.py:65-68 | its own ensures gives only that the selection is no longer than the table; which rows it keeps and in what order are stated by `FilterMembers`, `FilterKeepsOrder` and `FilterSingle` |
| Dashboard.Mean | dashboard/dashboard.py:86 | no ensures of its own: the reference definition of `cnt.mean()` as the exact quotient of the total by the row count; `MeanAtMostPeak` bounds it by the peak |
| Dashboard.InRangeCalendar | dashboard/dashboard.py:65-68 | the range test holds exactly when the date is neither before the start nor after the end, so both ends are included |
| Dashboard.FilterMembers | dashboard/dashboard.py:65-68 | a row is in the filtered table exactly when it is in the table and in range |
| Dashboard.FilterKeepsOrder | dashboard/dashboard.py:65-68 | filtering distributes over concatenation, so the kept rows stay in table order |
| Dashboard.FilterSingle | dashboard/dashboard.py:65-68 | a one-row table filters to itself when the row is in range and to nothing otherwise |
| Dashboard.Peak | dashboard/dashboard.py:88 | the peak is the count of some row and no row's count exceeds it |
| Dashboard.MeanAtMostPeak | dashboard/dashboard.py:86-88 | the exact daily mean never exceeds the peak |
| Dashboard.TotalMonotone | dashboard/dashboard.py:65-84 | with non-negative counts, a wider range never has a smaller total |
| Dashboard.BinsConserve | dashboard/dashboard.py:92 | bins spanning every row's month add up to the total count |
| Dashboard.Monthly | dashboard/dashboard.py:92 | the monthly series is empty exactly for an empty table, and its bins add up to the total |
| Dashboard.MonthlyShape | dashboard/dashboard.py:92 | the bins are in strictly increasing month order with no gap; they run from the earliest row's month to the latest; every row's month has a bin; each bin is its month's sum of `cnt`; a month without rows sums to 0 |
| Dashboard.Seasonal | dashboard/dashboard.py:104-105 | four entries in the order Spring, Summer, Fall, Winter; an entry is present exactly when a row has that season; a present entry is that season's sum; the present entries add up to the total |
| Dashboard.Weekdays | dashboard/dashboard.py:118-119 | seven entries in the order Monday … Sunday; an entry is present exactly when a row falls on that day; a present entry is that day's sum; the present entries add up to the total |
| Dashboard.Aggregate | dashboard/dashboard.py:64-119 | "no data" exactly when no row is in range, that is when the filtered table is empty; otherwise the total and the exact mean of the filtered rows, a peak attained by an in-range row and bounding every in-range row, the monthly series of the filtered rows, the seasonal and weekday series of the filtered rows (four and seven entries, each present exactly when an in-range row has that season or weekday, a present entry being that group's sum of `cnt`), and monthly, seasonal and weekday series that each add up to the total |
| Dashboard.SeasonalInRange | dashboard/dashboard.py:65-105 | a season's entry for the selected range is present exactly when some row in range has that season |
| Dashboard.WeekdaysInRange | dashboard/dashboard.py:65-119 | a weekday's entry for the selected range is present exactly when some row in range falls on that weekday |
| Dashboard.ReversedRangeIsEmpty | dashboard/dashboard.py:64-73 | a range whose start is after its end gives "no data" for every table |
| Rentals.Total | dashboard/dashboard.py:84 | no ensures of its own: the reference definition of `cnt.sum()`; `TotalConcat`, `TotalAtMost` and the conservation lemmas (`ReindexConserves`, `BinsConserve`) characterise it |
| Rentals.GroupTotal | dashboard/dashboard.py:105 | no ensures of its own: the reference definition of `groupby(key)['cnt'].sum()` at one group (also used at line 119); `GroupTotalAbsent`, `GroupTotalConcat` and `GroupSumsPartition` characterise it |
| Rentals.TotalConcat | dashboard/dashboard.py:84 | the total of a concatenation is the sum of the parts' totals |
| Rentals.TotalAtMost | dashboard/dashboard.py:84-88 | counts bounded by m make a total of at most m per row |
| Rentals.MaxBy | dashboard/dashboard.py:88 | the maximum is attained by some row and bounds every row |
| Rentals.MinBy | dashboard/dashboard.py:92 | the minimum is attained by some row and bounds every row from below |
| Rentals.GroupTotalAbsent | dashboard/dashboard.py:105 | a group without rows sums to 0 |
| Rentals.GroupTotalConcat | dashboard/dashboard.py:105 | group sums are additive over concatenated tables |
| Rentals.Reindex | dashboard/dashboard.py:105 | one entry per category in order; present exactly when the category has a row; a present entry is the group's sum |
| Rentals.GroupSumsCons | dashboard/dashboard.py:105 | one more row adds its count to exactly the one listed category it belongs to |
| Rentals.GroupSumsPartition | dashboard/dashboard.py:105 | the groups of distinct categories that cover every row add up to the total |
| Rentals.PresentSumReindex | dashboard/dashboard.py:105 | the present entries of a reindexed series add up to the group sums of its categories |
| Rentals.ReindexConserves | dashboard/dashboard.py:105 | with distinct categories that cover every row, the present entries add up to the total |
| DashboardExample.TwoDayMetrics | dashboard/dashboard.py:84-88 | for the two-day table: total 300, peak 200, mean 150 |
| DashboardExample.TwoDayMonthly | dashboard/dashboard.py:92 | for the two-day table: bins (2024-01, 100) and (2024-02, 200) |
| DashboardExample.TwoDaySeasonal | dashboard/dashboard.py:104-105 | for the two-day table: Spring 200, Summer and Fall missing, Winter 100 |
| DashboardExample.TwoDayWeekdays | dashboard/dashboard.py:118-119 | for the two-day table: Monday 100, Thursday 200, the other five days missing |
| DashboardExample.TwoDayQuery | dashboard/dashboard.py:64-119 | the whole report for the range 2024-01-01 … 2024-02-15 |
| DashboardExample.TwoDayQueryOutside | dashboard/dashboard.py:64-73 | the range March 2024 gives "no data" |

## Left out

- `file_path` (lines 16-25): filesystem probing and `st.stop()` are I/O and UI
  control flow.
- `load_data` (lines 28-36): reading the CSV, parsing dates with
  `pd.to_datetime` and caching the result are I/O and foreign library calls.
  The table is taken as an already-parsed `seq<Record>`. A missing or
  unreadable file is not modelled.
- The sidebar and date picker (lines 41-57): they are UI input. The range is a
  pair of `Date` parameters.
  - When the picker returns one date instead of two, the unpacking at line 64
    raises an error. The model has no such case, because it always receives
    two dates.
- `Dashboard.Mean`: the daily mean is an exact rational. The floating-point
  result of `mean()` and its `:.0f` display rounding are not modelled.
- `cnt` and the sums are unbounded integers. pandas' 64-bit overflow is not
  modelled.
- Timestamps carry no time of day. A `dteday` is a midnight date, which is what
  parsing a date-only column gives.
- The monthly bins are labelled by (year, month). pandas labels each bin with
  the month's last day. That is a naming detail and does not change the
  grouping.
- `Rentals.Season` has exactly the four names of `season_order`, so the model
  cannot hold a row whose season is some other value or missing. In the source
  such rows would be dropped by the `groupby` (a missing season, since
  `groupby` excludes missing keys) or by `.reindex(season_order)` (any other
  value), and the seasonal
  entries would then no longer add up to the total.
- `observed=True` has no effect on a non-categorical season column, so it is
  not modelled.
- All charts and cards (`st.metric`, `px.area`, `px.bar`, `px.line`,
  `st.plotly_chart`, `st.title`, `st.markdown`) are rendering only.
