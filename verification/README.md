# Pedal Palooza availability data, modelled in Dafny

Pedal Palooza is a hobby dashboard over mock availability data for a fictional
shared-bicycle service (OV-Pedal). Seven stations report how many bicycles are
available once per minute. This project models the core of the repository:

- **The two mock-data generators.** Each produces the minute-by-minute table by
  a bounded random walk.
  - `data/generate_mock_data.py` writes `timestamp, location_name, n_available`.
  - `src/generate_mock_data.py` also writes a noisy `predicted` column and the
    calendar columns `weekday`, `weekday_name`, `is_weekend`, `hour`, `week`.
- **The calendar features.** `app/app.py` derives the same calendar columns when
  it loads the table. The pandas day-of-week, day name, hour and ISO 8601 week
  (ISO 8601 weeks: Monday-based, the week containing 4 January is week 1) are
  modelled on a proleptic Gregorian calendar.
- **The sidebar filters of the three dashboards:**
  - `app/app.py`: a whole-day date window; an empty location selection means
    every location.
  - `app.py`: an inclusive datetime window, with the same fallback.
  - `src/app.py`: a whole-day date window, without the fallback.
- **The group-by aggregates behind the charts of `src/app.py`:**
  - zero-availability counts per location
  - per-timestamp mean
  - per-(timestamp, location) sums

## How the model is built

Timestamps are whole minutes since 0001-01-01 00:00 (`Calendar.Timestamp`). All
data is minute-resolution.

numpy's seeded generator becomes an explicit stream of raw draws. The k-th call
of `np.random.randint(lo, hi)` returns `lo + draws[k] mod (hi - lo)`. Every value
in `[lo, hi)` is reachable (`RandomWalk.RandIntCovers`). Each table is therefore
a function of the draw stream.

Where the scripts behave in ways a reader might not expect, the model follows
the code:

- **One walk through the whole table.** The walk continues from `data[-1]`, the
  last row written, whatever its location. There is one walk over all rows;
  the first row of every location after the first steps from the previous
  location's last row (`MockData.LocationContinuesWalk`).
- **Exclusive upper bound.** `randint`'s upper bound is exclusive:
  - `max_available` is never produced.
  - A step goes at most `max_delta` down but only `max_delta - 1` up
    (`RandomWalk.Step`).
- **The prediction is not clamped.** It can fall below `min_available`
  (`MockDataPredicted.PredictionNotClamped`).
- **Whole-day date filters.** A date bound covers its whole day, so the end
  date is included up to 23:59 (`DashboardApp.EndDateIncludedWhole`).
- **The `src/app.py` dashboard has no empty-selection fallback.** An empty
  selection shows nothing there (`DashboardSrc.EmptySelectionShowsNothing`).

## Model

| member | source | states |
|---|---|---|
| RandomWalk.RandInt | data/generate_mock_data.py:35-38 | a randint draw lies in [lo, hi), upper bound excluded |
| RandomWalk.RandIntCovers | data/generate_mock_data.py:35-38 | every value of [lo, hi) is the outcome of some draw, so the draw abstraction loses no outcome |
| RandomWalk.WindowNonEmpty | data/generate_mock_data.py:36-37 | from an in-range value the clamped window always contains that value, so randint is never called on an empty range |
| RandomWalk.First | data/generate_mock_data.py:38 | the first value lies in [min_available, max_available - 1] |
| RandomWalk.Step | data/generate_mock_data.py:35-37 | a step stays in [min_available, max_available - 1] and moves at most max_delta down and max_delta - 1 up |
| RandomWalk.StepCovers | data/generate_mock_data.py:35-37 | every in-range value within those step limits is reachable, so the step contract is tight |
| RandomWalk.Walk | data/generate_mock_data.py:33-40 | one value per draw; every value in range; every consecutive pair within the step limits |
| RandomWalk.WalkPrefix | data/generate_mock_data.py:33-40 | the first k values depend only on the first k draws |
| RandomWalk.WalkRecurrence | data/generate_mock_data.py:35-38 | value 0 is drawn from the full range; value i is a step from value i - 1 with draw i |
| Schedule.Ticks | data/generate_mock_data.py:31-42 | the inner loop runs once per minute from start to end inclusive, and not at all when start is after end |
| Schedule.Layout | data/generate_mock_data.py:27-42 | rows are location-major: block k holds location k, stamped start, start + 1, ..., end |
| MockData.Rows | data/generate_mock_data.py:33-45 | the table has one row per location and minute; every n_available is in [min_available, max_available - 1], consecutive rows respect the step limits, and there is no prediction column |
| MockData.Generate | data/generate_mock_data.py:24-42 | the nested loops, each randint reading the next draw of the stream, build exactly the table of the walk over the first RowCount draws and use one draw per row |
| MockData.AppendLocation | data/generate_mock_data.py:31-42 | the inner loop for location k appends the next Ticks rows of that table, with the draw cursor at the number of rows written |
| MockData.NextRow | data/generate_mock_data.py:35-40 | the row appended at index i, computed from the last row so far, is row i of the table |
| MockData.AvailabilityInBounds | data/generate_mock_data.py:35-38 | every n_available lies in [min_available, max_available - 1] |
| MockData.ConsecutiveRows | data/generate_mock_data.py:35-37 | consecutive rows, also across a change of location, differ by at most max_delta down and max_delta - 1 up |
| MockData.LocationContinuesWalk | data/generate_mock_data.py:27-38 | only row 0 uses the full range; the first row of each later location steps from the previous location's last row |
| MockData.RowsOfLocation | data/generate_mock_data.py:27-42 | row k * ticks + j carries location k, minute start + j, and no prediction |
| MockData.SameDrawsSameRows | data/generate_mock_data.py:33-42 | the table depends only on the first RowCount draws (determinism under a fixed seed) |
| MockDataPredicted.Predicted | src/generate_mock_data.py:40 | the prediction is the availability plus noise in [-5, 4] |
| MockDataPredicted.Rows | src/generate_mock_data.py:33-47 | the table has one row per location and minute; every n_available is in range and every prediction lies within [-5, 4] of it |
| MockDataPredicted.Generate | src/generate_mock_data.py:24-44 | the nested loops, each randint reading the next draw of the stream, build exactly the modelled table and use exactly two draws per row, so availability takes the even draws and noise the odd ones |
| MockDataPredicted.AppendLocation | src/generate_mock_data.py:31-44 | the inner loop for location k appends the next Ticks rows of that table, with the draw cursor at twice the rows written |
| MockDataPredicted.DrawRow | src/generate_mock_data.py:35-42 | two randint calls reading the stream in order, availability first and then the noise, produce row i of the table and advance the cursor by two |
| MockDataPredicted.RowAvailable | src/generate_mock_data.py:35-42 | row i holds its timestamp, its location, the loop's availability and that availability plus the noise of draw 2i + 1 |
| MockDataPredicted.RowBounds | src/generate_mock_data.py:35-40 | availability in range, prediction within [-5, 4] of it, consecutive availabilities within the step limits |
| MockDataPredicted.LocationContinuesWalk | src/generate_mock_data.py:27-38 | the walk continues across locations, drawing from the even draws |
| MockDataPredicted.StepFromEvenDraw | src/generate_mock_data.py:35-40 | row i > 0 steps from row i - 1 with draw 2i |
| MockDataPredicted.PredictionNotClamped | src/generate_mock_data.py:40 | with zero draws the first row has availability min_available and a prediction of min_available - 5, outside the valid range |
| MockDataPredicted.RowPredicted | src/generate_mock_data.py:40 | row i's prediction is its availability plus the noise of draw 2i + 1 |
| MockDataPredicted.SameDrawsSameRows | src/generate_mock_data.py:33-44 | the table depends only on the first 2 * RowCount draws |
| MockDataPredicted.GenerateEnriched | src/generate_mock_data.py:47-55 | the exported table is the generated rows, in order, each with the calendar columns derived from that row's own timestamp |
| Calendar.ToOrdinal | app/app.py:36-37 | a valid date's ordinal lies within its year and month |
| Calendar.FromOrdinal | app/app.py:36-37 | every ordinal ≥ 1 is the ordinal of a valid date (`.dt.date`) |
| Calendar.FromToOrdinal | app/app.py:36-37 | every valid date is recovered from its ordinal |
| Calendar.OrdinalMonotone | app/app.py:36-37 | ordinals order valid dates as Python compares them, and distinct dates have distinct ordinals |
| Calendar.YearLength | app/app.py:36-37 | the closed-form leap-day count makes consecutive years exactly 365 or 366 days apart |
| Calendar.DateOf | app/app.py:36-37 | the date part of a timestamp is a valid date, and its ordinal is the timestamp's day |
| Calendar.DayWindow | app/app.py:36-37 | `t.date() >= lo` iff t is at or after lo's midnight; `t.date() <= hi` iff t is before the next midnight |
| Calendar.Weekday | app/app.py:10 | day of week 0..6 with Monday = 0: the day minus its weekday is a Monday, an ordinal congruent to 1 modulo 7 (ordinal 1 is a Monday) |
| Calendar.WeekdayName | app/app.py:11-12 | the English name of that weekday; the name is Saturday or Sunday exactly when the weekday exceeds 4 |
| Calendar.HourOf | app/app.py:13 | hour 0..23 of the minute within its day |
| Calendar.Week1Start | app/app.py:14 | the Monday on or before 4 January starts ISO week 1 |
| Calendar.IsoYearLength | app/app.py:14 | every ISO year is 52 or 53 whole weeks long |
| Calendar.IsoWeek1Monday | app/app.py:14 | the Monday of ISO week 1, computed from 1 January's weekday as CPython does, is the Monday on or before 4 January |
| Calendar.Week1MondayFromJan1 | app/app.py:14 | Python's week-1 Monday, found from 1 January's weekday, is the Monday on or before 4 January |
| Calendar.IsoCalendar | app/app.py:14 | isocalendar() returns the ISO reading of the day: ISO year, week 1..53, weekday 1..7 |
| Calendar.IsoCalendarInYear | app/app.py:14 | isocalendar()'s step back to the previous ISO year and forward to the next one selects the ISO year holding the day |
| Calendar.IsoWeekdayAgrees | app/app.py:10-14 | the ISO weekday is the pandas weekday plus one |
| Calendar.IsoDateUnique | app/app.py:14 | a day has only one ISO reading, so the week column is well defined |
| Calendar.Jan4InWeekOne | app/app.py:14 | 4 January is always in week 1 of its own year |
| Calendar.DaysOfIsoWeek | app/app.py:14 | the six days after an ISO week's Monday share its ISO year and week number |
| Calendar.At | app.py:43-44 | `datetime.combine(date, time)` gives a timestamp on that day, at that hour and minute |
| Calendar.FridayMorningExample | app.py:38-44 | the default start, 2 June 2023 07:00, is a Friday morning, not a weekend, hour 7 |
| Features.Derive | src/generate_mock_data.py:51-54 | weekday 0..6, its name, is_weekend exactly for Saturday and Sunday, hour 0..23 |
| Features.DeriveWeek | src/generate_mock_data.py:55 | the week column is the ISO week (1..53) of the row's day, read with the row's weekday |
| Features.Enrich | app/app.py:10-14 | the calendar columns are appended to every row, keeping rows and order |
| Seqs.Filter | app/app.py:35-39 | a boolean mask keeps exactly the rows satisfying it, and no others |
| Seqs.FilterMultiplicity | app/app.py:35-39 | a mask keeps every copy of a selected row and no copy of a rejected one |
| Seqs.FilterIsSubsequence | app/app.py:35-39 | masking keeps the table's row order |
| Seqs.FilterIdempotent | app.py:53-57 | applying the same mask twice changes nothing |
| Seqs.Unique | app/app.py:31-33 | `unique()` lists each value once, all values present, in order of first appearance |
| Selection.AllLocations | app/app.py:33 | every location in the table once, and nothing else, in order of first appearance |
| Selection.WithFallback | app/app.py:32-33 | an empty selection becomes every location of the table; any other is kept |
| Selection.FallbackSelects | app.py:49-50 | after the fallback, a row's location is selected iff it was picked or nothing was picked |
| DashboardApp.Filtered | app/app.py:31-39 | the shown rows keep table order, and are exactly the rows whose day lies in [start, end] and whose location is selected, with the fallback, each with all its copies |
| DashboardApp.EmptySelectionShowsWholeWindow | app/app.py:32-38 | with nothing selected, a row is shown iff its day lies in the window |
| DashboardApp.EndDateIncludedWhole | app/app.py:37 | every minute of the end date is shown |
| DashboardMain.Filtered | app.py:47-57 | the shown rows keep table order, and are exactly the rows stamped within [start, end] inclusive whose location is selected or nothing is, each with all its copies |
| DashboardMain.DefaultSelectionIsFallback | app.py:47-50 | the default selection (every location) shows the same rows as an emptied one |
| DashboardMain.ReversedWindowIsEmpty | app.py:53-55 | an end before the start shows nothing |
| DashboardMain.FilteringTwiceChangesNothing | app.py:53-57 | filtering the filtered table again with the same inputs changes nothing |
| DashboardSrc.Filtered | src/app.py:27-31 | the shown rows keep table order, and are exactly the rows whose day lies in [start, end] and whose location was picked, each with all its copies |
| DashboardSrc.EmptySelectionShowsNothing | src/app.py:20-31 | with no fallback, an empty multiselect shows no rows |
| DashboardSrc.LocationData | src/app.py:36 | the second location mask keeps, in the table's order, exactly the rows whose location is selected, each with all its copies |
| DashboardSrc.LocationDataIsFiltered | src/app.py:36 | the second location mask is redundant: location_data equals filtered_df |
| DashboardSrc.ZeroCounts | src/app.py:46 | one bar per location that ran empty and none other, each the positive number of its empty rows |
| DashboardSrc.ZeroLocations | src/app.py:46 | grouping the zero rows by location yields exactly the locations that ran empty |
| DashboardSrc.MeanParts | src/app.py:51 | one entry per timestamp present and none other, holding the sum and the positive number of exactly the rows at that timestamp |
| DashboardSrc.MeanWithinBounds | src/app.py:51 | one mean per timestamp present, and none other; each has a positive count and lies between the bounds of the values |
| DashboardSrc.Stacked | src/app.py:56 | one cell per (timestamp, location) present in location_data and none other, holding the sum over exactly the rows of that cell |
| DashboardSrc.StackedCells | src/app.py:56 | one stacked cell per (timestamp, location) present in the filtered table, and only selected locations |
| GroupBy.Group | src/app.py:51 | one group per key some row carries, and none other; each group's sum and count are those of exactly its rows |
| GroupBy.SumBy | src/app.py:56 | per key present, the sum of exactly its rows' values |
| GroupBy.SizeBy | src/app.py:46 | per key present, the positive number of its rows |
| GroupBy.TallyBounds | src/app.py:51 | a group of values in [lo, hi] has count * lo <= sum <= count * hi |

## Left out

- Streamlit layout, widgets and all charts: they are presentation. The widget values are parameters of the filters.
- CSV reading and writing, `pd.to_datetime` parsing and logging: these are I/O. Tables are sequences of records.
- numpy's Mersenne Twister and `np.random.seed(42)`: the generator is a caller-supplied stream of raw draws.
- The lower quartile per location (src/app.py:41): pandas' interpolated quantile is floating point.
- DashboardSrc.MeanWithinBounds: the mean itself (src/app.py:51) is a floating-point division. The model keeps the per-timestamp sum and count, and bounds their ratio.
- The histogram (src/app.py:61): its 20-bin layout is plotting.
- `compute_weighted_average` (app.py:23): its module `src/helper_functions.py` is not part of this model. The app.py filter is modelled on the table as loaded.
- Calendar.IsoCalendar: pandas' own `dt.isocalendar()` routine is not part of this model. CPython's `date.isocalendar` algorithm stands in for it, and its result is proved to be the ISO 8601 reading of the day (`Calendar.IsIsoDate`), which is unique (`Calendar.IsoDateUnique`).
- The melt of app.py:58: it only reshapes for plotting.
- MockData.Generate: the scripts do not check `min_available < max_available` or `max_delta >= 1`. Without them, numpy raises on an empty range. The model requires these conditions (`RandomWalk.ValidBounds`) instead of modelling the exception.
