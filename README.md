# CoronaVirus Dashboard data pipeline, modelled in Dafny

This project models the data-reshaping core of the CoronaVirus Dashboard web app and proves properties of it. That core is `cum_data` in `web_app/wrangling_scripts/wrangle_data.py`, plus the day-over-day change and fatality-ratio lines of `plot_growth_stats`.

`cum_data` reads one wide case-count table (Confirmed, Deaths or Recovered). The table has one row per location (province and country) and one column per date. The function turns it into one daily series. It works in one of two modes:

- **region mode** sums the provinces of the region of interest. The source hard-codes `Mainland China`.
- **rest-of-world mode** sums every other country.

Both modes go through the same steps:

1. a column filter drops the index, latitude and longitude columns;
2. each location's counts are forward-filled along the dates;
3. the dates are resampled to one entry per calendar day, taking the maximum;
4. the locations are summed, with a missing value counting 0.

`plot_growth_stats` then takes the `diff` of each series and computes `deaths / confirmed * 100`.

The code is pure, so the model is datatypes, functions and lemmas. The modules are:

| module | file | contents |
|---|---|---|
| `Wrappers` | `wrappers.dfy` | `Option`, `Result` |
| `Tables` | `tables.dfy` | rows, raw tables, the column filter |
| `Fill` | `fill.dfy` | forward-fill |
| `Resample` | `resample.dfy` | daily index, daily maximum, sum across locations |
| `Order` | `order.dfy` | sorting the country columns by name |
| `Aggregate` | `aggregate.dfy` | the two modes and `CumData` |
| `Totals` | `totals.dfy` | what each mode totals and how the two fit together |
| `Metrics` | `metrics.dfy` | `diff` and the fatality ratio |
| `Growth` | `growth.dfy` | the ratio of two `cum_data` results |
| `Scenarios` | `scenarios.dfy` | worked examples on small concrete tables |

Modelling choices:

- A date column's label is mapped to an integer day number by a function parameter `dayOf`. This stands for `pd.to_datetime`.
- The region is a parameter.
- A missing cell is `None`.
- The ratio is an `Option<real>`: an exact rational, `None` where pandas would give NaN or inf.

Some behaviours of the code are easy to miss; the model keeps them:

- **A calendar day with no date column totals 0, not the previous day's value.** `resample('D').max()` leaves such a day NaN in every location, and `sum` counts NaN as 0 (`Resample.DaySumNoColumn`, `Scenarios.GapExample`).
- **A region with no rows gives 0 on every day of the index.** Region mode still produces the full daily index (`Totals.RegionWithoutRows`).
- **Rest-of-world mode raises `KeyError` at line 108 when the region has no row.** Dropping the missing column fails; the model returns `Err(MissingColumn(region))` (`Totals.WorldFailsIff`).
- **The two modes order their steps differently.** Region mode takes each province's daily maximum and then sums. Rest-of-world mode sums each country's rows and then takes the daily maximum. The identity of region plus rest of world with the whole table is guaranteed only when no two date columns fall on the same day, so total preservation (`Totals.TotalPreserved`) assumes that.
- **The code does no reindexing; `deaths / confirmed` aligns on the union of the indices.** A day that only one of the two series has gets NaN. The model does the same (`Metrics.Fatality`).

## Model

| member | source | states |
|---|---|---|
| Tables.Dropped | web_app/wrangling_scripts/wrangle_data.py:91 | a column name is dropped if and only if `Unnamed`, `Lat` or `Lon` occurs in it at some position |
| Tables.ContainsIff | web_app/wrangling_scripts/wrangle_data.py:91 | Python's substring test `pat in s` holds exactly when `pat` occurs at some position of `s` |
| Tables.KeptFrom | web_app/wrangling_scripts/wrangle_data.py:91 | the kept positions ascend, none names a dropped column, and every undropped position is among them |
| Tables.FilterColumns | web_app/wrangling_scripts/wrangle_data.py:91-92 | the filtered table stays rectangular and keeps every row and its identifiers; no kept column name contains `Unnamed`, `Lat` or `Lon`; each kept header name and cell is the original one at a kept position |
| Tables.KeptFromIsWithoutDropped | web_app/wrangling_scripts/wrangle_data.py:91-92 | projecting the header on the kept positions equals the reference definition: the header with every dropped name removed |
| Tables.FilterKeepsOrder | web_app/wrangling_scripts/wrangle_data.py:91-92 | the filtered header is the original header minus the dropped names, in the original order |
| Tables.FilterKeepsExactly | web_app/wrangling_scripts/wrangle_data.py:91-92 | a header position is kept if and only if its name contains none of `Unnamed`, `Lat`, `Lon` at any position |
| Fill.FillFrom | web_app/wrangling_scripts/wrangle_data.py:104 | the left-to-right fill keeps the row's length |
| Fill.ForwardFill | web_app/wrangling_scripts/wrangle_data.py:104 | forward-fill of one row keeps its length |
| Fill.FillFromIsLastPresent | web_app/wrangling_scripts/wrangle_data.py:104 | the scan's cell `i` is the last present cell at or before `i`, or the carried value when there is none |
| Fill.ForwardFillIsLastPresent | web_app/wrangling_scripts/wrangle_data.py:97 | forward-fill agrees at every position with the backward reference definition `LastPresent` |
| Fill.LastPresentMeaning | web_app/wrangling_scripts/wrangle_data.py:97 | the reference definition is missing exactly when every cell up to `i` is missing, and otherwise is a present cell `k <= i` with only missing cells after it up to `i` |
| Fill.ForwardFillCorrect | web_app/wrangling_scripts/wrangle_data.py:97 | a present cell is unchanged; a filled cell is missing if and only if no cell up to it is present, so leading gaps stay missing; otherwise it is the nearest earlier present value of the same row |
| Fill.FillFromIdempotent | web_app/wrangling_scripts/wrangle_data.py:104 | scanning an already scanned row again changes nothing |
| Fill.ForwardFillIdempotent | web_app/wrangling_scripts/wrangle_data.py:104 | filling twice equals filling once |
| Resample.MinOf | web_app/wrangling_scripts/wrangle_data.py:99 | the earliest day is one of the days and bounds all of them from below |
| Resample.MaxOf | web_app/wrangling_scripts/wrangle_data.py:99 | the latest day is one of the days and bounds all of them from above |
| Resample.Span | web_app/wrangling_scripts/wrangle_data.py:99 | the days `lo..hi`, one per consecutive day |
| Resample.SpanCovers | web_app/wrangling_scripts/wrangle_data.py:99 | every day between the bounds is in the span |
| Resample.DayIndex | web_app/wrangling_scripts/wrangle_data.py:99 | the daily index is empty exactly when there are no date columns; otherwise it starts and ends on a column's day, contains every column's day, and steps by exactly one day |
| Resample.DayMax | web_app/wrangling_scripts/wrangle_data.py:99 | a location's value on a day is missing if and only if it has no present reading that day; otherwise it is one of those readings and at least every other one |
| Resample.DaySum | web_app/wrangling_scripts/wrangle_data.py:99-100 | one day's total after `resample('D').max()` and `sum(axis=1)`: at least every location's daily maximum, and 0 when no location has a reading that day (further characterised by `Resample.DaySumAtColumn`, `Resample.DaySumNoColumn`, `Resample.DaySumPermutation`) |
| Resample.DailyTotals | web_app/wrangling_scripts/wrangle_data.py:99-100 | one entry per day of the daily index, in order; each value is that day's sum of the per-location daily maxima, missing counted as 0 |
| Resample.IndexedDaily | web_app/wrangling_scripts/wrangle_data.py:99 | a series laid on the daily index is daily over the column days: one entry per consecutive day, from a column's day to a column's day, covering every column's day |
| Resample.DailyTotalsDaily | web_app/wrangling_scripts/wrangle_data.py:99-100 | the resampled totals are such a daily series |
| Resample.DailyAscending | web_app/wrangling_scripts/wrangle_data.py:99 | the days of a daily series strictly ascend |
| Resample.DayMaxAtColumn | web_app/wrangling_scripts/wrangle_data.py:99 | when every column is its own day, a location's maximum on a column's day is that column's cell |
| Resample.DaySumAtColumn | web_app/wrangling_scripts/wrangle_data.py:99-100 | when every column is its own day, a column day's total is that column's total over the locations |
| Resample.DaySumNoColumn | web_app/wrangling_scripts/wrangle_data.py:99-100 | a calendar day without a column totals 0: no forward-fill happens across the new daily rows |
| Resample.DailyTotalsOfDailyColumns | web_app/wrangling_scripts/wrangle_data.py:99-100 | when the columns are already one per consecutive day, entry `i` of the resampled series is column `i`'s total |
| Resample.DaySumAppend | web_app/wrangling_scripts/wrangle_data.py:100 | the day total over two blocks of locations is the sum of their day totals |
| Resample.MultisetRemoveFirst | web_app/wrangling_scripts/wrangle_data.py:109 | helper of `Resample.DaySumPermutation`, modelling nothing by itself: removing the same element from two permutations of each other leaves permutations |
| Resample.DaySumRemove | web_app/wrangling_scripts/wrangle_data.py:100 | the day total is one location's maximum plus the day total of the others |
| Resample.DaySumPermutation | web_app/wrangling_scripts/wrangle_data.py:109-111 | reordering the locations never changes a day's total |
| Order.LexLe | web_app/wrangling_scripts/wrangle_data.py:109 | the name order `sort_index` uses: `a <= b` if and only if `a` is a prefix of `b` or, at the first position where they differ, `a` has the smaller code point |
| Order.LexLeTotal | web_app/wrangling_scripts/wrangle_data.py:109 | the name order on columns is total |
| Order.LexLeTransitive | web_app/wrangling_scripts/wrangle_data.py:109 | the name order is transitive |
| Order.LexLeAntisymmetric | web_app/wrangling_scripts/wrangle_data.py:109 | two names ordered both ways are equal |
| Order.SortedSameFirst | web_app/wrangling_scripts/wrangle_data.py:109 | two sorted orderings of the same columns with distinct countries start with the same column |
| Order.SortedUnique | web_app/wrangling_scripts/wrangle_data.py:109 | two sorted orderings of the same columns with distinct countries are equal |
| Order.InsertDistinct | web_app/wrangling_scripts/wrangle_data.py:109 | inserting a column of a new country keeps the countries distinct |
| Order.SortDistinct | web_app/wrangling_scripts/wrangle_data.py:109 | sorting keeps the countries distinct |
| Order.SortUnique | web_app/wrangling_scripts/wrangle_data.py:106-109 | `sort_index(axis=1)` gives the same columns in the same order whatever order `groupby` produced them in, when no country has two columns |
| Order.SortedCons | web_app/wrangling_scripts/wrangle_data.py:109 | a column that precedes all others can go in front of a sorted sequence |
| Order.SortedTail | web_app/wrangling_scripts/wrangle_data.py:109 | the rest of a sorted sequence is sorted and follows its first column |
| Order.LowerBoundKept | web_app/wrangling_scripts/wrangle_data.py:109 | a name below every column and below the inserted one is below every column of the result |
| Order.Insert | web_app/wrangling_scripts/wrangle_data.py:109 | insertion into a sorted sequence is sorted and adds exactly that column |
| Order.SortByCountry | web_app/wrangling_scripts/wrangle_data.py:109 | `sort_index(axis=1)`: the columns come out sorted by name and are a permutation of the input |
| Aggregate.Parse | web_app/wrangling_scripts/wrangle_data.py:98 | each date label becomes a day number: day `j` is the parser applied to label `j`; the rows and their widths are unchanged |
| Aggregate.FillRows | web_app/wrangling_scripts/wrangle_data.py:104 | every row keeps its province and country, and its cells are forward-filled |
| Aggregate.Matching | web_app/wrangling_scripts/wrangle_data.py:95 | the selection holds only rows of the region, and every row of the region is in it |
| Aggregate.Others | web_app/wrangling_scripts/wrangle_data.py:103-111 | reference selection for rest-of-world mode: only rows of other countries, and every row of another country is in it |
| Aggregate.MatchingCounts | web_app/wrangling_scripts/wrangle_data.py:95 | the selection holds each row of the region exactly as often as the table does, and no row of another country |
| Aggregate.OthersCounts | web_app/wrangling_scripts/wrangle_data.py:103-111 | the reference selection holds each row of another country exactly as often as the table does, and no row of the region |
| Aggregate.Cells | web_app/wrangling_scripts/wrangle_data.py:96 | one cell row per location: entry `k` is row `k`'s cells |
| Aggregate.GroupCells | web_app/wrangling_scripts/wrangle_data.py:106-111 | one cell row per country column after the group sum: entry `k` is column `k`'s cells |
| Aggregate.CellsWidth | web_app/wrangling_scripts/wrangle_data.py:96 | the cell matrix of rows with `w` cells each is rectangular |
| Aggregate.SumIn | web_app/wrangling_scripts/wrangle_data.py:106 | the group sum of one column over the rows of some countries, missing counted 0: at least each contributing cell, and 0 when no row belongs to those countries (its totals: `Totals.SumInUnion`, `Totals.GroupsTotal`) |
| Aggregate.Distinct | web_app/wrangling_scripts/wrangle_data.py:106 | the group keys are free of duplicates and are exactly the countries that occur |
| Aggregate.CountriesOf | web_app/wrangling_scripts/wrangle_data.py:106 | the country of every row, in order |
| Aggregate.GroupByCountry | web_app/wrangling_scripts/wrangle_data.py:106 | `groupby().sum()`: one column per country that has a row and no other; no country twice; each cell is the sum of that country's rows, missing counted 0 |
| Aggregate.DropCountry | web_app/wrangling_scripts/wrangle_data.py:108 | after the drop, no column is the region's |
| Aggregate.AggregateRegion | web_app/wrangling_scripts/wrangle_data.py:95-100 | region mode yields one entry per day of the daily index, in order |
| Aggregate.AggregateWorld | web_app/wrangling_scripts/wrangle_data.py:103-111 | rest-of-world mode fails only with `MissingColumn(region)`; on success it yields one entry per day of the daily index |
| Aggregate.CumData | web_app/wrangling_scripts/wrangle_data.py:75-113 | `cum_data`: region mode always succeeds, a failure is `MissingColumn(region)`, and a result has one entry per day of the daily index of the kept date columns, in order (cases in `Totals.CumDataCases`, shape in `Totals.CumDataDaily`) |
| Totals.SumInUnion | web_app/wrangling_scripts/wrangle_data.py:106 | summing over two disjoint sets of countries adds up |
| Totals.GroupsTotal | web_app/wrangling_scripts/wrangle_data.py:106 | the per-country columns total the rows of the countries they stand for |
| Totals.MatchingTotal | web_app/wrangling_scripts/wrangle_data.py:95 | the selected rows total exactly that country's rows |
| Totals.OthersTotal | web_app/wrangling_scripts/wrangle_data.py:103-111 | the other rows total the rows of every country but the region |
| Totals.PartitionTotal | web_app/wrangling_scripts/wrangle_data.py:95-106 | the region's rows plus everybody else's give the whole table: nothing lost, nothing counted twice |
| Totals.InsertTotal | web_app/wrangling_scripts/wrangle_data.py:109-111 | inserting a column adds exactly its daily maximum to every day's total |
| Totals.SortKeepsTotals | web_app/wrangling_scripts/wrangle_data.py:109-111 | the name sort leaves every day's total unchanged |
| Totals.FillMatchingCommute | web_app/wrangling_scripts/wrangle_data.py:95-97 | selecting the region and then filling equals filling and then selecting |
| Totals.FillRowsIdempotent | web_app/wrangling_scripts/wrangle_data.py:104 | filling a whole table twice equals filling it once |
| Totals.FillRowsCountries | web_app/wrangling_scripts/wrangle_data.py:104-106 | filling neither adds nor removes a country |
| Totals.DropKeepsGroups | web_app/wrangling_scripts/wrangle_data.py:108 | dropping a column keeps the other columns' sums and removes exactly that country |
| Totals.DroppedTotal | web_app/wrangling_scripts/wrangle_data.py:106-108 | grouping and then dropping the region's column totals, column by column, exactly the rows of the other countries |
| Totals.WorldValue | web_app/wrangling_scripts/wrangle_data.py:103-111 | when the region has a row, rest-of-world mode succeeds and each day's value is that day's total over the remaining columns |
| Totals.RegionTotal | web_app/wrangling_scripts/wrangle_data.py:95-100 | with one column per day, a region-mode day is the total of the region's filled cells in that column, and a day without a column is 0 |
| Totals.WorldFailsIff | web_app/wrangling_scripts/wrangle_data.py:108 | rest-of-world mode fails if and only if the region has no row |
| Totals.WorldTotal | web_app/wrangling_scripts/wrangle_data.py:103-111 | with one column per day, grouping, dropping and sorting equals summing the filled cells directly over every row of another country |
| Totals.TotalPreserved | web_app/wrangling_scripts/wrangle_data.py:95-111 | with one column per day, the region series plus the rest-of-world series equals, day by day, the total over all rows |
| Totals.RegionAfterFill | web_app/wrangling_scripts/wrangle_data.py:95-100 | region mode on already filled rows gives the same series |
| Totals.WorldAfterFill | web_app/wrangling_scripts/wrangle_data.py:103-111 | rest-of-world mode on already filled rows gives the same result |
| Totals.MatchingAppend | web_app/wrangling_scripts/wrangle_data.py:95 | selecting from two blocks of rows is selecting from each |
| Totals.MatchingNone | web_app/wrangling_scripts/wrangle_data.py:95 | rows of other countries select to nothing |
| Totals.MatchingSkipsOthers | web_app/wrangling_scripts/wrangle_data.py:95 | inserting rows of other countries leaves the selection unchanged |
| Totals.RegionIgnoresOthers | web_app/wrangling_scripts/wrangle_data.py:95-100 | rows of other countries, inserted anywhere, never change the region series |
| Totals.RegionWithoutRows | web_app/wrangling_scripts/wrangle_data.py:95-100 | for a region without rows, every day of the index is 0 |
| Totals.CumDataCases | web_app/wrangling_scripts/wrangle_data.py:75-113 | region mode always succeeds; rest-of-world mode fails if and only if the region has no row, and then with `MissingColumn(region)` |
| Totals.CumDataDaily | web_app/wrangling_scripts/wrangle_data.py:75-113 | every result has one entry per consecutive calendar day, from the earliest to the latest kept date column |
| Metrics.Delta | web_app/wrangling_scripts/wrangle_data.py:234-236 | `diff` keeps the days; the first entry is undefined; every later entry is defined and `v[i-1] + delta[i] == v[i]`, so a dip gives a negative change |
| Metrics.Changes | web_app/wrangling_scripts/wrangle_data.py:234 | the changes without their days, one per entry |
| Metrics.DeltaRoundTrip | web_app/wrangling_scripts/wrangle_data.py:234-236 | the first value plus the changes up to a day rebuild that day's value: `diff` inverts the running total |
| Metrics.Percent | web_app/wrangling_scripts/wrangle_data.py:239 | the ratio is undefined if and only if confirmed is 0; otherwise ratio times confirmed equals deaths times 100 |
| Metrics.PercentBound | web_app/wrangling_scripts/wrangle_data.py:239 | with `0 <= deaths <= confirmed` and confirmed positive, the ratio is defined and lies in [0, 100] |
| Metrics.ValueOn | web_app/wrangling_scripts/wrangle_data.py:239 | a series' value on a day is missing if and only if the series has no entry for that day; otherwise it is the value of an entry on that day |
| Metrics.DaysOfCons | web_app/wrangling_scripts/wrangle_data.py:239 | the days of a series with an entry in front are that entry's day plus the rest |
| Metrics.AfterFirst | web_app/wrangling_scripts/wrangle_data.py:239 | in an ascending series, the rest ascends and lies after the first day |
| Metrics.AscendingCons | web_app/wrangling_scripts/wrangle_data.py:239 | an entry before every day of an ascending series can go in front |
| Metrics.ValueOnTail | web_app/wrangling_scripts/wrangle_data.py:239 | the value on another day than the first is the rest's value |
| Metrics.Prepend | web_app/wrangling_scripts/wrangle_data.py:239 | one merge step keeps the result ascending and aligned |
| Metrics.LaterValues | web_app/wrangling_scripts/wrangle_data.py:239 | dropping an earlier first entry keeps the values on later days |
| Metrics.Fatality | web_app/wrangling_scripts/wrangle_data.py:239 | `deaths / confirmed * 100` aligned on the union of the two indices: at least as many entries as either series and at most both together (the values: `Metrics.FatalityAligned`, `Metrics.FatalitySameDays`) |
| Metrics.FatalityAligned | web_app/wrangling_scripts/wrangle_data.py:239 | `deaths / confirmed * 100` covers exactly the union of the two series' days, ascending; each entry is the ratio of that day's counts, undefined where either side has no entry |
| Metrics.DeathsFirst | web_app/wrangling_scripts/wrangle_data.py:239 | the merge step on a day only the deaths have: that day gets no ratio, the result stays aligned |
| Metrics.ConfirmedFirst | web_app/wrangling_scripts/wrangle_data.py:239 | the merge step on a day only the confirmed have: that day gets no ratio, the result stays aligned |
| Metrics.SameDayFirst | web_app/wrangling_scripts/wrangle_data.py:239 | the merge step on a shared day: that day gets the ratio of the two counts |
| Metrics.EarliestOfBoth | web_app/wrangling_scripts/wrangle_data.py:239 | a shared first day precedes every later day of both series |
| Metrics.FatalityBound | web_app/wrangling_scripts/wrangle_data.py:239 | on a day both series have, with deaths within confirmed, the ratio is defined if and only if confirmed is nonzero, and then lies in [0, 100] |
| Metrics.FatalitySameDays | web_app/wrangling_scripts/wrangle_data.py:239 | when both series have the same days, entry `i` is `deaths[i] * 100 / confirmed[i]` |
| Metrics.DailyIsAscending | web_app/wrangling_scripts/wrangle_data.py:110-111 | a daily series, as `cum_data` returns, has strictly ascending days |
| Growth.SeriesShareDays | web_app/wrangling_scripts/wrangle_data.py:231-233 | two `cum_data` results over tables with the same columns succeed, with a row of the region in each in rest-of-world mode, and have the same days in the same order |
| Growth.GrowthRatio | web_app/wrangling_scripts/wrangle_data.py:231-239 | for two such results (the Deaths and Confirmed tables of one scrape), the fatality ratio is taken index by index: entry `i` is day `i`'s deaths times 100 over its confirmed count, undefined where confirmed is 0 |
| Scenarios.ExampleNames | web_app/wrangling_scripts/wrangle_data.py:91 | `Lat` and `Long` are dropped; the date labels are kept |
| Scenarios.ExampleHeader | web_app/wrangling_scripts/wrangle_data.py:91-92 | the reference filter of `Lat, Long, d1, d2, d3` is `d1, d2, d3` |
| Scenarios.ExampleFiltered | web_app/wrangling_scripts/wrangle_data.py:91-92 | the filter of the example table keeps exactly its three dates, in order |
| Scenarios.ExampleFilled | web_app/wrangling_scripts/wrangle_data.py:95-97 | selecting the region keeps both provinces, and the fill carries Hubei's 5 into its missing second day |
| Scenarios.ExampleIndex | web_app/wrangling_scripts/wrangle_data.py:99 | the daily index of days 1, 2, 3 is 1, 2, 3 |
| Scenarios.ExampleColumns | web_app/wrangling_scripts/wrangle_data.py:100 | with two locations, a column's total is the sum of its two cells |
| Scenarios.ExampleSeries | web_app/wrangling_scripts/wrangle_data.py:99-100 | the column totals 6, 7, 13 over days 1, 2, 3 form the series |
| Scenarios.ExampleResampled | web_app/wrangling_scripts/wrangle_data.py:99-100 | resampling filled columns with totals 6, 7, 13 gives the series 6, 7, 13 |
| Scenarios.RegionExample | web_app/wrangling_scripts/wrangle_data.py:95-100 | Hubei 5, missing, 10 and Guangdong 1, 2, 3 give the region series 6, 7, 13 |
| Scenarios.ExampleKept | web_app/wrangling_scripts/wrangle_data.py:91 | the filter keeps positions 2, 3, 4 of `Lat, Long, d1, d2, d3` |
| Scenarios.ExampleFilterTable | web_app/wrangling_scripts/wrangle_data.py:91-92 | the filtered example table is the three date columns with each province's counts on them |
| Scenarios.ExampleParse | web_app/wrangling_scripts/wrangle_data.py:98 | the labels `d1, d2, d3` parse to days 1, 2, 3, the rows unchanged |
| Scenarios.CumDataExample | web_app/wrangling_scripts/wrangle_data.py:75-113 | `cum_data` in region mode on the raw example table, latitude and longitude included, gives 6, 7, 13 |
| Scenarios.MissingRegionExample | web_app/wrangling_scripts/wrangle_data.py:108 | rest-of-world mode for a region without rows fails with `MissingColumn` |
| Scenarios.NoRowFails | web_app/wrangling_scripts/wrangle_data.py:108 | any table without a row of the region makes rest-of-world mode fail with `MissingColumn(region)` |
| Scenarios.GapExample | web_app/wrangling_scripts/wrangle_data.py:99-100 | columns on days 1 and 3 resample to three days, the middle one 0 |
| Scenarios.GapIndex | web_app/wrangling_scripts/wrangle_data.py:99 | the daily index of days 1 and 3 is 1, 2, 3 |
| Scenarios.GrowthExample | web_app/wrangling_scripts/wrangle_data.py:234-239 | confirmed 10, 20, 0 has changes undefined, 10, -20; with deaths 1, 2, 2 the ratio is 10, 10 and undefined on the day confirmed is 0 |

## Left out

- `scrape_tables` (lines 65-72) is left out. It checks file modification times, scrapes HTML over the network and writes CSV files, all of which is I/O.
- `pd.read_csv` (line 88) is left out: the model starts from an already parsed table.
- Date parsing by `pd.to_datetime` / `pd.DatetimeIndex` (lines 98, 107) is not modelled. The label-to-day mapping is the parameter `dayOf`.
- The positional slice `df.iloc[:, 2:]` (line 104) is not modelled. The identifiers are named fields of a row, so the assumption that the first two columns are the identifiers cannot fail. A table without a `Country/Region` column, where lines 95/103 raise `KeyError`, cannot be represented.
- Floating point is not modelled. The ratio is an exact rational. Where pandas gives NaN (a missing side, or 0/0) or inf (k/0), the model gives `None`.
- The transpose and `set_index` steps (lines 96-97, 106) are not modelled. They only change which axis holds the dates.
- pandas' own ordering of the `groupby` keys is not modelled. The model groups in order of first appearance and then sorts by name (line 109). The sorted columns are the same whatever order the groups arrive in (`Order.SortUnique`), and the day totals are independent of that order anyway (`Totals.SortKeepsTotals`), so the choice does not matter.
- Plotting in `plot_cum_stats` / `plot_growth_stats` (lines 121-330) is left out: the figures and their styling are cosmetic. The same goes for the style constants (lines 117-118), `return_figures` (lines 333-343) and the dead example inside the string literal (lines 9-62).
- The three `cum_data` calls and the three `diff` calls of `plot_growth_stats` are not composed into one record. The model gives each part separately: `Metrics.Delta` applies to each series, and `Growth.GrowthRatio` states the ratio of two results.
- Totals.TotalPreserved, Totals.RegionTotal and Totals.WorldTotal assume that every date column is its own calendar day. Without that assumption the two modes compute different things: region mode takes the daily maximum before summing, rest-of-world mode after. So the source does not promise the identity in that case.
- Metrics.FatalityBound states the bound only on days both series have. On other days the value is undefined, as it is in pandas.
- Tables.Row: a count is a `nat`, so a negative count cannot be represented. The code's `fillna`, `resample().max()`, `groupby().sum()` and `sum` (lines 97-111) pass negative counts through unchanged.
- Tables.Row: the country is a plain string, so a row whose `Country/Region` is missing (NaN) cannot be represented. The code leaves such a row out of both modes: the `==` at line 95 is false for NaN, and `groupby` drops NaN keys at line 106. Such a row would also fall outside `Totals.PartitionTotal` and `Totals.TotalPreserved`.
