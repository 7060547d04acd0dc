# Fleet dashboard analytics, modelled in Dafny

This project models the analytical helpers of a fleet-logistics dashboard and proves
properties about them. The helpers take spreadsheet rows of loads and turn them into
filtered, grouped and ranked numbers:

- **Lane report** (`LaneAggregation`, src/utils/lanes.ts). `buildLaneRows`:
  - keeps the completed loads of the chosen drivers whose basis date falls in a range;
  - groups those loads by lane in a `Map` of accumulators;
  - ranks the lanes by revenue;
  - derives per-lane averages, a mean-of-ratios revenue per mile, and each lane's share and
    running cumulative share of the fleet's revenue.
- **Load normalisation and revenue total** (`FinanceJoiner`, src/utils/financeJoiner.ts).
  Column aliases are resolved, rows without a truck or with a cancelled status are dropped,
  and a revenue sum skips cancelled loads.
- **Spreadsheet dates** (`ExcelDate`, src/utils/excelToDate.js and the page's own variant
  in src/App.jsx). An Excel serial day number or a date written as text becomes a `Date` or
  `null`.
- **Server lane keys** (`ServerLane`, server/utils/lane.ts). Trim-and-upper-case
  normalisers and the key `CITY,ST-CITY,ST`.
- **Average revenue per mile** (`Rpm`, server/utils/rpm.ts). A ratio of sums over the
  loads with positive miles.
- **Dashboard page helpers** (src/App.jsx):
  - `Dashboard` models the cancelled and late tests, `daysBetween`, the driver list and the
    driver picker's `toggle`;
  - `Legs` models the `legs` filter/map/sort pipeline and the `kpi` figures.
- **Lanes endpoint** (`LanesRoute`, server/routes/lanes.ts). The query-parameter checks
  either reject with a 400 message or produce the filters and the SQL parameter list. The
  response is then shaped from the database rows.

Shared modules:

- `Wrappers` holds `Option` and `Result`.
- `Js` holds the JavaScript value semantics the code relies on:
  - numbers with NaN, cell values, truthiness, `??` and `||`;
  - `Math.round`;
  - `Date` time values with their valid range (`TimeClip`);
  - day arithmetic.
- `Text` holds `trim`, `toUpperCase`/`toLowerCase` and case-insensitive substring search.
- `Seqs` holds filtering, summing and a stable insertion sort standing in for
  `Array.prototype.sort`, with their lemmas.

Imperative code is modelled with methods and loop invariants, each proved equal to a
specification function the lemmas then reason about:

- `LaneAggregation.Accumulate`, `Rank` and `BuildLaneRows`;
- `Rpm.AvgRpm`;
- `Dashboard.DaysBetween`, `NonEmptyOnce` and `Drivers`;
- `LanesRoute.Validate`.

Expression-style code is modelled with functions.

Runtime behaviour that cannot be seen in the code is a parameter:

- JavaScript's date-string parser (`parse`, giving `None` for NaN);
- `Number(string)` (`stringToNumber`);
- `String(number)` (`numberToString`);
- the local time of `new Date(1899, 11, 30)` (`localBaseMs`);
- the page's time-zone offset.

## Model

| member | source | states |
|---|---|---|
| LaneAggregation.NormalizeCityIdempotent | src/utils/lanes.ts:1 | normalising a city twice gives the same text as normalising it once |
| LaneAggregation.NormalizeCity | src/utils/lanes.ts:1 | `normalizeCity(s)`, the text trimmed and upper-cased; `NormalizeCityIdempotent` states its property |
| LaneAggregation.LaneKey | src/utils/lanes.ts:2-4 | `laneKey`: the normalised origin city, `, `, the origin state as given, ` → `, then the same for the destination; `LaneKeyInjective` and `LaneKeyDirected` state what the key determines |
| LaneAggregation.InRange | src/utils/lanes.ts:25-30 | `inRange(r)`: status exactly `Completed`, the basis date (pickup or delivery) within `[start, end]` inclusive, and no driver list or the load's driver in it; the included loads are the rows passing it, in order |
| LaneAggregation.LaneKeyInjective | src/utils/lanes.ts:2-4 | when city names hold no comma and origin states no arrow, two loads share a key exactly when their normalised cities and their (un-normalised) states agree |
| LaneAggregation.LaneKeyDirected | src/utils/lanes.ts:2-4 | the key has a direction: a lane and its return trip share a key only when origin and destination are the same place |
| LaneAggregation.LastDelivered | src/utils/lanes.ts:42 | `last_moved` of a lane is absent only without loads, and is otherwise the largest delivery time among them, reached by one of them |
| LaneAggregation.Find | src/utils/lanes.ts:37 | `map.get(key)` finds the entry whose lane is the key, or reports that no entry has it |
| LaneAggregation.Update | src/utils/lanes.ts:38-42 | updating an entry keeps its lane, leaves it with at least one load and sets a last-moved date |
| LaneAggregation.Record | src/utils/lanes.ts:37-43 | `map.set` after `map.get` keeps the entries' lanes distinct and every entry non-empty |
| LaneAggregation.UpdateAt | src/utils/lanes.ts:37-43 | an existing lane's entry is updated in its place and nothing else changes |
| LaneAggregation.AppendNew | src/utils/lanes.ts:37-43 | a new lane's entry goes last, after all existing ones |
| LaneAggregation.Accumulated | src/utils/lanes.ts:32-44 | the `Map` after the loop has distinct lanes, each with at least one load |
| LaneAggregation.Accumulate | src/utils/lanes.ts:32-44 | the loop skips loads outside the filter and records every other one in its lane's entry, giving exactly the `Map` the specification function describes |
| LaneAggregation.StatsSnoc | src/utils/lanes.ts:38-42 | one more load on a lane changes its totals exactly as one pass of the loop body does |
| LaneAggregation.WithMilesSnoc | src/utils/lanes.ts:41 | a load joins the rate sum and the rate count only when its total miles are positive, adding its fee per mile |
| LaneAggregation.FreshStats | src/utils/lanes.ts:37 | the fresh accumulator holds the totals of a lane with no loads |
| LaneAggregation.LaneLoadsSnoc | src/utils/lanes.ts:36-43 | a load is added to its own lane's loads and to no other lane's |
| LaneAggregation.RecordSummarises | src/utils/lanes.ts:37-43 | recording an included load keeps every entry equal to the totals of its lane's loads |
| LaneAggregation.AccumulatedSnoc | src/utils/lanes.ts:33-34 | the last row is recorded when, and only when, it passes the filter |
| LaneAggregation.AccumulatedSummarises | src/utils/lanes.ts:25-44 | after the loop every entry holds the totals of exactly the included loads on its lane, and every included load's lane has an entry |
| LaneAggregation.RecordTotals | src/utils/lanes.ts:38-39 | recording a load adds one load and its fee to the totals summed over all entries |
| LaneAggregation.AccumulatedTotals | src/utils/lanes.ts:38-39 | over all entries the loads add up to the number of included rows, and the revenues to the sum of the included rows' `hauling_fee \|\| 0` |
| LaneAggregation.ByRevenueConsistent | src/utils/lanes.ts:48 | the descending-revenue comparator is a total preorder, so the sort is well defined |
| LaneAggregation.Rank | src/utils/lanes.ts:50-68 | the `map` pass with its running `cum` builds the specified ranked rows |
| LaneAggregation.Ranking | src/utils/lanes.ts:46-48 | the entries in report order still have distinct lanes, each with at least one load |
| LaneAggregation.BuildLaneRows | src/utils/lanes.ts:21-71 | the method returns the report the specification function describes |
| LaneAggregation.LaneRows | src/utils/lanes.ts:21-71 | the report as a function: group the included loads by lane, total the fleet revenue, sort by revenue, rank; the `LaneRows…` lemmas below state its properties |
| LaneAggregation.FleetRevenueOfIncluded | src/utils/lanes.ts:47 | the fleet revenue is the sum of `hauling_fee \|\| 0` over the included loads |
| LaneAggregation.LaneRowsTotals | src/utils/lanes.ts:37-47 | over the report's rows the loads add up to the number of included loads, and the total revenues to the reported fleet revenue |
| LaneAggregation.SummarisesReordered | src/utils/lanes.ts:48 | reordering the entries keeps each one equal to its lane's totals |
| LaneAggregation.RankingSummarises | src/utils/lanes.ts:46-48 | after sorting, every entry still holds its lane's totals, and every included load's lane has an entry |
| LaneAggregation.RankedFields | src/utils/lanes.ts:57-67 | each row keeps its entry's lane and total revenue, one row per entry |
| LaneAggregation.LaneRowsDescribeLanes | src/utils/lanes.ts:36-67 | each row describes the included loads of its lane. Those loads are non-empty and the row holds their count and revenue, the revenue and miles averages, the mean of fee per mile over the loads with miles (0 when none has miles), and their latest delivery time |
| LaneAggregation.LaneRowsCover | src/utils/lanes.ts:33-46 | every included load is counted on some row of its own lane |
| LaneAggregation.LaneRowsDistinct | src/utils/lanes.ts:32-46 | no lane has two rows |
| LaneAggregation.LaneRowsByRevenue | src/utils/lanes.ts:48 | the rows come in non-increasing order of total revenue |
| LaneAggregation.RankedRunningShare | src/utils/lanes.ts:55-56 | the first row's cumulative share is its own share, and each later row's is the previous one plus its own |
| LaneAggregation.LaneRowsRunningShare | src/utils/lanes.ts:50-65 | in the report, each row's cumulative share is the running sum of the shares so far |
| LaneAggregation.CumPctScaled | src/utils/lanes.ts:55-56 | after k rows the running share is their revenue times 100 over the fleet revenue, or 0 without fleet revenue |
| LaneAggregation.RankedNoRevenue | src/utils/lanes.ts:55 | with no fleet revenue every share and every cumulative share is 0 |
| LaneAggregation.RankedSharesTotal | src/utils/lanes.ts:55-56 | when the fleet revenue is the lanes' total and non-zero, each share is revenue over fleet times 100, and the last cumulative share is exactly 100 |
| LaneAggregation.LaneRowsShares | src/utils/lanes.ts:47-65 | in the report, with non-zero fleet revenue the shares are proportional and the cumulative share ends at 100; with zero fleet revenue all shares are 0 |
| LaneAggregation.RankedSharesMonotone | src/utils/lanes.ts:55-56 | with no negative revenue the shares are non-negative and the cumulative share never decreases |
| LaneAggregation.RankedSharesAtMost100 | src/utils/lanes.ts:55-56 | with no negative revenue no cumulative share exceeds 100 |
| LaneAggregation.LaneRowsSharesBounded | src/utils/lanes.ts:39-65 | with no negative fees, the report's shares are non-negative, its cumulative shares never decrease, and none exceeds 100 |
| FinanceJoiner.FirstWhere | src/utils/financeJoiner.ts:20-21 | `find ... ?? default` gives the first value that passes the test, or the default when none does |
| FinanceJoiner.Columns | src/utils/financeJoiner.ts:7-11 | the row's values under the listed columns, in the columns' order |
| FinanceJoiner.StatusOf | src/utils/financeJoiner.ts:20-21 | the status text of a row; `StatusIsFirstPresent` states which column it comes from |
| FinanceJoiner.StatusIsFirstPresent | src/utils/financeJoiner.ts:7-11 | the status is the first of 'Load Status', 'Status' and 'Receiver Arrival Status' that is neither null, undefined nor `''`, as text, else `''` |
| FinanceJoiner.TruckOf | src/utils/financeJoiner.ts:24 | the `\|\|` chain over the truck columns; `TruckIsFirstTruthy` states its meaning |
| FinanceJoiner.RevenueCell | src/utils/financeJoiner.ts:26 | the `??` chain over the revenue columns; `RevenueIsFirstNotNullish` states its meaning |
| FinanceJoiner.Normalize | src/utils/financeJoiner.ts:19-30 | the `map` callback: truck, `Number(...)` of the revenue cell and the status text; the three lemmas above and `EmptyRevenueSelected`/`MissingRevenueIsZero` state its fields |
| FinanceJoiner.Cancelled | src/utils/financeJoiner.ts:31 | `/cancel/i.test(status)`: `cancel` occurs somewhere, ignoring case (`Text.ContainsIgnoreCaseFinds`) |
| FinanceJoiner.TruckIsFirstTruthy | src/utils/financeJoiner.ts:24 | the truck is the first truthy value among 'Truck', 'Truck #' and 'Truck Number', else `''` |
| FinanceJoiner.RevenueIsFirstNotNullish | src/utils/financeJoiner.ts:25-27 | the revenue cell is the first of 'Revenue', 'Carrier Revenue' and 'Carrier Line Haul' that is neither null nor undefined, else 0 |
| FinanceJoiner.EmptyRevenueSelected | src/utils/financeJoiner.ts:25-27 | an empty 'Revenue' cell is selected, not skipped: the revenue is `Number('')` |
| FinanceJoiner.MissingRevenueIsZero | src/utils/financeJoiner.ts:25-27 | with all three revenue columns missing, the revenue is 0 |
| FinanceJoiner.NormalizeLoads | src/utils/financeJoiner.ts:17-32 | the output is no longer than the input, and holds exactly the normalised rows that have a truck and are not cancelled |
| FinanceJoiner.NormalizedLoadsKept | src/utils/financeJoiner.ts:18-31 | every output load has a truthy truck and a status not matching /cancel/i, and the output is an order-preserving subsequence of the normalised input |
| FinanceJoiner.BuildFinance | src/utils/financeJoiner.ts:37-44 | the `reduce` from 0 that skips cancelled loads; `BuildFinanceSnoc`, `BuildFinanceFinite` and `BuildFinanceSum` state its value |
| FinanceJoiner.BuildFinanceSnoc | src/utils/financeJoiner.ts:38-43 | one more load adds its `revenue ?? 0` unless its status matches /cancel/i |
| FinanceJoiner.BuildFinanceFinite | src/utils/financeJoiner.ts:37-44 | the total is NaN exactly when some non-cancelled load's revenue is NaN |
| FinanceJoiner.BuildFinanceSum | src/utils/financeJoiner.ts:37-44 | otherwise the total is the sum of `revenue ?? 0` over the non-cancelled loads, so 0 on an empty list |
| FinanceJoiner.BuildFinanceOfNormalized | src/utils/financeJoiner.ts:31-43 | over normalised loads the total is the plain sum of their revenues, since none is cancelled |
| ExcelDate.UtcSerialBase | src/utils/excelToDate.js:8 | `Date.UTC(1899, 11, 30)` is day -25569 of the Unix epoch, at midnight |
| ExcelDate.SerialTime | src/utils/excelToDate.js:9 | `base + v * 86400000` is a number exactly when the serial is |
| ExcelDate.ExcelToDateWith | src/utils/excelToDate.js:3-16 | null, undefined and `''` give null. Any number gives a Date, valid exactly when its time value is in range. Text gives null or a valid Date |
| ExcelDate.ExcelToDate | src/utils/excelToDate.js:3-16 | `excelToDate`: the shared shape with serials counted from `Date.UTC(1899, 11, 30)` and text read at local midnight (`T00:00:00` appended); the lemmas below state its behaviour |
| ExcelDate.AppExcelToDate | src/App.jsx:29-38 | the page's own `excelToDate`: serials counted from the local `new Date(1899, 11, 30)`, text given to `new Date` as it stands; `ExcelToDateWith` states its behaviour |
| ExcelDate.WholeSerial | src/utils/excelToDate.js:5-10 | a whole serial n lands exactly n days after the base |
| ExcelDate.ExcelSerialDay | src/utils/excelToDate.js:8-9 | a whole serial n is UTC midnight of day n - 25569 |
| ExcelDate.ExcelSerialExample | src/__tests__/excelToDate.test.js:5-9 | serial 45239 is 2023-11-09 in UTC |
| ExcelDate.FractionSameDay | src/utils/excelToDate.js:8-9 | from 1970 on, the fraction of a serial is a time of day: the serial falls on the UTC day of its whole part |
| ExcelDate.SerialMonotone | src/utils/excelToDate.js:9 | a later serial never gives an earlier time |
| ExcelDate.SubMillisecondSerials | src/utils/excelToDate.js:9 | two serials less than a millisecond apart give the same Date, so the conversion is not strictly monotone |
| ExcelDate.WholeSerialStrict | src/utils/excelToDate.js:9 | between whole serials the order is strict, each day 86400000 ms after the previous one |
| ExcelDate.NaNSerial | src/utils/excelToDate.js:5-9 | a NaN serial gives an Invalid Date, not null |
| ExcelDate.TimeOfDayIgnored | src/utils/excelToDate.js:11 | only the text before the first space is parsed |
| ExcelDate.TextWithoutSpace | src/utils/excelToDate.js:11-15 | text without a space is parsed whole (with the local-midnight suffix), and gives null exactly when it does not parse |
| ExcelDate.DateTextExample | src/__tests__/excelToDate.test.js:11-21 | `'2023-11-09 13:45'` and `'2023-11-09'` give the same result |
| ExcelDate.NullExamples | src/__tests__/excelToDate.test.js:23-27 | `''`, null and unparseable text such as `'not-a-date'` give null |
| ServerLane.NormalizeCity | server/utils/lane.ts:1-3 | the normalised city has no surrounding white space |
| ServerLane.NormalizeState | server/utils/lane.ts:5-7 | the normalised state has no surrounding white space |
| ServerLane.NormalizeCityIdempotent | server/utils/lane.ts:2 | normalising a city twice is normalising it once |
| ServerLane.NormalizeStateIdempotent | server/utils/lane.ts:6 | normalising a state twice is normalising it once |
| ServerLane.LaneKey | server/utils/lane.ts:9-18 | `laneKey`: the origin `CITY,ST`, `-`, the destination `CITY,ST`; `LaneKeyOfParts` states it over the normalised parts |
| ServerLane.LaneKeyOfParts | server/utils/lane.ts:15-17 | the key is the two normalised ends, each `CITY,ST`, joined by `-` |
| ServerLane.NormalizeExamples | server/__tests__/lane.test.ts:4-10 | `'  Kansas City  '` becomes `'KANSAS CITY'` and `'mo'` becomes `'MO'` |
| ServerLane.LaneKeyExample | server/__tests__/lane.test.ts:12-16 | `(' Kansas City ', 'Mo', 'Omaha', 'ne')` gives `'KANSAS CITY,MO-OMAHA,NE'` |
| ServerLane.LaneKeyIgnoresPaddingAndCase | server/utils/lane.ts:15-16 | padding each argument with its own white space (possibly none), or changing its letter case, gives the same key |
| ServerLane.LaneKeyInjective | server/utils/lane.ts:9-18 | when cities hold no comma and origin states no `-`, two keys are equal exactly when all four normalised parts are |
| Rpm.Counted | server/utils/rpm.ts:10-11 | the contributing loads are exactly those with positive miles |
| Rpm.TotalsSnoc | server/utils/rpm.ts:10-15 | one more load adds its miles and revenue to the sums when, and only when, its miles are positive |
| Rpm.AvgRpm | server/utils/rpm.ts:6-18 | the loop computes total revenue over total miles of the loads with positive miles, else 0 |
| Rpm.AvgRpmOf | server/utils/rpm.ts:17 | the specification of `avgRpm`: total revenue over total miles of the positive-mile loads when the miles sum is positive, else 0; the `AvgRpm…` lemmas state its properties |
| Rpm.TotalMilesPositive | server/utils/rpm.ts:11-17 | the miles sum is never negative, and is positive exactly when some load has positive miles |
| Rpm.AvgRpmNoMiles | server/utils/rpm.ts:17 | without a load with positive miles (all zero, or none) the result is 0 |
| Rpm.AvgRpmIgnoresNoMiles | server/utils/rpm.ts:11 | inserting a load without positive miles anywhere leaves the result unchanged |
| Rpm.AvgRpmNonNegative | server/utils/rpm.ts:13-17 | with no negative revenue the result is not negative |
| Rpm.AvgRpmExample | server/__tests__/rpm.test.ts:4-11 | 200 + 600 over 100 + 300 miles is 2; the zero-mile load is skipped |
| Dashboard.IsCanceled | src/App.jsx:39 | `isCanceled(s)`: a truthy value whose text matches the cancel pattern; `CanceledTextSpelled` gives the exact language |
| Dashboard.CanceledTextSpelled | src/App.jsx:39 | text passes the cancel pattern exactly when, ignoring case, it contains "cance", one or more l, then "ed" |
| Dashboard.CancelAlternativesRedundant | src/App.jsx:39 | the alternatives `cancelled` and `canceled` are instances of `cancel+ed` |
| Dashboard.CanceledExamples | src/App.jsx:39 | "Cancelled" and "CANCELED" are cancelled |
| Dashboard.NotCanceledExamples | src/App.jsx:39 | null, `''` and "Cancel" are not cancelled |
| Dashboard.CancelRulesDiffer | src/App.jsx:39 | the page's cancel test and that of the financials view differ: "Cancel" fails the first and passes the second |
| Dashboard.IsLate | src/App.jsx:40 | `isLate(s)`: a truthy value whose text contains `late`, ignoring case |
| Dashboard.IsLateFound | src/App.jsx:40 | `isLate` holds exactly for a truthy value whose text holds `late` at some position, ignoring case |
| Dashboard.LateExamples | src/App.jsx:40 | "Late" and "Arrived LATE" are late |
| Dashboard.NotLateWithoutL | src/App.jsx:40 | text without the letter l, in either case, is never late |
| Dashboard.NotLateExamples | src/App.jsx:40 | "On Time" and null are not late |
| Dashboard.LocalMidnight | src/App.jsx:54-55 | `setHours(0,0,0,0)` moves a time back, by less than a day, to the midnight of its own local day |
| Dashboard.KeysConsecutive | src/App.jsx:50 | consecutive local days have consecutive day keys |
| Dashboard.DaysBetween | src/App.jsx:51-58 | a missing or invalid bound gives nothing. Otherwise the result is the keys of every local day from the start's to the end's, in order and inclusive, and empty when the start is later |
| Dashboard.Toggle | src/App.jsx:72-74 | `toggle(name)` on the selection: drop every copy of a selected name, append one that is not; the three lemmas below state its behaviour |
| Dashboard.ToggleFlips | src/App.jsx:72-74 | toggling a name flips whether it is selected and leaves every other name's selection alone |
| Dashboard.ToggleTwice | src/App.jsx:72-74 | toggling twice a name that was not selected restores the selection |
| Dashboard.ToggleTwiceSelected | src/App.jsx:72-74 | toggling twice a selected name removes all its copies and appends one at the end |
| Dashboard.DriverOf | src/App.jsx:159 | a row's driver name, `(r.Drivers ?? "").toString().trim()`, shared by the driver list and the legs |
| Dashboard.StrLeConsistent | src/App.jsx:160 | the default string order of `sort()` is a total preorder |
| Dashboard.SortedNames | src/App.jsx:160 | sorting distinct names keeps exactly them, in strictly increasing order |
| Dashboard.NonEmptyOnce | src/App.jsx:158-159 | the `Set` holds each non-empty name once, and nothing else |
| Dashboard.Drivers | src/App.jsx:157-161 | the driver list holds exactly the non-empty trimmed driver names of the rows, each once, in increasing order |
| Legs.Bounds | src/App.jsx:173-175 | the date range `(f, t)` from the two inputs, swapped when both are given and `f > t`; `BoundsOrdered` states it |
| Legs.BoundsOrdered | src/App.jsx:173-175 | the range is the two bounds, swapped only when both are valid and backwards; afterwards two valid bounds are in order |
| Legs.InWindow | src/App.jsx:184-193 | the date filter on the basis date, with JavaScript's comparisons on Dates; `InWindowValid` and `InWindowInvalid` state it |
| Legs.InWindowValid | src/App.jsx:184-193 | with valid dates a row is kept exactly when it has a basis date and that date is within the given bounds (with no bounds, when it has a basis date) |
| Legs.InWindowInvalid | src/App.jsx:188-192 | a missing basis date is never kept; an Invalid Date basis, or bounds that are all missing or invalid, let a dated row through |
| Legs.KeptRows | src/App.jsx:181-193 | the driver, cancel and date filters in a row keep exactly the rows that pass all three |
| Legs.LegOf | src/App.jsx:194-210 | the `map` callback that turns a kept row into a leg; `LegMiles` states its numbers |
| Legs.LegMiles | src/App.jsx:194-210 | a leg's miles are its loaded plus empty miles, and a falsy miles or fee cell counts as 0 |
| Legs.LegsOf | src/App.jsx:172-219 | the `legs` memo: filter by driver, status and date, map to legs, sort; `KeptRows`, `LegsAreKeptRows` and `LegsOrdered` state its result |
| Legs.LegsAreKeptRows | src/App.jsx:181-218 | the legs are a permutation of the kept rows' legs, one per kept row |
| Legs.Compare | src/App.jsx:211-218 | the `sort` comparator: the difference of the basis times when they differ (or are NaN), else of the other dates' times, a missing date as 0; `LegLeDated` states the order it induces |
| Legs.LegLeDated | src/App.jsx:211-218 | between dated legs the comparator orders by basis time, then by the other date's time, with a missing date as 0 |
| Legs.LegsOrdered | src/App.jsx:211-218 | when no row has an Invalid Date, the legs come in order of basis time, then of the other date's time |
| Legs.KpiOf | src/App.jsx:221-247 | the load count is the number of legs. Without positive miles, the revenue per mile and the deadhead share are 0. Without legs, the on-time share is 0 |
| Legs.KpiOfNothing | src/App.jsx:221-246 | with no legs every figure is 0 |
| Legs.PercentBounded | src/App.jsx:226 | a rounded percentage of a part is between 0 and 100, is 100 for the whole and 0 for nothing |
| Legs.OnTimeBounded | src/App.jsx:225-226 | the on-time share is between 0 and 100: 100 when every leg is on time, 0 when none is |
| Legs.EmptyWithinMiles | src/App.jsx:222-227 | when every leg's miles are loaded plus non-negative empty miles, the empty miles add up to no more than the total miles |
| Legs.DeadheadBounded | src/App.jsx:227-228 | the deadhead share is then between 0 and 100 |
| Legs.KpiOrderFree | src/App.jsx:221-228 | the figures do not depend on the order of the legs |
| Legs.KpiOfKeptRows | src/App.jsx:181-246 | the figures are those of the kept rows' legs, and the load count is the number of kept rows |
| LanesRoute.DriversParam | server/routes/lanes.ts:9 | `req.query['drivers[]'] \|\| req.query.drivers`; `DriversPrecedence` states which one is used |
| LanesRoute.Digits | server/routes/lanes.ts:40 | the placeholder number is written in decimal digits |
| LanesRoute.Validate | server/routes/lanes.ts:8-41 | the checks reject, in order, a missing start or end, a basis other than revenue or loads (after its default), an unparseable date, and a non-numeric driver. Otherwise the plan holds the basis, the dates, the numeric driver ids in input order, the values `[start, end]` extended by the ids when there are any, and the clause naming `$3` then |
| LanesRoute.DriverClauseText | server/routes/lanes.ts:38-41 | the driver clause reads `AND driver_id = ANY($3)` |
| LanesRoute.BasisDefault | server/routes/lanes.ts:8 | an absent basis defaults to revenue; an empty one is rejected |
| LanesRoute.DriversPrecedence | server/routes/lanes.ts:9 | `drivers[]` wins when it is truthy; a single `drivers` value becomes a one-element list |
| LanesRoute.Strip | server/routes/lanes.ts:91 | a returned row has no `fleet_revenue` and otherwise the same columns and values |
| LanesRoute.Respond | server/routes/lanes.ts:90-96 | the response has the filters, each row stripped of `fleet_revenue`, and the first row's `fleet_revenue`, or 0 without rows |
| LanesRoute.RespondStripped | server/routes/lanes.ts:90-91 | shaping stripped rows again changes nothing, and finds no fleet revenue in them |
| Js.Round | src/App.jsx:222 | `Math.round` is within half a unit of its argument |
| Js.TimeClip | src/utils/excelToDate.js:9 | `new Date(t)` is valid exactly for a number within 8.64e15 ms of the epoch |
| Js.ParseDate | src/utils/excelToDate.js:14-15 | a parsed Date is valid exactly when the text parses |

## Left out

- Floating point is not modelled. Amounts and miles are `real` and numbers are finite or
  NaN. There is no Infinity, no overflow and no rounding error.
- `toFixed`, `toLocaleString`, `toISOString` and the `money`/`num`/`rpm` formatters are
  left out. `fleetRPM` is the real quotient. A day key is the number of the UTC calendar
  day on which local midnight falls, the day that `toISOString().slice(0,10)` prints,
  rather than that text.
- `Legs.KpiOf`: leaves out the `utilization` figure, a map of per-driver day sets, because
  it is outside the modelled core.
- Date strings are parsed by a parameter function. There is no ISO or locale grammar, and
  a time-of-day suffix is only appended, not interpreted.
- The page's time zone is one fixed offset with no daylight-saving change, so
  `setDate(getDate()+1)` is modelled as adding one day of milliseconds.
- The lanes report (src/utils/lanes.ts) works with dates as integers of milliseconds. A
  `Date` argument that is invalid is not modelled.
- `Array.prototype.sort` is modelled as a stable insertion sort over sequences, not an
  in-place array sort.
- `Dashboard.StrLeConsistent`: the default `sort()` compares UTF-16 code units, while the
  model compares Dafny characters (code points); this differs only outside the Basic
  Multilingual Plane.
- Upper and lower case are ASCII only. White space for `trim` is a fixed set of
  characters. There is no Unicode case mapping.
- The lane report lemmas are stated for any key function. `BuildLaneRows` uses the
  code's `laneKey`, which puts the origin first; `LaneKeyDirected` shows that a lane and
  its return trip have different keys, so the report does not merge the two directions.
- `LaneAggregation.NormalizeCity`: the default argument of `normalizeCity(s = '')` and a
  missing state, which the template would print as `undefined`, are not modelled: every
  city and state of a load is a string.
- The cancel pattern `/cancel+ed|cancelled|canceled/i` needs one or more `l` directly
  followed by `ed`; `CanceledTextSpelled` gives that exact language, so text such as
  "Cancel" or "cancell ed" is not cancelled.
- `ExcelDate.SerialMonotone`: states that a later serial never gives an earlier time,
  not that it gives a later one. `new Date(t)` keeps whole milliseconds, so serials less
  than a millisecond apart collapse to the same Date (`SubMillisecondSerials`); strict
  order is proved for whole serials (`WholeSerialStrict`).
- `LanesRoute.Digits`: states only that the placeholder is written in decimal digits, not
  that they spell the number; the one clause the handler builds is pinned by
  `DriverClauseText`.
- `Legs.LegsOrdered`: assumes that no row's dates are Invalid Dates. With a NaN time the
  comparator returns NaN. That is inconsistent, and the order the runtime then produces
  is unspecified.
- `Legs.LegMiles`: the leg fields `loadNo`, `originFull`, `destFull`, `originCS` and
  `destCS` are display text and are not modelled.
- `Legs.OnTimeBounded`: `onBase` keeps every leg, because `onTime` is a boolean and never
  null, so the on-time share is taken over all legs.
- `LanesRoute.Validate`: repeated `start`, `end` or `basis` query parameters, which Express
  would give as arrays, are not modelled. The SQL text (server/routes/lanes.ts:43-86),
  `pool.query` and the 500 error path belong to the database and are left out.
- React rendering, spreadsheet and CSV loading, Google Maps, local storage and the Express
  wiring are I/O or user interface and are left out.
