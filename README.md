# TVL chart gap filling and price-store queries, in Dafny

This project models two parts of the l2beat backend.

**The chart controller** (`packages/backend/src/api/controllers/tvl/charts.ts`).
A TVL chart is a list of points `[timestamp, v1, ..., vn]`. Before it is
served, the controller fills it in. It walks a grid from the first point's
timestamp to the last point's, one step of `hours` hours at a time, and emits
one point per grid instant. That point carries the input values at that
instant if the input has a point there. Otherwise it copies the values of the
point emitted just before it. Two variants exist:
- `addTokenMissingTimestamps`, over two-slot token points;
- `addMissingTimestamps`, over eight-slot points.

`getChartPoints` builds the two-slot token points from balance rows, in
USD-first or asset-first order, and fills them.
`getProjectAssetChartData` does the same for a project's report records.

**The price store** (`PriceRepository`, as its test file pins it down).
The store holds price records `(assetId, timestamp, priceUsd)`. It answers
four queries:
- the records at a timestamp;
- the records of an asset;
- the earliest and latest timestamp of every asset (`findDataBoundaries`);
- the latest timestamp of every asset within a time range (`findLatestByTokenBetween`).

The queries are modelled as functions over the list of stored records. The
test fixtures are proved as concrete lemmas.

Layout:

- `gap_fill.dfy`, module `GapFill`, is the filler.
  - `Fill` is the specification: the function `FillFrom` walks the grid
    recursively over the timestamp index `ValueIndex`.
  - `WalkGrid` is the imperative `for` loop of the source, proved equal to
    `FillFrom`. `FillGaps`, `AddTokenMissingTimestamps` and
    `AddMissingTimestamps` are the filler methods.
  - The lemmas state what the output is: the exact grid, pass-through of
    observations, forward fill, no invented values, tuple width, identity on
    dense input, and independence from the slot contents.
- `chart_points.dfy`, module `ChartPoints`, holds `getChartPoints` and
  `getProjectAssetChartData`.
- `price_store.dfy`, module `PriceStore`, holds the four queries and the test
  fixtures.

Timestamps are Unix seconds as unbounded integers. One step is
`hours * 3600` seconds. The chart values have an arbitrary type `N`. The
conversion `asNumber(amount, decimals)` is a parameter of the chart
functions.

## Model

| member | source | states |
|---|---|---|
| GapFill.FillFrom | packages/backend/src/api/controllers/tvl/charts.ts:21-33 | the grid walk from instant `t` to `max`: one point per instant `t, t+step, ...` not past `max`, carrying the indexed values at that instant or, failing those, the values emitted one step earlier (`prev`); it is non-empty exactly when `t <= max` |
| GapFill.Fill | packages/backend/src/api/controllers/tvl/charts.ts:14-34 | the filler's result: empty for empty input, otherwise the walk `FillFrom` over the timestamp index from the first point's timestamp to the last point's, in steps of `hours * 3600` seconds, with no earlier point to copy from; it is non-empty exactly when the input is non-empty and its first timestamp is not after its last |
| GapFill.ValueIndex | packages/backend/src/api/controllers/tvl/charts.ts:17-19 | the timestamp index has exactly the input's timestamps as keys, and every entry is the values of an input point at that timestamp |
| GapFill.IndexLastWins | packages/backend/src/api/controllers/tvl/charts.ts:44-46 | of several input points with one timestamp, the index holds the values of the last one (Map construction overwrites earlier entries) |
| GapFill.WalkGrid | packages/backend/src/api/controllers/tvl/charts.ts:20-34 | the loop from `min` while not past `max`, in steps of `step`, pushing the indexed values or the previously pushed ones, returns exactly the recursive grid walk `FillFrom` from `min` |
| GapFill.FillGaps | packages/backend/src/api/controllers/tvl/charts.ts:14-34 | the filler returns `Fill(points, hours)` for every input, the empty input included |
| GapFill.FillStart | packages/backend/src/api/controllers/tvl/charts.ts:15-19 | for a non-empty input, the first point's timestamp is indexed, so the walk never needs a previous point at its first step |
| GapFill.AddTokenMissingTimestamps | packages/backend/src/api/controllers/tvl/charts.ts:10-35 | on two-slot points the result is `Fill(points, hours)`, has two slots everywhere, and is empty for empty input |
| GapFill.AddMissingTimestamps | packages/backend/src/api/controllers/tvl/charts.ts:37-69 | on eight-slot points the result is `Fill(points, hours)`, has eight slots everywhere, and is empty for empty input |
| GapFill.FillFromShape | packages/backend/src/api/controllers/tvl/charts.ts:21-25 | the walk from `t` is empty exactly past `max`; otherwise its k-th point is at `t + k*step` and its last point is the last grid instant not after `max` |
| GapFill.FillFromValues | packages/backend/src/api/controllers/tvl/charts.ts:26-32 | in the walk, an indexed instant carries the indexed values, an unindexed one the values of the point before it, and the first point uses `prev` only when its instant is unindexed |
| GapFill.FillFromArity | packages/backend/src/api/controllers/tvl/charts.ts:28-32 | if every indexed tuple and `prev` have width w, every walked point has width w |
| GapFill.FillGrid | packages/backend/src/api/controllers/tvl/charts.ts:15-25 | the output is empty exactly when the last timestamp precedes the first; otherwise it has `(max-min)/step + 1` points at `min + k*step`, one step apart, strictly increasing, and the last one is at most `max` and less than one step before it |
| GapFill.FillTimestampsOnGrid | packages/backend/src/api/controllers/tvl/charts.ts:21-25 | a timestamp occurs in the output if and only if it is a grid instant between the first and last input timestamps |
| GapFill.FillPassthrough | packages/backend/src/api/controllers/tvl/charts.ts:26-32 | an output point at the timestamp of an input point (the last one with that timestamp) is that input point, and an input point on the grid appears in the output |
| GapFill.FillDropsOffGrid | packages/backend/src/api/controllers/tvl/charts.ts:21-25 | an input point whose offset from the first timestamp is not a multiple of the step never appears in the output |
| GapFill.FillForward | packages/backend/src/api/controllers/tvl/charts.ts:53-66 | an output point after the first whose timestamp has no input point repeats every slot of the point output before it |
| GapFill.FillFirst | packages/backend/src/api/controllers/tvl/charts.ts:26-31 | the first output point is at the first input timestamp and carries its indexed values; it is never filled in |
| GapFill.FillCarriesLatest | packages/backend/src/api/controllers/tvl/charts.ts:26-32 | every output point carries the indexed values of the nearest grid instant at or before it that has an input point; nothing is interpolated or invented |
| GapFill.FillArity | packages/backend/src/api/controllers/tvl/charts.ts:10-13 | filling keeps the tuple width of the series |
| GapFill.FillDenseIdentity | packages/backend/src/api/controllers/tvl/charts.ts:21-32 | an input with exactly one point per step from its first timestamp is returned unchanged |
| GapFill.FillThreeHourGap | packages/backend/src/api/controllers/tvl/charts.ts:21-32 | two hourly observations three hours apart give four points, the two in between repeating the first observation |
| GapFill.FillRelabel | packages/backend/src/api/controllers/tvl/charts.ts:26-32 | filling commutes with any transformation of the value tuples: filling never looks inside them |
| ChartPoints.TokenPoint | packages/backend/src/api/controllers/tvl/charts.ts:91-94 | the point of one balance row is at the row's timestamp, has two slots, and holds `asNumber(usd, 2)` in the first slot when USD-first and in the second otherwise, with `asNumber(asset, decimals)` in the other slot |
| ChartPoints.ToTokenPoints | packages/backend/src/api/controllers/tvl/charts.ts:91-95 | one two-slot point per balance row, in order, at the row's timestamp, with `asNumber(usd, 2)` first and the asset amount second when USD-first, the other way round otherwise |
| ChartPoints.ToBalances | packages/backend/src/api/controllers/tvl/charts.ts:76-80 | one balance row per report record, in order, with the record's timestamp, `usdValue` as USD and `amount` as asset |
| ChartPoints.GetChartPoints | packages/backend/src/api/controllers/tvl/charts.ts:85-97 | the chart is the fill of the token points of the balances; it has two slots everywhere and is empty for no balances |
| ChartPoints.GetProjectAssetChartData | packages/backend/src/api/controllers/tvl/charts.ts:71-83 | the chart is the asset-first fill of the report records' balance rows, with two slots everywhere |
| ChartPoints.UsdFirstSwapsSlots | packages/backend/src/api/controllers/tvl/charts.ts:89-96 | the USD-first chart equals the asset-first chart with the two slots of every point exchanged, filled-in points included |
| ChartPoints.ProjectAssetChartShowsReport | packages/backend/src/api/controllers/tvl/charts.ts:71-83 | at the timestamp of a report record (the last with that timestamp) the asset chart shows `[asNumber(amount, decimals), asNumber(usdValue, 2)]` |
| PriceStore.Where | packages/backend/src/peripherals/database/PriceRepository.test.ts:92-109 | the row filter behind the lookups: the stored records that pass the condition, in stored order; every returned record passes it and there are at most as many as stored |
| PriceStore.WhereSelects | packages/backend/src/peripherals/database/PriceRepository.test.ts:92-109 | a filtered query returns each stored record that passes the filter exactly as often as it is stored, and nothing else |
| PriceStore.GetByTimestamp | packages/backend/src/peripherals/database/PriceRepository.test.ts:92-100 | as a multiset, the result is exactly the stored records at the given timestamp |
| PriceStore.GetByToken | packages/backend/src/peripherals/database/PriceRepository.test.ts:102-109 | as a multiset, the result is exactly the stored records of the given asset |
| PriceStore.FindDataBoundaries | packages/backend/src/peripherals/database/PriceRepository.test.ts:121-160 | one entry per asset that has records and for no other asset, spanning exactly the smallest to the largest of its timestamps (both attained) |
| PriceStore.IncludeKeepsBoundaries | packages/backend/src/peripherals/database/PriceRepository.test.ts:121-152 | widening an asset's boundary by one more record gives the boundaries of the longer record list |
| PriceStore.FindLatestByTokenBetween | packages/backend/src/peripherals/database/PriceRepository.test.ts:163-193 | one entry per asset with a record in `[from, to]` and for no other asset, holding the largest such timestamp (attained) |
| PriceStore.LatestFromBoundaries | packages/backend/src/peripherals/database/PriceRepository.test.ts:163-184 | the latest ends of the boundaries of the in-range records are the per-asset latest timestamps in range |
| PriceStore.BoundaryOfAsset | packages/backend/src/peripherals/database/PriceRepository.test.ts:121-152 | if two records of an asset bound all its records, its boundary is exactly their two timestamps |
| PriceStore.SingleRecordBoundary | packages/backend/src/peripherals/database/PriceRepository.test.ts:145-150 | an asset with a single record has `earliest == latest ==` that record's timestamp |
| PriceStore.EmptyStore | packages/backend/src/peripherals/database/PriceRepository.test.ts:154-193 | with no records the boundaries, the in-range latest map and both lookups are empty |
| PriceStore.GetByTimestampFixture | packages/backend/src/peripherals/database/PriceRepository.test.ts:92-100 | on the five fixture records, the lookup one hour before `start` is, unordered, the first ETH and the first UNI record |
| PriceStore.GetByTokenFixture | packages/backend/src/peripherals/database/PriceRepository.test.ts:102-109 | on the fixture, the UNI lookup is, unordered, the two UNI records |
| PriceStore.BoundariesFixture | packages/backend/src/peripherals/database/PriceRepository.test.ts:122-152 | on the fixture, ETH and UNI span `start-2h .. start-1h` and DAI spans `start .. start` |
| PriceStore.LatestBetweenFixture | packages/backend/src/peripherals/database/PriceRepository.test.ts:164-184 | with ETH at `start-1d` and DAI at `start`, the range `[start-1d, start-1h]` yields only ETH at `start-1d`: the lower end is included and the DAI record past the upper end is not |

## Left out

- `asNumber` (bigint with decimals to a JavaScript number): its module is not part of this model. It is a parameter, and nothing is assumed about its rounding.
- `UnixTime` is an unbounded integer number of seconds. `hours` is an integer. A non-integer `hours` is not modelled.
- `hours <= 0`: the source loop never terminates when `hours <= 0` and the first timestamp is not after the last, so every filler requires `hours > 0`. That requires also excludes two `hours <= 0` cases that do terminate in the source and return `[]`: the empty input (charts.ts:14 and :41) and an input whose last timestamp is before its first (the loop guard fails at once).
- Map keys are `timestamp.toString()` in the source. They are modelled as the integer timestamp itself, which is an equal map because the string form is injective.
- GapFill.AddTokenMissingTimestamps: the source copies each of the two slots with its own `existing?.[i] ?? previous[i+1]` (charts.ts:30-31). The model copies the whole tuple, which agrees for the same reason as in the next line.
- GapFill.AddMissingTimestamps: the source copies each slot with its own `existing?.[i] ?? previous[i+1]`. The model copies the whole tuple. The two agree because the tuple types fix the width and the values are numbers, never nullish. The model follows the code's eight slots.
- The slot-by-slot form of the forward fill is stated on whole tuples in GapFill.FillForward, not slot by slot.
- ChartPoints.GetChartPoints: the source's optional `usdFirst` argument (default `false`, charts.ts:89) is a required parameter. The one caller that omits it, `getProjectAssetChartData` (charts.ts:82), passes `false` in the model, so the behaviour is the same.
- `ReportRecord` has more fields than `timestamp`, `usdValue` and `amount`. The chart reads no others, so they are left out.
- PriceStore: the store's SQL, `addMany`, `deleteAll`, `getAll`, the big-query insert test, database connections, async execution and logging are not modelled. The queries are functions of the stored record list.
- PriceStore.FindLatestByTokenBetween: the upper end of the range is taken as inclusive. The tests fix only that the lower end is included and that a record past the upper end is excluded.
- The asset identifier is a type parameter. The fixtures use a three-value enumeration in place of the `AssetId` strings. Prices are reals and are never compared.
- `BalanceRepository.ts`, `TotalSupplyRepository.test.ts` and `fsIntegration.ts` are context only and are not part of this model.
