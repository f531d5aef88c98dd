# Series alignment for the nark metrics dashboard

This project models how the dashboard turns the metrics backend's answer into chart data, and proves properties of that model. The backend answers with one series per query target, `{t: label, d: [{d: epochSeconds, v: value}]}`. Three pieces of front-end code are modelled:

- **Union merge** (`convertToDygraph` in `public/js/dygraph-helper.js`). It stable-sorts the caller's array of series in place, by label, descending. It then collects every timestamp into a dictionary keyed by the timestamp's decimal string, sorts the keys as strings, and builds one row per key: `[date, value of series 0, ..., value of series n-1]`. A cell is absent where that series has no non-null value at exactly that time.
- **Index-aligned merge** (`convertToDygraph` in `public/js/dashboard.js`). Row i comes from point i of every series; its date is that of point i of the first series. A missing point becomes 0 in the first row. In later rows it copies entry j of the previous row.
- **d3/nvd3 reshaping** (`public/js/graph.js`). Points become `{x: d, y: v}` or `[d, v]`, and each series becomes `{key: 'Target: ' + t, values}`.

Modules:

- `Series` (series.dfy): points, series, row entries, results.
- `Strings` (strings.dfy): JavaScript string `<` and the decimal spelling of a timestamp.
- `LabelSort` (label_sort.dfy): the label sort.
- `DygraphHelper` (dygraph_helper.dfy): the union merge.
- `Dashboard` (dashboard.dfy): the index-aligned merge.
- `Graph` (graph.dfy): the d3 formatters.

How things are represented:

- Values are an opaque type `V`. `Option<V>` stands for a value that may be null or undefined.
- A row's `new Date(t * 1000)` is `Stamp(t)`.
- The literal 0 written by dashboard.js is `Zero`.
- The empty result `[]` is `Empty`, a case of its own, distinct from a chart with no rows.

Two behaviours of the code that a reader might not expect, both modelled as written:

- Rows of the union merge are not in numeric time order in general. The code sorts the dictionary keys as strings (`times.sort()` with no comparator, `public/js/dygraph-helper.js:45`), so the model orders rows by the string order of their decimal keys. `UnionRowsAscending` proves that this is numeric order when every timestamp has the same number of digits. `LexAxisCounterexample` shows the order is not numeric otherwise.
- An empty input gives `[]`, not a chart with empty labels and no rows. Both versions of the code return `[]` (`public/js/dygraph-helper.js:16-18`, `public/js/dashboard.js:4-6`).

## Model

| member | source | states |
|---|---|---|
| `Strings.DecInjective` | public/js/dygraph-helper.js:33-35 | Distinct timestamps get distinct dictionary keys, so keying the model's dictionary by the number keeps exactly the entries of the string-keyed object. |
| `Strings.DecOrder` | public/js/dygraph-helper.js:43-45 | For two timestamps with the same number of digits, the string order of their keys is their numeric order, in both directions. |
| `LabelSort.SortByLabelSorted` | public/js/dygraph-helper.js:4-11 | After the sort, labels never increase from left to right, judged by JavaScript's string `<`. |
| `LabelSort.SortByLabelPermutation` | public/js/dygraph-helper.js:4-11 | The sorted sequence is a permutation of the input: same multiset, same length. |
| `LabelSort.SortByLabelStable` | public/js/dygraph-helper.js:4-11 | For every label, the series with that label appear in their input order (stability). |
| `LabelSort.InsertAt` | public/js/dygraph-helper.js:4-11 | One insertion step on the array: element i moves by adjacent swaps to its place in the sorted prefix; the rest of the array is untouched. |
| `LabelSort.SortSeries` | public/js/dygraph-helper.js:4-11 | `data.sort(...)` in place: afterwards the caller's array holds the label sort of its old contents. |
| `DygraphHelper.AddPoints` | public/js/dygraph-helper.js:28-40 | After reading series n, the dictionary's keys are all timestamps seen so far, including those whose values are all null. Entry c of key t is series c's last non-null value at t; a later null never erases a value. |
| `DygraphHelper.LexMin` | public/js/dygraph-helper.js:43-45 | Returns a key that is smaller, in string order, than every other key of the set. |
| `DygraphHelper.SortedKeys` | public/js/dygraph-helper.js:43-45 | `Object.keys` then `times.sort()`: a sequence holding every key exactly once, strictly increasing in string order. |
| `DygraphHelper.BuildRows` | public/js/dygraph-helper.js:47-59 | One row per sorted key. Each row has length series-count + 1, with the key's date at position 0. Cell c+1 is series c's last non-null value at that time, or absent. |
| `DygraphHelper.Merge` | public/js/dygraph-helper.js:13-61 | Empty input gives `[]`. Otherwise: labels are "Date" then each label in order; there is one row per distinct timestamp, in key-string order; rows have the date first and exactly the cell values above, with no fill. |
| `DygraphHelper.ConvertToDygraph` | public/js/dygraph-helper.js:2-62 | The caller's array ends up label-sorted, and the result is the union chart of the sorted series. |
| `DygraphHelper.LastValueSpec` | public/js/dygraph-helper.js:33-39 | The cell value is None exactly when every point at t is null. Otherwise it is the value of a point at t after which all points at t are null, so the last non-null value wins; a value of 0 is just a value. |
| `DygraphHelper.AxisUnique` | public/js/dygraph-helper.js:43-45 | A set of keys has only one string-sorted listing, so the row order is determined. |
| `DygraphHelper.UnionChartUnique` | public/js/dygraph-helper.js:2-62 | Two results that both meet the union-merge description are equal: the description fixes the whole output. |
| `DygraphHelper.UnionRowCount` | public/js/dygraph-helper.js:43-58 | The number of rows equals the number of distinct timestamps, which is at most the total number of points. |
| `DygraphHelper.UnionRowsAscending` | public/js/dygraph-helper.js:43-58 | When all timestamps have the same number of digits, row times strictly increase. |
| `DygraphHelper.LexAxisCounterexample` | public/js/dygraph-helper.js:43-45 | With points at 9 s and 10 s, the row for 10 comes before the row for 9. |
| `Dashboard.BuildRow` | public/js/dashboard.js:9-21 | Row i: the first series' date of point i, then for each series its point i's `v` unchanged (even null). Where series j has no point i, the cell is 0 in row 0 and otherwise entry j of row i-1. |
| `Dashboard.BuildRows` | public/js/dashboard.js:8-22 | There are as many rows as the first series has points, and each row is as `BuildRow` describes. |
| `Dashboard.CollectLabels` | public/js/dashboard.js:24-27 | Labels are "Date" followed by the series labels in input order, with no sort. |
| `Dashboard.ConvertToDygraph` | public/js/dashboard.js:1-30 | Empty input gives `[]`. Otherwise the labels and rows are as above. Other series' timestamps and points beyond the first series' length are never used, and the input is only read. |
| `Dashboard.AlignedChartUnique` | public/js/dashboard.js:1-30 | Two results that both meet the index-aligned description are equal. The output therefore depends only on what the description reads: the first series' timestamps and points up to its length. |
| `Dashboard.CarryOverDiagonal` | public/js/dashboard.js:11-19 | Every series cell is 0, or the value of point i-(j-k) of some series k <= j: the carry-over walks up and to the left. |
| `Dashboard.SeriesColumnsHoldNoDate` | public/js/dashboard.js:14-15 | No series cell ever holds a row's date. The `[i - 1][0]` case cannot arise, because the first series has a point for every row. |
| `Dashboard.CarryOverTakesNeighbour` | public/js/dashboard.js:14-15 | Concrete input where series b's row-1 cell is series a's value 1 and not b's own last value 7. The corrected carry-over gives 7. |
| `Dashboard.ConvertToDygraphFilled` | public/js/dashboard.js:1-30 | The corrected merge: as `ConvertToDygraph`, except that a missing later point copies the series' own previous cell. |
| `Dashboard.FilledRepeatsLastValue` | public/js/dashboard.js:14-15 | Under the corrected carry-over, a series that ran out of points shows its last point's value in every later row, or 0 if it had no points. |
| `Graph.LinearFormat` | public/js/graph.js:1-5 | `d3_format_linear_data`: same length and order; element i has x = d_i and y = v_i; null values pass through. |
| `Graph.StackedFormat` | public/js/graph.js:7-11 | `d3_format_stacked_data`: same length and order; element i is the pair (d_i, v_i); null values pass through. |
| `Graph.LinearRoundTrip` | public/js/graph.js:1-5 | The original points can be read back from the linear format: nothing is filtered or changed. |
| `Graph.StackedRoundTrip` | public/js/graph.js:7-11 | The original points can be read back from the stacked format: nothing is filtered or changed. |
| `Graph.FormatsAgree` | public/js/graph.js:1-11 | Linear element i's x is stacked element i's first component, and its y is the second. |
| `Graph.LineDatum` | public/js/graph.js:31-36 | One entry per series, in input order, keyed `'Target: ' + t`, with the linear format of its points. |
| `Graph.StackedDatum` | public/js/graph.js:61-66 | One entry per series, in input order, keyed `'Target: ' + t`, with the stacked format of its points. |
| `Graph.LineDatumRoundTrip` | public/js/graph.js:31-36 | Stripping the key prefix and reading the points back from the line datum gives the input series. |
| `Graph.StackedDatumRoundTrip` | public/js/graph.js:61-66 | Stripping the key prefix and reading the points back from the stacked datum gives the input series. |
| `Graph.DatumsAgree` | public/js/graph.js:31-66 | The line and stacked datums have the same keys in the same order. |

## Left out

- Legend positioning (`dygraph-helper.js:93-105`, `dashboard.js:61-73`) is left out: it is DOM layout on jQuery widths.
- `plotGraph`, `plotLineGraph` and `plotStackedGraph` in dygraph-helper.js and dashboard.js are left out. They construct a `Dygraph`, clear a DOM element and set option flags.
- In graph.js, `nv.addGraph`, axis tick formatting, transitions and `windowResize` are left out. They are calls into nvd3/d3 and date formatting; only the datum handed to `.datum(...)` is modelled.
- graphite-metric-search.js and graphite-host-search.js are not part of this model: they are autocomplete and AJAX wiring.
- JavaScript `Date` is not modelled. A row's date is kept as its second count t, and `new Date(t * 1000)` is not computed.
- Series values are JavaScript numbers. They are kept opaque, with no arithmetic.
- Null and undefined values are both `None`. Neither version of the merge tells them apart for values: dygraph-helper.js tests `!= null && != undefined`, and dashboard.js copies `v` as it is.
- Timestamps are natural numbers, and `Strings.Dec` spells every one of them in plain decimal digits. JavaScript does so only below 10^21 (from there on a key reads "1e+21" and so on), and a JSON number is exact only below 2^53; timestamps beyond those bounds, and fractional or negative epoch seconds, are not modelled.
- Point entries that are themselves `null` are outside the model, which has no null points. Both functions throw a TypeError on them: dygraph-helper.js reads `point['d']` (`public/js/dygraph-helper.js:30`) for a null point in any series, and dashboard.js reads `data[0]['d'][i]['d']` (`public/js/dashboard.js:9`) for a null point in the first series. Only for later series does the test at `public/js/dashboard.js:11` skip a null point as if it were missing.
- Both files define a global `convertToDygraph`, and which one a page sees depends on script load order. The two are modelled as separate functions, `DygraphHelper.ConvertToDygraph` and `Dashboard.ConvertToDygraph`, and the override is not modelled.
- `Strings.LexLess` compares characters by code point, whereas JavaScript compares UTF-16 code units. The two orders differ only when labels mix characters above U+FFFF with characters in U+E000–U+FFFF. Timestamp keys are plain digits and are unaffected.
- `Array.prototype.sort` leaves the algorithm open. `LabelSort.SortSeries` uses insertion sort; a stable sort with this comparator gives this one order, but no lemma here proves that uniqueness.
- `Object.keys(...)` followed by `times.sort()` is modelled as repeatedly taking the smallest remaining key (`DygraphHelper.SortedKeys`). The keys are distinct, so this is the sorted order; the unsorted order of `Object.keys` is not modelled.
- The scheduling, query-template substitution and zoom-synchronisation parts of the dashboard are not part of this model: none of them appears in these files.

## Findings

| source | as written | input that shows it | evidently intended | confidence | as-written member | corrected member |
|---|---|---|---|---|---|---|
| public/js/dashboard.js:14-15 | A missing point copies `datapoints[i - 1][j]`. Entry 0 of a row is the date, so this is the previous cell of the series to the left. | Series a with points (0, 1) and (60, 2); series b with the single point (0, 7). Row 1 shows 1 for b. | Copy `datapoints[i - 1][j + 1]`, so that b repeats its own last value 7. | high; not executed | `Dashboard.CarryOverTakesNeighbour` | `Dashboard.FilledRepeatsLastValue` |
