# NYC Airbnb listing charts: a verified model of the listing aggregator

The site draws pie charts and a line chart of New York City Airbnb listings.
Before drawing, every chart script runs the same aggregation:

1. It keeps the listing rows that pass the page's filters: neighbourhood group equal to the
   `neighbourhood_group` URL parameter, minimum stay under 8 or over 30 nights, a chosen
   room type unless the choice is `"both"`, and a review since 2014 with a price.
2. It counts the survivors, and sums their prices, per neighbourhood group, neighbourhood or
   review year.
3. On the drill-down pages, it merges every neighbourhood with fewer than 50 listings into a
   synthetic `"Other"` key.
4. It turns each remaining key into a `{key, count, averagePrice}` record. Tooltips show
   `count / total * 100`.

The price-trend page sorts its per-year records by year and colours each dot by a threshold
rule. Every pie labels its slices with a rotation, shift and anchor chosen from the slice's
mid-angle.

The Dafny modules follow that structure:

- `Listings` holds the parsed row, the order-keeping filter and the filters two pages share.
- `Tallies` holds the `counts`/`totalPrices` dictionaries. Both share their keys, so they are
  one map from key to `Bucket(count, priceSum)`. It has:
  - their declarative meaning, `Tabulation`;
  - the `forEach` loop, proved against `Tabulation`;
  - an order-independent sum over a map, `Total`.
- `OtherBucket` holds the `for (let key in counts)` fold.
  - It is specified by `Folded`, the result of visiting every key in any order.
  - It is implemented as a loop over a snapshot of the keys.
  - Its conservation and shape laws are proved.
  - The loop exactly as written is modelled too (see Findings).
- `Slices` holds the record build, the `total` reduce and the tooltip percentages.
- `PieLabels` holds `computeTextRotation`, `computeTextDx` and `computeTextAnchor`. They are
  identical in all four pie scripts.
- `Navigation` holds what a click on a slice does.
- The page modules are:
  - `DrilledDownOne` for `drilled-down-1.js`;
  - `DrilledDownTwo` for `drilled-down-2.js`;
  - `LongStayOverview` for `script-2.js`;
  - `Overview` for `script.js`;
  - `PriceTrend` for `script-3.js`.
- `DrillDownLinks` relates an overview slice to the drill-down page it opens.

The dictionary updates, the fold, the record loop and the year sort are methods with loops.
The year sort works in place on an array. Each method is proved against a specification
function. The filters, the record shape, the label and colour rules are functions.

## Model

| member | source | states |
|---|---|---|
| `Listings.ByRoomType` | script-3.js:22-26 | the room-type filter keeps every row when the selection is `"both"`, otherwise exactly the rows of the selected room type, every copy of a repeated row included, never adding rows |
| `Tallies.Tabulate` | drilled-down-1.js:22-28 | after the `forEach`, `counts[k]` and `totalPrices[k]` are the number of surviving rows with key `k` and the sum of their prices, for exactly the keys that occur |
| `Tallies.TabulationAppend` | drilled-down-2.js:18-22 | counting one more row changes only that row's key, by one listing and its price; absent keys start at 0 |
| `Tallies.TabulationPositive` | script-2.js:14-19 | every key in the dictionaries has a count of at least 1 |
| `Tallies.TabulationTotal` | script-2.js:14-21 | summed over all keys, the counts give the number of surviving rows and the price sums give their total price |
| `Tallies.TabulationKeys` | script-2.js:24-26 | the dictionaries have one key per distinct grouping value among the rows, and no other |
| `Tallies.TotalWithout` | drilled-down-1.js:42-45 | the sum over all keys does not depend on the order in which `Object.keys` lists them |
| `OtherBucket.FoldSmallGroups` | drilled-down-1.js:32-39 | the fold loop over a snapshot of the keys yields `Folded`, whatever order the keys are visited in; this is the corrected loop, which never folds a key named `"Other"` into itself (see Findings) |
| `OtherBucket.FoldKeysStep` | drilled-down-1.js:33-38 | visiting one more key is one run of the loop body: a key below 50 other than `"Other"` is added to `"Other"` and deleted; anything else is left alone |
| `OtherBucket.FoldStepKeepsTotal` | drilled-down-2.js:30-35 | one run of the loop body leaves the total count and total price unchanged |
| `OtherBucket.FoldedKeepsTotal` | drilled-down-1.js:32-39 | the fold preserves the sum of all counts and the sum of all price totals |
| `OtherBucket.FoldedKeepsLarge` | drilled-down-2.js:29-36 | after the fold no key but `"Other"` is below 50; keys at 50 or more keep their count and price sum; keys below 50 are gone |
| `OtherBucket.FoldedOther` | drilled-down-1.js:34-35 | `"Other"` ends with its prior count and price sum (0 if absent) plus those of every folded key; it exists afterwards iff it existed or some key was folded |
| `OtherBucket.FoldedPositive` | drilled-down-1.js:42-45 | when every key was counted at least once, every key after the fold still has a count of at least 1, so every average is defined |
| `OtherBucket.FoldStepAsWritten` | drilled-down-1.js:33-38 | the loop body as written adds no key but `"Other"`, and removes a small `"Other"` itself |
| `OtherBucket.FoldAsWritten` | drilled-down-2.js:29-36 | the loop as written, in a given key order, adds no key but `"Other"` |
| `OtherBucket.SmallOtherNeighbourhoodIsLost` | drilled-down-1.js:32-39 | with one neighbourhood named `"Other"` holding 3 listings, the loop as written returns an empty dictionary, whereas `Folded` keeps all 3 |
| `OtherBucket.AsWrittenDependsOnOrder` | drilled-down-2.js:29-36 | the loop as written depends on the key order: with a key named `"Other"` holding 40 listings and a key `"A"` holding 20, it leaves `"Other"` at 20 when it visits `"Other"` first and at 60 when it visits `"A"` first |
| `OtherBucket.FoldAsWrittenAgrees` | drilled-down-2.js:29-36 | when no neighbourhood is named `"Other"` or it has at least 50 listings, the loop as written gives `Folded` in every key order |
| `Slices.SliceOf` | drilled-down-1.js:42-45 | a record keeps its key and count |
| `Slices.SliceOfAverage` | drilled-down-2.js:40 | a record's average price times its count gives back the key's price sum |
| `Slices.BuildSlices` | drilled-down-2.js:39-42 | there is exactly one record per key, none twice, each with `averagePrice = totalPrices[key] / counts[key]`; summed over the records, count and price mass equal the dictionaries' totals |
| `Slices.SumCounts` | drilled-down-2.js:24 | `Object.values(counts).reduce(...)` is the sum of all counts |
| `Slices.Percentage` | drilled-down-1.js:138 | a share `count / total * 100` is non-negative, and at most 100 when the count is at most the total |
| `Slices.PercentagesSumTo100` | script-2.js:77 | when `total` is the positive sum of the record counts, the tooltip percentages add up to 100 |
| `Slices.SliceTotalPermutation` | script-3.js:51-53 | reordering records leaves the sum of their counts and price masses unchanged |
| `PieLabels.Rotation` | script.js:76-79 | the rotation is the mid-angle turned back or on by a quarter turn |
| `PieLabels.Dx` | script.js:81-84 | the label shift is `"-1.2em"` or `"1.2em"` |
| `PieLabels.Anchor` | script.js:86-89 | the anchor is `"start"` or `"end"` |
| `PieLabels.LabelSidesAgree` | drilled-down-1.js:158-171 | anchor `"start"` iff dx `"-1.2em"` iff mid-angle below 180 iff rotation is `angle - 90` |
| `PieLabels.LabelsUpright` | drilled-down-2.js:155-158 | for every mid-angle in [0, 360) the rotation, taken into [-180, 180), lies in [-90, 90): no label is upside down |
| `DrilledDownOne.Survivors` | drilled-down-1.js:9-19 | a row survives iff its group equals the URL parameter, its minimum stay is under 8 nights, and its room type is the selected one unless the selection is `"both"`; every copy of a surviving row is kept |
| `DrilledDownOne.Init` | drilled-down-1.js:3-48 | the records are one per key of the folded dictionaries; all counts are at least 1; every key but `"Other"` has at least 50; counts and prices of all survivors are conserved; tooltip shares add up to 100 |
| `DrilledDownTwo.Survivors` | drilled-down-2.js:13 | a row survives iff its group equals the URL parameter, with no other filter; every copy of a surviving row is kept |
| `DrilledDownTwo.Init` | drilled-down-2.js:4-45 | `total`, counted before the fold, equals the number of survivors and still equals the sum of the record counts after it; the records' price mass is the survivors' total price; every key but `"Other"` has at least 50; tooltip shares add up to 100 |
| `LongStayOverview.Survivors` | script-2.js:9-11 | a row survives iff its minimum stay is strictly more than 30 nights; every copy of a surviving row is kept |
| `LongStayOverview.Init` | script-2.js:4-29 | there is one record per distinct group of the survivors, nothing merged or dropped; `total` is the number of survivors and the sum of the counts; prices are conserved; shares add up to 100 |
| `LongStayOverview.OnClick` | script-2.js:84-87 | a click always opens the second drill-down page for the clicked group |
| `Overview.CountProp` | script.js:11 | the counted column is `neighbourhood` iff in drill-down mode, otherwise `neighbourhood_group` |
| `Overview.CountedOf` | script.js:14-18 | the `{key, count}` records sum to the same count as the full records |
| `Overview.UpdateGraph` | script.js:9-23 | there is one `{key, count}` record per distinct value of the counted column, with the number of rows holding it (at least 1); the counts add up to the number of rows |
| `Overview.OnClick` | script.js:59-64 | a click navigates iff not in drill-down mode, and then to the first drill-down page for the clicked group |
| `PriceTrend.Survivors` | script-3.js:16-26 | a row survives iff it has a review year of 2014 or later, a listed price, and the selected room type unless `"both"`; every copy of a surviving row is kept |
| `PriceTrend.SinkIntoPlace` | script-3.js:51-53 | one insertion pass extends the sorted prefix by one entry, permuting only the prefix |
| `PriceTrend.SortByYear` | script-3.js:51-53 | the in-place sort leaves the entries in ascending year order, as a permutation of the input |
| `PriceTrend.NestByYear` | script-3.js:34-48 | there is one entry per review year, none twice, with the count and mean price of that year's rows; the counts add up to the number of survivors |
| `PriceTrend.SortedCopy` | script-3.js:51-53 | the sorted entries are a permutation of the nested entries, in ascending year order |
| `PriceTrend.PermutedRecords` | script-3.js:51-53 | sorting keeps exactly one entry per year, none twice, each still the record of its year, and the sums |
| `PriceTrend.ParseData` | script-3.js:7-56 | the entries are the per-year records of the survivors, exactly one per year and none twice, sorted by year, with counts adding up to the number of survivors |
| `PriceTrend.OrangeFrom` | script-3.js:125-133 | the first colour boundary (125 for `"Private room"`, 140 otherwise) lies below the second, 170 |
| `PriceTrend.DotColour` | script-3.js:125-133 | a dot is green below the first boundary, orange from it up to but excluding 170, and red from 170 |
| `PriceTrend.ColourMonotone` | script-3.js:126-132 | a higher mean price never gets a cheaper colour band |
| `PriceTrend.PrivateRoomsStricter` | script-3.js:125-128 | at any price a private-room dot is at least as far along the bands as any other, differing only on [125, 140) |
| `DrillDownLinks.GroupCount` | script-2.js:14-17 | a group's count is the number of rows of that group |
| `DrillDownLinks.FirstDrillDownNarrows` | script.js:59-64 | the first drill-down page, opened from an overview slice, keeps at most the listings that slice counted |
| `DrillDownLinks.SecondDrillDownWidens` | script-2.js:84-87 | the second drill-down page, opened from a long-stay slice, counts at least the listings that slice counted, since it drops the minimum-stay filter |

## Left out

- Loading the CSV file (`d3.csv`), `async`/`await`, `URLSearchParams` and `window.location` are left out. Rows arrive already loaded and parsed, and the URL parameter is an `Option<string>`.
- Percent-encoding and decoding of the clicked group (`encodeURIComponent`) is taken to round-trip and is not modelled.
- All SVG and DOM work is left out, because it is view code over d3:
  - arcs, the `d3.pie` angle computation and centroids;
  - the gradient legend, the price-extent annotation, tooltips and their positions;
  - the Laurelton, 2022 and 2023 annotations;
  - the hotel and rent comparison tables with their lines.
- Each label rule takes the slice's mid-angle in degrees as input. The model does not derive the angle from `startAngle`, `endAngle` and `Math.PI`.
- Text-to-number conversion is not modelled: `+x`, `parseFloat`, NaN propagation and `d3.timeParse` failures.
  - Prices are `real`, minimum stays are `int`, and the review year is `Option<int>`.
  - "Price listed" stands for the non-empty price text that `script-3.js` tests.
  - `toFixed` and `Math.round` are formatting and are not modelled.
- Floating-point rounding is not modelled. Sums and divisions are exact reals, so "the percentages add up to 100" is exact in the model but only approximate in a browser.
- The in-place rewrite of `last_review` and `price` on each row at script-3.js:28-31 is not modelled as a step. Rows are already parsed, so it would change nothing.
- `d3.nest` returns the year key as a string, and the sort compares it numerically. The model keys entries by the year as an integer throughout.
- The order of keys from `Object.keys` and of a `for...in` loop is not modelled: the fold and record loops pick keys in an arbitrary order. The results of the corrected fold and of the record loop are proved not to depend on it, except for the record order itself, which nothing relies on. The fold as written does depend on it when a neighbourhood named `"Other"` has fewer than 50 listings (`OtherBucket.AsWrittenDependsOnOrder`).
- Tallies.Tabulate, OtherBucket.FoldSmallGroups: the pages keep `counts` and `totalPrices` in plain JavaScript objects, whose keys are modelled as the entries of a `map`. Key names that are members of `Object.prototype` behave differently in the pages and are not modelled: `counts[k] || 0` reads the inherited member, so a neighbourhood named `"constructor"` gets a string count, and one named `"__proto__"` is never stored and drops out of the records and of `total`.
- OtherBucket.FoldSmallGroups: models the corrected loop, which skips the key `"Other"`; it differs from drilled-down-1.js:32-39 and drilled-down-2.js:29-36 when a neighbourhood named `"Other"` has fewer than 50 listings at the moment it is visited (see Findings).
- DrilledDownOne.Init: uses the corrected fold, so its conservation of counts and prices holds for the page only when no neighbourhood named `"Other"` has fewer than 50 listings when visited; otherwise the page loses those listings.
- DrilledDownTwo.Init: uses the corrected fold, so `total` matching the record counts and prices holds for the page only when no neighbourhood named `"Other"` has fewer than 50 listings when visited.
- `Overview.UpdateGraph` counts through the shared tally, which also sums prices. `script.js` keeps only the counts, and the extra sum does not affect its records.
- `Slices.SliceOf` requires a count of at least 1; every key that reaches it is proved to have one, so the division by zero that JavaScript would turn into NaN never arises.
- The module-level `data` and `total` variables are results of the `Init` methods, not globals.

## Findings

| source | as written | input that shows it | evidently intended | confidence | as-written member | corrected member |
|---|---|---|---|---|---|---|
| drilled-down-1.js:32-39 | the fold visits every key with a count below 50, including a neighbourhood whose own name is `"Other"`; line 34 then doubles that key's count, line 35 its price, and lines 36-37 delete it; the result then also depends on the order of the keys | a neighbourhood group whose only neighbourhood is named `"Other"`, with 3 listings: the dictionaries end empty, so the chart drops 3 listings and `total` (drilled-down-2.js:24) no longer matches the records | keep a key named `"Other"` out of the fold, so the merged bucket receives it and the counts and prices are conserved | not executed; low, as no New York neighbourhood is known to carry that name | `OtherBucket.FoldAsWritten` | `OtherBucket.FoldSmallGroups` |
