# Retail analysis and product relabelling, modelled in Dafny

This project models the two scripts of a small retail-analytics repository.

`update_products.py` rewrites the product descriptions of a transaction CSV:
- It collects the distinct descriptions.
- It builds a mapping from them onto a fixed list of 40 electronics product names. With more than 40 descriptions it repeats the list, cuts it to length and shuffles it. Otherwise it samples names without replacement.
- It overwrites the Description column through that mapping.

`retail_analysis.py` loads the rewritten CSV:
- It computes each row's amount (quantity times price).
- It drops rows whose date does not parse.
- It runs a set of group-by reductions: daily, quarterly and monthly sales; sales and distinct customers per region; sales and quantity per product; top and bottom ten lists; purchases per customer.
- It runs a quarterly cohort-retention analysis. This adds quarter, quarter-id, cohort and offset columns to the frame, pivots distinct-customer counts, and normalises each cohort row to percent.

The Dafny modules follow that structure:

- `Wrappers` (`wrappers.dfy`): `Option` and `Result`.
- `Seqs` (`seqs.dfy`): `unique()` in first-seen order, the dense index `dict(zip(u, range(len(u))))`, and the present values of a nullable column.
- `Records` (`records.dfy`): the row record, nullable numbers, dates and quarter keys.
- `Loader` (`loader.dfy`): the specification of `load_and_preprocess_data`.
- `Aggregates` (`aggregates.dfy`): group-by sum, size and distinct count, and `nlargest` / `nsmallest`.
- `SalesAnalyses` (`analyses.dfy`): the reductions each analysis function computes before plotting.
- `CohortSpec` (`cohort.dfy`): the cohort columns and the retention table as functions, with their properties.
- `RetailAnalysis` (`retail.dfy`): the data frame as a class whose methods add or replace columns in place. Each method is proved against the functions above.
- `UpdateProducts` (`products.dfy`): the product list, the ceiling division, the repeat and cut, `random.shuffle` on an array, `random.sample`, the mapping, and the relabelling of the frame.

Some modelling choices:
- Missing values (NaN) are `None`.
- Quantities and prices are integers (prices in cents).
- Retention percentages are reals.
- The randomness of `random.shuffle` and `random.sample` is a caller-supplied function from the loop position to the raw draw. The algorithms are CPython's: Fisher–Yates from the last position down, and the pool method of `sample`.

The quarter ids of the cohort analysis are modelled as the code assigns them: in first-seen order of the quarter keys, not in calendar order.
- `CohortSpec.QuarterIdsFollowCalendar` and `CohortSpec.CohortIsEarliestQuarter` prove that the two orders agree, and that a cohort is the customer's calendar-earliest quarter, when the input rows are sorted by time.
- `CohortSpec.FirstSeenIdsIgnoreCalendar` gives a two-row input where they disagree.

Among tied values, `nlargest` and `nsmallest` keep the earlier group first, as `keep='first'` does. The model's group order is first-seen rather than sorted, so under ties the kept groups can differ from pandas' (see "## Left out"). Without ties the top and bottom lists of a table with at least 2n groups never share an entry (`Aggregates.TopBottomDisjoint`). With ties they can (`Aggregates.TopOfTies`).

## Model

| member | source | states |
|---|---|---|
| Seqs.Unique | retail_analysis.py:198 | `unique()`: the result holds exactly the values of the input, each once, and is no longer than the input |
| Seqs.UniqueFirstSeen | retail_analysis.py:198-199 | values come out in order of first appearance: an earlier first occurrence means an earlier position |
| Seqs.DenseIndexIsBijection | retail_analysis.py:198-199 | `dict(zip(u, range(len(u))))` sends the distinct keys one-to-one onto `0..len(u)-1`, and reading `u` at a key's number gives the key back |
| Seqs.DistinctOfSubMultiset | update_products.py:69-70 | a selection without replacement from a list without repeats has no repeats |
| Records.QuarterOf | retail_analysis.py:194-195 | the quarter lies in 1..4, the year is the date's year, and the month lies in the quarter's three-month block |
| Records.SameQuarterKey | retail_analysis.py:194-195 | two dates share a quarter key exactly when they share the year and the three-month block |
| Loader.DatedIndices | retail_analysis.py:37 | the kept positions ascend, are in range, and are exactly the rows with a parsed date |
| Loader.LoadedRows | retail_analysis.py:30-37 | the loader keeps exactly the rows whose date parsed, in their order; each gets amount = quantity × price and no other change; every kept row is dated |
| RetailAnalysis.SalesFrame.constructor | retail_analysis.py:16 | the frame starts with the coerced rows and none of the cohort columns |
| RetailAnalysis.SalesFrame.ComputeAmounts | retail_analysis.py:33 | row by row, the amount column becomes quantity × price and nothing else changes |
| RetailAnalysis.SalesFrame.DropUndated | retail_analysis.py:37 | the frame keeps exactly its dated rows, in order |
| RetailAnalysis.SalesFrame.LoadAndPreprocess | retail_analysis.py:30-39 | the frame becomes the loaded rows, all of them dated |
| RetailAnalysis.SalesFrame.AddInvoiceQuarter | retail_analysis.py:194-195 | the `InvoiceQuarter` column holds each row's quarter key |
| RetailAnalysis.NumberQuarters | retail_analysis.py:198-199 | builds the distinct quarter keys in first-seen order and `quarters_map` as their dense index |
| RetailAnalysis.LookUpQuarterIds | retail_analysis.py:200 | one lookup per row yields the `InvoiceQuarterID` column |
| RetailAnalysis.SalesFrame.AddInvoiceQuarterId | retail_analysis.py:198-200 | sets `InvoiceQuarterID` and returns the quarter list and `quarters_map` |
| RetailAnalysis.SalesFrame.AddCohortQuarterId | retail_analysis.py:203 | a running per-customer minimum yields the `CohortQuarterID` column (per-customer minimum quarter id, missing without a customer) |
| RetailAnalysis.SalesFrame.AddCohortQuarter | retail_analysis.py:204-205 | the `CohortQuarter` column maps each cohort id back to its quarter key |
| RetailAnalysis.SalesFrame.AddCohortIndex | retail_analysis.py:206 | the `CohortIndex` column is quarter id minus cohort id, missing where the cohort is |
| RetailAnalysis.SalesFrame.AnalyzeCohortRetention | retail_analysis.py:191-229 | adds the five cohort columns and returns the retention table of the rows |
| Aggregates.GroupKeysExact | retail_analysis.py:44 | the groups of a `groupby` are exactly the present keys, each once |
| Aggregates.GroupSum | retail_analysis.py:69 | the result has exactly one entry per present key: no key twice, none missing, and no entry for a missing key |
| Aggregates.GroupSumComplete | retail_analysis.py:69 | the group totals add up to the total of every row with a present key, missing values counted as 0 |
| Aggregates.AllKeyedTotal | retail_analysis.py:44 | when no key is missing, the keyed total is the whole column's sum |
| Aggregates.GroupSize | retail_analysis.py:61 | `size()`: exactly one entry per present key, each holding the number of rows with that key |
| Aggregates.GroupSizeComplete | retail_analysis.py:61 | the group sizes add up to the number of rows with a present key |
| Aggregates.GroupNunique | retail_analysis.py:115 | `nunique()`: exactly one entry per present key, no key twice and none missing |
| Aggregates.NuniqueAtMostSize | retail_analysis.py:115 | a group has no more distinct values than rows |
| Aggregates.NuniqueBoundedBySize | retail_analysis.py:115 | entry by entry, a distinct count is at most the group's row count |
| Aggregates.Rank | retail_analysis.py:52 | sorting a table by value gives an ordered permutation of it |
| Aggregates.Top | retail_analysis.py:81-82 | `nlargest(n)` / `nsmallest(n)`: min(n, groups) entries, ordered, drawn from the table, and no entry left out beats one kept |
| Aggregates.TopOfTies | retail_analysis.py:81-82 | `keep='first'`: when all values tie, ranking keeps table order and both lists are the first n entries, so top and bottom lists overlap |
| Aggregates.TopBottomDisjoint | retail_analysis.py:81-82 | without ties, a table of at least 2n entries has top-n and bottom-n lists with no entry in common |
| SalesAnalyses.DailySales | retail_analysis.py:44 | sales per day; the day totals make up all sales of dated rows |
| SalesAnalyses.TopProductsBySales | retail_analysis.py:52 | min(10, products) entries of the per-product sums, descending; no product left out sold more than one kept |
| SalesAnalyses.CustomerFrequency | retail_analysis.py:61 | purchases per customer add up to the rows that carry a customer id |
| SalesAnalyses.CountrySales | retail_analysis.py:69 | region totals add up to the sales of all rows with a region |
| SalesAnalyses.TopCountries | retail_analysis.py:81 | min(10, regions) entries of the region sums, descending; no region left out sold more than one kept |
| SalesAnalyses.BottomCountries | retail_analysis.py:82 | min(10, regions) entries of the region sums, ascending; no region left out sold less than one kept |
| SalesAnalyses.CountryCustomers | retail_analysis.py:115 | distinct customers per region, never more than the region's rows |
| SalesAnalyses.TopCountriesByCustomers | retail_analysis.py:119 | min(10, regions) entries of the customer counts, descending; no region left out has more customers than one kept |
| SalesAnalyses.BottomCountriesByCustomers | retail_analysis.py:120 | min(10, regions) entries of the customer counts, ascending; no region left out has fewer customers than one kept |
| SalesAnalyses.ProductQuantities | retail_analysis.py:155 | product quantities add up to the quantity of all rows with a description |
| SalesAnalyses.TopProductsByQuantity | retail_analysis.py:158 | min(10, products) entries of the quantity sums, descending; no product left out has a larger quantity than one kept |
| SalesAnalyses.BottomProductsByQuantity | retail_analysis.py:159 | min(10, products) entries of the quantity sums, ascending; no product left out has a smaller quantity than one kept |
| SalesAnalyses.QuarterlySales | retail_analysis.py:253-255 | quarter totals add up to the sales of all dated rows |
| SalesAnalyses.MonthlySales | retail_analysis.py:273-274 | month totals add up to the sales of all dated rows |
| SalesAnalyses.DatedGroupingsCoverAllSales | retail_analysis.py:44 | on loaded rows the daily, monthly and quarterly groupings leave no sale out |
| CohortSpec.QuarterIds | retail_analysis.py:198-200 | each id is in range and names the row's own quarter key in the distinct-key list |
| CohortSpec.QuarterIdsLookup | retail_analysis.py:200 | each id is the key's entry in `quarters_map` |
| CohortSpec.CohortOf | retail_analysis.py:203 | a customer's cohort is missing exactly when the customer has no row; otherwise it is the least quarter id over the customer's rows, and it is attained |
| CohortSpec.RunningMinsStep | retail_analysis.py:203 | one more row updates the running minimum of its own customer only |
| CohortSpec.CohortColumns | retail_analysis.py:203-206 | cohort and offset are present exactly when the customer is; the cohort is at most every quarter id of that customer, so the offset is never negative |
| CohortSpec.OffsetZeroExists | retail_analysis.py:203-206 | every customer has a row at offset 0 |
| CohortSpec.CohortQuarterOfCustomer | retail_analysis.py:203-205 | the cohort quarter of a row is the quarter key of that customer's row with the least quarter id |
| CohortSpec.UniqueOfSortedAscends | retail_analysis.py:198-199 | on time-sorted input the distinct quarter keys come out in strictly ascending calendar order |
| CohortSpec.QuarterIdsFollowCalendar | retail_analysis.py:198-200 | on time-sorted input one quarter id is below another exactly when its quarter is earlier |
| CohortSpec.CohortIsEarliestQuarter | retail_analysis.py:203-205 | on time-sorted input the cohort quarter is the customer's earliest quarter of purchase |
| CohortSpec.FirstSeenIdsIgnoreCalendar | retail_analysis.py:198-200 | on unsorted input a later quarter seen first gets the smaller id |
| CohortSpec.ActiveAtOffsets | retail_analysis.py:209-210 | a cohort's customers active at offset 0 are exactly its members; at any offset they are some of them |
| CohortSpec.AxisSorted | retail_analysis.py:214-218 | a pivot axis lists, strictly ascending, exactly the values that occur |
| CohortSpec.PivotCell | retail_analysis.py:226-227 | each cell is its count divided by the row's first-column count |
| CohortSpec.ColumnBounds | retail_analysis.py:203-206 | cohort ids and offsets stay within the quarter range |
| CohortSpec.AxisStart | retail_analysis.py:214-218 | an axis whose column contains 0 starts with 0 |
| CohortSpec.FirstColumnIsZero | retail_analysis.py:226 | the first offset column is 0 whenever any row has a customer; there is no column exactly when none has |
| CohortSpec.EngineFailsWithoutCustomers | retail_analysis.py:226 | the analysis fails exactly when no row has a customer id |
| CohortSpec.EngineCellIsShare | retail_analysis.py:226-228 | every cell is missing when nobody of the cohort is active at that offset, and otherwise is active/members × 100 in (0, 100] |
| CohortSpec.CohortNotEmpty | retail_analysis.py:214-218 | a cohort labelling a row has at least one member |
| CohortSpec.EngineShape | retail_analysis.py:214-229 | columns ascend from 0; rows come in strictly decreasing cohort id; each row carries its cohort's quarter key |
| CohortSpec.EngineStartsAtHundred | retail_analysis.py:226-228 | every cohort row starts at 100 percent |
| CohortSpec.RetentionExample | retail_analysis.py:209-229 | on four rows where cohort 0 has two customers and one returns a quarter later, that cell is 50 percent |
| UpdateProducts.EceProductsDistinct | update_products.py:5-46 | the list holds 40 names, none twice |
| UpdateProducts.RepeatTimes | update_products.py:58 | `repeat_times` is the ceiling of num_unique / 40: 40·t ≥ n and 40·(t − 1) < n |
| UpdateProducts.Repeat | update_products.py:60 | `s * t` has |s|·t entries, each value occurring t times as often as in s |
| UpdateProducts.RepeatedProducts | update_products.py:58-62 | after repeating and cutting there are exactly num_unique names, each a product name occurring at most `repeat_times` times |
| UpdateProducts.SwapsPermute | update_products.py:64 | the swaps of the shuffle keep every value's number of occurrences |
| UpdateProducts.Shuffle | update_products.py:64 | the array becomes the Fisher–Yates result of the draws, a permutation of its old contents |
| UpdateProducts.Sample | update_products.py:69-70 | k draws without replacement: k entries, a sub-multiset of the population |
| UpdateProducts.ZipMap | update_products.py:66 | `dict(zip(keys, vals))` has exactly the keys and sends each to its paired value |
| UpdateProducts.ZipMapPreimage | update_products.py:66 | a value serves as many keys as it occurs in the value list |
| UpdateProducts.ZipMapInjective | update_products.py:69-70 | distinct keys zipped with distinct values give a one-to-one mapping |
| UpdateProducts.ShuffledLabels | update_products.py:57-64 | num_unique labels, each a product name occurring at most `repeat_times` times |
| UpdateProducts.SampledLabels | update_products.py:69-70 | num_unique distinct product names |
| UpdateProducts.BuildMapping | update_products.py:52-70 | every distinct description gets a name from the list; one-to-one when they fit in the list, otherwise each name serves at most `repeat_times` descriptions |
| UpdateProducts.BuildProductMapping | update_products.py:52-70 | the same for the 40 product names |
| UpdateProducts.RelabelOnlyDescription | update_products.py:73 | only the Description column changes; row count, order and every other field stay |
| UpdateProducts.RelabelKeepsColumns | update_products.py:73 | quantities, amounts, customers, regions and dates are unchanged |
| UpdateProducts.RelabelledAllNamed | update_products.py:73 | with a mapping covering every description, every row ends up with a product name |
| UpdateProducts.RelabelKeepsGroups | update_products.py:73 | for any mapping, including one that reuses names beyond 40 descriptions, rows with equal descriptions get equal labels |
| UpdateProducts.RelabelSeparatesGroups | update_products.py:73 | under a one-to-one mapping that covers both rows, rows with different descriptions get different labels |
| UpdateProducts.ProductFrame.constructor | update_products.py:49 | the frame starts with the rows read |
| UpdateProducts.ProductFrame.RelabelDescriptions | update_products.py:73 | the frame's rows become the relabelled rows |
| UpdateProducts.ProductFrame.UpdateDescriptions | update_products.py:52-73 | afterwards every row carries one of the 40 product names; the mapping covers every description and is one-to-one when at most 40 exist |

## Left out

- Reading and writing the CSV files (`pd.read_csv`, `to_csv`), the `ISO-8859-1` encoding, `low_memory`, and the final `print`: I/O. The model starts from parsed rows.
- `pd.to_numeric(..., errors='coerce')` and `pd.to_datetime(..., errors='coerce')` parsing: the rows carry their already-coerced values, with `None` for a failed parse. The time of day is not kept because no analysis uses it.
- The column renaming at retail_analysis.py:19-28: it changes only names, so the record keeps one field per column.
- Every plot, HTML file, the browser call, `main`'s sequencing, and the global plot style: output only.
- Floating point: quantities and prices are integers, and `.round(2)` on the percentages is not modelled.
- The quarter key is kept as the (quarter, year) pair it is formatted from, not as the `"Q{q}/{yyyy}"` string. Equal pairs give equal strings and vice versa.
- Group order: pandas sorts `groupby` keys, while the model lists groups in first-seen order. This changes the row order of a reduced table. In the top and bottom lists it also changes which groups are kept when ties straddle the n-th place: `keep='first'` keeps the first tied groups in sorted key order, the model the first in first-seen order.
- Aggregates.Top: does not state which of several tied entries are kept; it states only that no left-out entry beats a kept one.
- The dict-renaming `agg` at retail_analysis.py:115, which recent pandas rejects, is modelled as the intended distinct count per region.
- SalesAnalyses.TopProductsBySales: `sort_values(ascending=False).head(10)` is modelled by the same stable ranking as `nlargest`. The sort's own tie order is not stated.
- The randomness: `random.shuffle` and `random.sample` take their raw draws from a caller-supplied function rather than a generator. The model states nothing about their distribution.
- UpdateProducts.Sample: only the pool method of `random.sample` is modelled. CPython uses a set-based method for samples of at most 5 from 40 names. That method gives results with the same properties, but it has a retry loop whose termination depends on the draws.
- UpdateProducts.ZipMap: requires keys without repeats and equal lengths. `dict(zip(...))` would also accept other inputs, but both calls pass the distinct descriptions and exactly as many labels.
- A missing (NaN) description counts as one more distinct description, as `unique()` reports it, and is relabelled like any other. Grouping, by contrast, drops missing keys, as `groupby` does.
