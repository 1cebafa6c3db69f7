# Sales analysis pipeline: cleaning, revenue aggregations, customer features

This project models the data-handling core of `Tp03/TP03_analysis.py`, a
batch script that loads sales records, cleans them, reports revenue per
month, per product and per region, and builds one feature row per
customer for a k-means segmentation. The pandas operations are modelled as
operations on a sequence of sales records
`(order_id, customer_id, product, category, region, date, quantity, revenue)`.

- `Wrappers` — `Option`, standing for a missing (NaN / NaT) cell.
- `Ordering` — strict total orders, and the code-point order on strings
  that pandas uses to sort string group keys.
- `Calendar` — timestamps (proleptic Gregorian date plus time of day), the
  chronological order, and the first-of-month bucket.
- `Sales` — the record type and `load_and_clean`. The record is generic in
  the type of its date column and of its region/category columns, so each
  stage's type says what that stage guarantees: text dates, then
  parsed-or-missing dates, then present dates; optional labels, then
  filled-in labels. `LoadAndClean` applies the steps in the source's
  order. `CleanedRows` cleans one raw row at a time, and the staged
  pipeline is proved equal to it.
- `GroupBy` — `groupby(key)[col].sum()` as an association list whose keys
  are ascending (pandas sorts group keys), and `sort_values(ascending=False)`.
- `Reports` — the three aggregations of `eda`.
- `Segmentation` — the per-customer `agg` of `customer_segmentation`,
  attaching cluster labels, and `value_counts().sort_index()` of the labels.

Duplicates are dropped on the raw rows, before the date text is parsed, as
the source does. Two raw rows that differ only in how their date is
written are therefore both kept. If their dates parse to the same instant,
the cleaned table holds two equal rows. `Sales.LoadAndClean` counts its
output rows as the number of distinct raw rows whose date parses.

The model follows the code:
- `avg_basket` is the `mean` of revenue over the customer's rows, not
  revenue per order.
- The cluster-size tally (`value_counts`) lists only the labels that
  occur. A label that no customer carries is absent, not shown with a
  count of 0.

## Model

| member | source | states |
|---|---|---|
| `Sales.DropDuplicates` | Tp03/TP03_analysis.py:24 | no two output rows are equal; a row is in the output iff it is in the input; output rows appear in the order of their first occurrences in the input |
| `Sales.CoerceDates` | Tp03/TP03_analysis.py:25 | no contract of its own: `Sales.StagesCleanEachRow` and `Sales.LoadAndClean` state its effect, each row's date text replaced by its parse or NaT |
| `Sales.DropMissingDates` | Tp03/TP03_analysis.py:26 | every surviving row had a present date; every row with a present date survives, with the date unwrapped; the number of survivors is the number of dated rows |
| `Sales.DropMissingDatesCount` | Tp03/TP03_analysis.py:26 | each dated row occurs in the output exactly as often as it occurs, with a date, in the input |
| `Sales.FillUnknown` | Tp03/TP03_analysis.py:27-28 | no contract of its own: `Sales.StagesCleanEachRow` states it through `CleanRow`, a missing region or category becoming "Unknown" and the rest copied |
| `Sales.DeriveCalendar` | Tp03/TP03_analysis.py:30-31 | no contract of its own: `Sales.StagesCleanEachRow` states it through `CleanRow`, year and month bucket taken from the date |
| `Sales.StagesCleanEachRow` | Tp03/TP03_analysis.py:25-31 | coercing, dropping undated rows, filling and deriving the calendar columns column by column gives the same table as cleaning the rows one at a time, in order (`CleanedRows`) |
| `Sales.CleanedRowsCount` | Tp03/TP03_analysis.py:24-31 | over distinct raw rows, the cleaned rows hold each value once for each raw row that cleans to it |
| `Sales.FilledTwinsBothKept` | Tp03/TP03_analysis.py:24-28 | a row with a missing region and its twin whose region already reads "Unknown" both survive and give two equal cleaned rows |
| `Sales.CleanedRowHasSource` | Tp03/TP03_analysis.py:24-31 | each cleaned row is the cleaned image of some raw row whose date parses |
| `Sales.DatedRowIsKept` | Tp03/TP03_analysis.py:24-31 | each raw row whose date parses has a cleaned image in the output |
| `Sales.LoadAndClean` | Tp03/TP03_analysis.py:21-33 | every output row comes from a raw row whose date parses, with the date replaced by the parsed value, present region/category kept, missing ones set to "Unknown", other columns copied, year = the date's year and month = the date's month bucket; every raw row whose date parses has such an image; the output has one row per distinct raw row whose date parses; it is the row-by-row cleaning of the deduplicated rows in their first-occurrence order; each cleaned value occurs as many times as there are distinct raw rows that clean to it |
| `Calendar.MonthStart` | Tp03/TP03_analysis.py:31 | the bucket is in the same year and month, on day 1 at midnight, and no instant of that month is earlier |
| `Calendar.MonthStartIdentifiesMonth` | Tp03/TP03_analysis.py:31 | two timestamps get the same bucket iff they fall in the same calendar month |
| `Calendar.MonthStartIdempotent` | Tp03/TP03_analysis.py:31 | bucketing a bucket gives the same bucket |
| `Calendar.ChronologicalIsStrictTotalOrder` | Tp03/TP03_analysis.py:38 | the order used to sort month keys is a strict total order |
| `Ordering.StringLessIsStrictTotalOrder` | Tp03/TP03_analysis.py:47 | code-point order on strings, used to sort product, region and customer keys, is a strict total order |
| `GroupBy.GroupBySumFacts` | Tp03/TP03_analysis.py:38 | grouped sums have keys strictly ascending, the same key set as the input, each key's sum equal to the input's sum for that key, and the same grand total (grouping is a partition) |
| `GroupBy.GroupBySum` | Tp03/TP03_analysis.py:38 | no contract of its own: `GroupBy.GroupBySumFacts` states its behaviour |
| `GroupBy.SortDescending` | Tp03/TP03_analysis.py:47 | the ranking is a permutation of its input with values non-increasing |
| `GroupBy.SortDescendingTotal` | Tp03/TP03_analysis.py:56 | ranking does not change the sum of the values |
| `GroupBy.PermutationDistinct` | Tp03/TP03_analysis.py:56 | reordering a list with distinct keys keeps the keys distinct |
| `GroupBy.UnlistedRanksBelow` | Tp03/TP03_analysis.py:47 | in a ranking, a key absent from the first n entries sits at position n or later, below each of the first n |
| `Reports.MonthlyRevenue` | Tp03/TP03_analysis.py:38 | one entry per distinct month bucket, buckets strictly chronological, each value the revenue of that month's rows, values summing to the table's total revenue |
| `Reports.Ranking` | Tp03/TP03_analysis.py:47 | no contract of its own: `Reports.RankingFacts`, `Reports.TopProducts` and `Reports.RegionRevenue` state the grouped sums ranked best first |
| `Reports.Head` | Tp03/TP03_analysis.py:47 | no contract of its own: `Reports.TopFacts` and `Reports.TopProducts` state `head(10)`, the first min(10, n) entries |
| `Reports.TopProducts` | Tp03/TP03_analysis.py:47 | exactly min(10, #distinct products) entries, distinct products of the table, each with its revenue, values non-increasing, and every listed value at least the revenue of every unlisted product |
| `Reports.RegionRevenue` | Tp03/TP03_analysis.py:56 | exactly one entry per distinct region, each with its revenue, values non-increasing, summing to the table's total revenue |
| `Reports.EmptyTableGivesEmptySeries` | Tp03/TP03_analysis.py:38-56 | an empty cleaned table yields three empty series |
| `Segmentation.CustomerFeatures` | Tp03/TP03_analysis.py:67-72 | exactly one row per distinct customer, customers strictly ascending; total_revenue is the customer's revenue sum; avg_basket is that sum over the customer's row count; orders is the number of distinct order ids, between 1 and the row count; avg_qty is the quantity sum over the row count |
| `Segmentation.FeaturesOf` | Tp03/TP03_analysis.py:67-72 | no contract of its own: `Segmentation.FeaturesDescribe` and `Segmentation.CustomerFeatures` state one customer's `agg` row through `DescribesCustomer` |
| `Segmentation.Table` | Tp03/TP03_analysis.py:67-72 | no contract of its own: `Segmentation.TableFacts` and `Segmentation.CustomerFeatures` state one feature row per group |
| `Segmentation.EveryCustomerHasFeatures` | Tp03/TP03_analysis.py:67 | every customer of the cleaned table has a feature row |
| `Segmentation.OrderIdsAtMostRows` | Tp03/TP03_analysis.py:70 | a customer has no more distinct orders than rows |
| `Segmentation.TwoOrderCustomer` | Tp03/TP03_analysis.py:67-72 | customer C1 with two orders of revenue 100 and 300 and quantities 2 and 4 gets total 400, avg_basket 200, orders 2, avg_qty 3 |
| `Segmentation.AssignClusters` | Tp03/TP03_analysis.py:79 | each feature row, unchanged and in order, gets the label given for it |
| `Segmentation.SegmentOfCustomer` | Tp03/TP03_analysis.py:67-79 | in the segmented table every customer of the cleaned table appears exactly once, with its feature row and a label in 0..3 |
| `Segmentation.Tally` | Tp03/TP03_analysis.py:85 | no contract of its own: `Segmentation.ClusterSizes` states the tally |
| `Segmentation.CountsCoverLabels` | Tp03/TP03_analysis.py:85 | the counts of labels 0, 1, 2 and 3 add up to the number of customers |
| `Segmentation.ClusterSizes` | Tp03/TP03_analysis.py:85 | labels strictly ascending, each with its number of customers (at least 1), every label that occurs is listed, and the counts add up to the number of customers |

## Left out

- Reading and writing CSV files (`read_csv`, `to_csv`), creating the output
  directory, and all chart drawing and saving: file I/O and UI.
- `main` and its completion message: a side effect only.
- How `to_datetime` parses date text: the parser is a parameter
  `string -> Option<Timestamp>`, applied cell by cell. pandas infers one
  format from the first non-missing value, so whether a cell parses can
  depend on other cells. The model does not capture that.
- The range limit of pandas timestamps (years 1677 to 2262): timestamps
  here are unbounded in the year.
- `StandardScaler` and `KMeans`: foreign library code over floating point.
  The cluster labels are an input of type `Label` (0 to 3).
- Segmentation.AssignClusters: the source fails when the cleaned table has
  no customers (`fit_transform` at line 75) or fewer customers than the
  four clusters (`fit_predict` at line 79). `AssignClusters` and
  `ClusterSizes` accept labels for any number of customers.
- Segmentation.QuantitySum: quantities and their sums are unbounded
  integers. pandas computes `avg_qty` in float64 (the int64 column is cast
  before the group mean), so it is rounded where the model's sum and
  quotient are exact.
- The id and label columns (order id, customer id, product, category,
  region) are taken as text. `read_csv` would read a numeric-looking
  `customer_id` column as int64, and the group-by would then sort it
  numerically (2 before 10), not in the code-point order of
  `Segmentation.CustomerFeatures` ("10" before "2").
- Missing values in columns other than date, region and category: order id,
  customer id, product, quantity and revenue are always present. So
  pandas' dropping of missing group keys is not modelled, and `fillna(0.0)`
  on the features can only apply to an empty group. `Segmentation.Mean`
  keeps that branch, and `Segmentation.CustomerFeatures` proves it is never
  taken.
- Floating point: revenue and the means are exact `real` values.
- Sales.DropMissingDates: its contract and `DropMissingDatesCount` fix
  which rows survive and how often, but not their order. The order of the
  whole pipeline is fixed by `Sales.StagesCleanEachRow`.
- Reports.TopProducts: the model orders equal revenues by ascending key, as
  a stable sort after the key-sorted group-by would. pandas' default sort
  is not stable, so no contract promises anything about ties.
