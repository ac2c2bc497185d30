# COVID-19 dashboard core, modelled in Dafny

The dashboard reads a one-snapshot table of per-country COVID-19 counts. Each row has a
`Country/Region`, a `WHO Region`, and `Confirmed`, `Deaths` and `Recovered` counts. A sidebar
offers two multiselects. Their options are a sentinel (`All Regions` / `All Countries`)
followed by the distinct values of the column. The page then shows the filtered table and a
donut chart of three percentages: deaths, recovered, and the "unknown" residual. The
percentages are computed from the column sums over the filtered view. The sums themselves are
not displayed.

This project models that pipeline as pure functions and proves what it guarantees:

- `seqs.dfy` (`Seqs`): the boolean-mask selection `Where`, the subsequence relation
  `IsSubsequence`, and `Unique`, which gives distinct values in first-occurrence order.
- `dataset.dfy` (`Dataset`): the `Row` record, the two sentinels, the column projections
  and the option lists.
- `selection.dfy` (`Selection`): the four-way guard chain `Filter` and its per-dimension
  wildcard reading `Passes`, with one lemma per branch.
- `aggregate.dfy` (`Aggregate`): the column sums `Total` and the percentages `Percent`.
- `dashboard.dfy` (`Dashboard`): one whole evaluation, `Summarize`, and worked examples.
- `wrappers.dfy` (`Wrappers`): the `Option` type used for undefined percentages.

Modelling decisions:

- A selection is the list of labels a multiselect returns. The filter only asks whether a
  label is in that list.
- Counts are unbounded natural numbers.
- Percentages are exact reals. So `deaths + recovered + unknown = 100` holds exactly, not
  within rounding.
- Where the source divides by a zero confirmed total (giving NaN or infinity), `Percent`
  returns `None`.
- The "unknown" residual is not clamped. It is negative exactly when deaths plus recoveries
  exceed the confirmed count.

## Model

| member | source | states |
|---|---|---|
| `Seqs.Where` | covid_dashboard.py:26-30 | Masking keeps exactly the rows the mask accepts. It keeps them in their original order, each as often as it occurs: the result is a subsequence of the input with the same count of every accepted row and none of the others. |
| `Seqs.Unique` | covid_dashboard.py:17-20 | The distinct column values hold every value of the column and no other, each value once, ordered by where it first occurs in the column. |
| `Dataset.Options` | covid_dashboard.py:17-20 | An option list starts with its sentinel. The rest is every distinct column value exactly once, in first-occurrence order. |
| `Dataset.RegionOptions` | covid_dashboard.py:17 | The region options are `All Regions` followed by the distinct values of the region column in first-occurrence order. Every row's region appears after the sentinel, nothing appears that is not some row's region, and there are no repeats. |
| `Dataset.CountryOptions` | covid_dashboard.py:20 | The country options are `All Countries` followed by the distinct values of the country column in first-occurrence order. Every row's country appears after the sentinel, nothing appears that is not some row's country, and there are no repeats. |
| `Selection.Filter` | covid_dashboard.py:23-30 | In every branch the view is an order-preserving subsequence of the data. A row is in it iff it is a data row that passes both dimensions, where a dimension is passed when its selection holds the sentinel or the row's own label. A kept row appears as often as it does in the data. |
| `Selection.FilterIsWildcardMask` | covid_dashboard.py:23-30 | The four-way guard chain yields exactly the data masked by the per-dimension wildcard test, row for row and in order. |
| `Selection.FilterAllIsIdentity` | covid_dashboard.py:23-24 | With both sentinels selected, the view is the whole dataset. |
| `Selection.FilterByRegionOnly` | covid_dashboard.py:25-26 | With only the country sentinel selected, a row is kept iff its region is selected. Which countries are listed alongside the sentinel makes no difference. |
| `Selection.FilterEmptyRegionSelection` | covid_dashboard.py:25-26 | With only the country sentinel and an empty region selection, the view is empty, not the whole dataset. |
| `Selection.FilterByCountryOnly` | covid_dashboard.py:27-28 | With only the region sentinel selected, a row is kept iff its country is selected. Which regions are listed alongside the sentinel makes no difference. |
| `Selection.FilterByBoth` | covid_dashboard.py:29-30 | With no sentinel, a row is kept iff its country AND its region are both selected. |
| `Selection.FilterDisjointSelections` | covid_dashboard.py:29-30 | With no sentinel and no row matching both selections, the view is empty. |
| `Selection.SentinelAbsorbsLabels` | covid_dashboard.py:23-28 | A sentinel listed alongside real labels acts as a wildcard. The view equals the one obtained with the sentinel alone in that selection. |
| `Aggregate.TotalAppend` | covid_dashboard.py:33-35 | A column sum over two concatenated row sequences is the sum of their column sums. |
| `Aggregate.Total` | covid_dashboard.py:33-35 | A column sum is at least every row's count in that column. It is zero exactly when every row's count is zero, including when there are no rows. |
| `Aggregate.Tally` | covid_dashboard.py:33-35 | Each of the three sums (cases, deaths, recovered) is at least the corresponding value of every row. The confirmed sum is zero exactly when no row has a confirmed case. |
| `Aggregate.TotalOfSubsequence` | covid_dashboard.py:33-35 | Removing rows never increases a column sum. |
| `Aggregate.TotalOfMaskPartition` | covid_dashboard.py:33-35 | The column sums of the rows a mask keeps and of the rows it drops add up to the sum over all rows. |
| `Aggregate.Percent` | covid_dashboard.py:38-40 | Percentages are undefined iff the confirmed total is 0. When defined, each share times the confirmed total is 100 times its count. The three shares add up to exactly 100. Deaths and recovered are non-negative. The residual is negative iff deaths plus recoveries exceed the confirmed total. |
| `Dashboard.Summarize` | covid_dashboard.py:23-40 | The summary's view is an order-preserving subsequence of the data. It holds exactly the rows that pass the selection, each as often as it occurs in the data. Its totals are the Confirmed, Deaths and Recovered sums over that view, and are no larger than the sums over the whole dataset. Its percentages are those of its totals, and are missing iff the confirmed sum is 0. An empty view has zero sums and no percentages. |
| `Dashboard.ExampleSingleCountry` | covid_dashboard.py:23-40 | All regions with country `US` over a US/France table keeps only the US row. The totals are 100/10/80 and the shares 10/80/10. |
| `Dashboard.ExampleDisjointSelection` | covid_dashboard.py:23-40 | Region `Europe` with country `US` keeps nothing. The totals are zero and there are no percentages. |
| `Dashboard.ExampleRegionOptions` | covid_dashboard.py:17 | The region options of the US/France table are `All Regions`, `Americas`, `Europe`. |

## Left out

- Loading the CSV file (covid_dashboard.py:13) is file I/O done by a library. The dataset is
  taken as an already-loaded sequence of rows with the required columns present.
- The Streamlit page, sidebar, column and table calls (covid_dashboard.py:7-11, 51-58, 61,
  71, 74, 95, 111, 156-161) are UI. Only the lists the two multiselects return enter the
  model, as parameters of `Selection.Filter` and `Dashboard.Summarize`.
- The multiselect defaults (`All Regions` / `All Countries`) are widget state. The model
  takes any selection, so the defaults are covered by `Selection.FilterAllIsIdentity`.
- The Plotly donut, choropleth, bar charts and heatmap (covid_dashboard.py:43-48, 62-69,
  76-153) are presentation with no checkable logic.
- The table height `min(500, n*25 + 25)` (covid_dashboard.py:56) is layout styling.
- Aggregate.Percent: it returns `None` where the source's floating-point division by a
  zero total yields NaN or infinity. It also computes exactly over reals, so floating-point
  rounding is not modelled.
- Missing values (NaN) in label or count columns are not modelled. Labels are plain
  strings and counts are natural numbers.
- 64-bit overflow of the column sums is not modelled. Sums are unbounded.
