# E-commerce analytics pipeline

A model of the data pipeline behind a Streamlit sales dashboard (`app.py`).
The pipeline runs as follows.

- **Load.** Read the transaction table and drop every record with a missing cell. Then derive `TotalPrice = Quantity * UnitPrice`.
- **Country filter.** Narrow the table to the countries selected in the sidebar.
- **Dashboard.** Compute the headline figures (revenue, distinct orders, distinct customers) and revenue per calendar day.
- **Product page.** Rank the ten best-selling products.
- **Customer page.** Build a stricter customer view (rows with positive revenue only) and group it by the customer number written as text. Show the ten and the fifty biggest spenders, and the count, mean and highest spend.
- **Forecast page.** Fit a least-squares line of daily revenue on the day's ordinal index. Project it over the next thirty indices, dated from the last observed day. Join actual and predicted rows into one chart table.

Money is exact `real` arithmetic. Dates are already-parsed integer day numbers.
Every stage is a whole-table expression.

Each stage is modelled as a function over sequences of records, and the promised properties are proved as contracts and lemmas:

- the group sums reconcile with the column sum;
- `nunique` is the size of a key set;
- top-N results are bounded, ordered and made of genuine groups, and they dominate every group left out;
- the fitted line solves the normal equations and minimises the squared error;
- when revenue lies exactly on a line over two days or more, the fit recovers that line;
- the chart table is the actual rows followed by the predicted ones.

Modules, in pipeline order:

| module | file | content |
|---|---|---|
| `Wrappers` | Wrappers.dfy | `Option`, `Result` |
| `Sums` | Sums.dfy | sums of real sequences and their algebra |
| `Algebra` | Algebra.dfy | real-arithmetic facts used by the least-squares proofs |
| `TableOps` | TableOps.dfy | boolean-mask selection, `sort_values`, `head`, `tail` |
| `Grouping` | Grouping.dfy | `groupby().sum()` and `nunique()` |
| `Loader` | Loader.dfy | records, `dropna`, `TotalPrice` |
| `CountryFilter` | CountryFilter.dfy | the country selection |
| `Dashboard` | Dashboard.dfy | headline figures and revenue per day |
| `Ranking` | Ranking.dfy | top-N by total, descending `head` and ascending `tail` |
| `ProductAnalytics` | ProductAnalytics.dfy | revenue per product, top ten |
| `CustomerIds` | CustomerIds.dfy | customer numbers as text (`astype(str)`) |
| `CustomerAnalytics` | CustomerAnalytics.dfy | customer view, spending, top customers, metrics |
| `Forecaster` | Forecaster.dfy | ordinary least squares on the day index, thirty-day projection |
| `SalesPrediction` | SalesPrediction.dfy | the daily series, the forecast page and its chart table |

## Model

| member | source | states |
|---|---|---|
| Loader.DropMissing | app.py:18 | every kept record is complete; each complete record is kept as often as it occurs and no incomplete one is; the kept records are a subsequence of the file in its order |
| Loader.ToRow | app.py:19 | a loaded row's `TotalPrice` is its quantity times its unit price |
| Loader.RowRoundTrip | app.py:18-19 | dropping the derived column from a loaded row gives back the complete record |
| Loader.LoadData | app.py:16-21 | every row is priced, and row i is record i of `dropna` with its derived column (so every copy of every complete record, in file order) |
| TableOps.Filter | app.py:48 | a selection never has more rows than its frame |
| TableOps.FilterSound | app.py:48 | every selected row is a row of the frame that passes the mask |
| TableOps.FilterComplete | app.py:48 | every row of the frame that passes the mask is selected |
| TableOps.FilterOrder | app.py:48 | the selection keeps the frame's order (it is a subsequence) |
| TableOps.FilterCounts | app.py:48 | the selection holds each passing row exactly as often as the frame does, and no other row |
| TableOps.FilterAll | app.py:42-48 | a mask every row passes selects the whole frame |
| TableOps.FilterNone | app.py:124-127 | a mask no row passes selects nothing |
| TableOps.FilterConcat | app.py:257 | selecting from a concatenation selects from each part in turn |
| TableOps.SortBy | app.py:94 | `sort_values` yields a sorted permutation of its input |
| TableOps.Head | app.py:95 | `head(n)` is the first min(n, len) rows |
| TableOps.Tail | app.py:177 | `tail(n)` is the last min(n, len) rows |
| TableOps.HeadTailSubmultiset | app.py:95 | `head` and `tail` take no element more often than the frame holds it |
| TableOps.SubmultisetMembers | app.py:95 | whatever a sub-multiset of a frame holds is an element of that frame |
| TableOps.HeadTailSorted | app.py:145-146 | `head` and `tail` of a sorted frame are sorted |
| TableOps.HeadOfSorted | app.py:94-95 | whatever `head` leaves out of a sorted frame ranks no lower than anything it keeps |
| TableOps.TailOfSorted | app.py:174-177 | whatever `tail` leaves out of a sorted frame ranks no higher than anything it keeps |
| CountryFilter.FilterCountries | app.py:48 | kept rows have a selected country; each row of a selected country is kept as often as it occurs and no other row is; order is preserved; an empty selection gives an empty table |
| CountryFilter.SelectAllIsIdentity | app.py:42-48 | selecting every country present (the default) leaves the table unchanged |
| Grouping.SumBy | app.py:56 | `TotalPrice.sum()`: the column sum over the rows; SumByColumn ties it to the sum of the column as a sequence |
| Grouping.Column | app.py:56 | the column of a frame: one value per row, in row order |
| Grouping.SumByColumn | app.py:56 | the row-by-row column sum equals the sum of the column as a sequence |
| Grouping.SumWhere | app.py:71-72 | one group's total in `groupby().sum()`; SumWhereSelection ties it to the rows of that group |
| Grouping.SumWhereSelection | app.py:71-72 | a group's total is the column sum over the rows a mask on that key selects, so it is the sum of the group's own rows |
| Grouping.DistinctKeys | app.py:92-93 | the group keys, in order of first appearance, never more than the rows; DistinctKeysSpec proves each key listed once and nothing else |
| Grouping.DistinctKeysSpec | app.py:92-93 | the group keys list each key of the rows exactly once and nothing else |
| Grouping.SortedKeys | app.py:71 | the day keys are strictly ascending and are exactly the rows' days |
| Grouping.CountDistinct | app.py:57-58 | `nunique` is the size of the set of keys; it is at most the row count, and 0 exactly for an empty table |
| Grouping.GroupSums | app.py:71-72 | one group per listed key, in that order, whose total is the sum of the rows with that key |
| Grouping.GroupSumsReconcile | app.py:70-74 | over keys that list every row's key once, the group totals add up to the column sum |
| Grouping.DistinctKeysRenamed | app.py:130-134 | re-encoding keys through an invertible map yields the same groups, renamed, in the same order |
| Grouping.SumWherePositive | app.py:124-137 | over positive values, every group that has a row has a positive total |
| Dashboard.DailySales | app.py:70-74 | one group per day with a sale, days strictly ascending, each holding the revenue of its rows, and the days together accounting for all revenue |
| Dashboard.Headlines | app.py:56-58 | revenue equals the sum of the daily trend; the order and customer counts are the numbers of distinct invoices and customers, at most the row count, and 0 only for an empty table |
| ProductAnalytics.ProductTotals | app.py:91-93 | one group per product sold, with the revenue of its rows; the products account for all revenue |
| ProductAnalytics.TopProducts | app.py:91-97 | min(10, products) groups, largest first, each a genuine product total taken no more often than it occurs, no product listed twice, and no product left out above any product shown |
| Ranking.TopDescending | app.py:143-147 | min(n, groups) groups in non-increasing order, a sub-multiset of the input, and every group left out at most every group kept |
| Ranking.TopAscending | app.py:174-177 | min(n, groups) groups in non-decreasing order, a sub-multiset of the input, and every group left out at most every group kept |
| Ranking.DistinctKept | app.py:91-97 | taking groups of a result with distinct keys no more often than they occur keeps the keys distinct |
| CustomerIds.DecimalRoundTrip | app.py:130 | reading back the decimal digits of a customer number gives that number |
| CustomerIds.IdText | app.py:130 | the text of a customer number is digits followed by ".0" |
| CustomerIds.ParseIdText | app.py:130 | not a source operation: the inverse of `astype(str)` on customer numbers, accepting exactly the digits-then-".0" texts, used to prove the text key one-to-one |
| CustomerIds.IdTextRoundTrip | app.py:130 | the text of a customer number reads back as that number |
| CustomerIds.IdTextInjective | app.py:130 | two customer numbers have the same text exactly when they are equal |
| CustomerAnalytics.CustomerView | app.py:124-127 | the view holds each row of positive revenue exactly as often as the table does, no other row, in order |
| CustomerAnalytics.CustomerSpending | app.py:130-137 | one group per customer of the view, each total is that customer's positive revenue, the group count is the number of distinct customer numbers, and the groups account for all revenue of the view |
| CustomerAnalytics.TextKeysCount | app.py:130-134 | grouping by the text of the customer number gives as many groups as there are distinct customer numbers |
| CustomerAnalytics.TopCustomers | app.py:143-147 | min(10, customers) customers, largest spend first, a sub-multiset of the customer totals, and no customer left out above any customer shown |
| CustomerAnalytics.TopFiftySpending | app.py:167-177 | min(50, customers) customers in ascending order of spend, a sub-multiset of the customer totals, and they are the largest: nobody left out spent more than anybody shown |
| CustomerAnalytics.TopCustomersOnce | app.py:143-177 | when the customers have distinct keys, as grouping gives them, neither chart shows a customer twice |
| CustomerAnalytics.SpendingStats | app.py:195-207 | the count is the number of customers; the mean and maximum exist exactly when there is a customer; the mean is the mean of the totals; the maximum is reached and never exceeded; the mean is at most the maximum, and positive when every total is |
| CustomerAnalytics.MeanBelowHighest | app.py:200-207 | the mean spend is at most the highest spend |
| CustomerAnalytics.CustomerPageAsWritten | app.py:116-207 | the page warns exactly when the filtered table is empty; otherwise it shows the two top charts and the metrics of the customer view |
| CustomerAnalytics.AsWrittenShowsNoMetrics | app.py:116-127 | a filtered table holding only a return passes the guard, yet the mean and highest spend are undefined |
| CustomerAnalytics.CustomerPage | app.py:116-207 | guarding on the customer view instead, the page shows the two top charts and the metrics of the customer spending, and whenever it shows them the metrics exist and 0 < mean <= highest |
| Sums.Max | app.py:207 | `max()` of a non-empty column is one of its values and no value exceeds it |
| Sums.Mean | app.py:202 | count times mean is the sum |
| Forecaster.Predict | app.py:234 | `model.predict` at x: slope times x plus intercept |
| Forecaster.Fit | app.py:229-230 | the closed-form least-squares slope and intercept of revenue on the day index 0..k-1, characterised by FitMinimizesSquaredError (no line has a smaller squared error) and FitOfSolution (from two days on, the only solution of the normal equations) |
| Forecaster.SpreadPositive | app.py:224-230 | over two days or more the day indices 0..k-1 have positive spread, so the slope is determined |
| Forecaster.FitSolvesNormalEquations | app.py:229-230 | the fitted line solves the least-squares normal equations of the series |
| Forecaster.FitNormalEquations | app.py:229-230 | the residuals of the fitted line add up to zero and are orthogonal to the day index |
| Forecaster.FitMinimizesSquaredError | app.py:229-230 | no line has a smaller squared error over the series than the fitted one |
| Forecaster.NormalEquationsUnique | app.py:229-230 | over two days or more at most one line solves the normal equations |
| Forecaster.FitOfSolution | app.py:229-230 | over two days or more, a line that solves the normal equations is the fitted line |
| Forecaster.FitSingleDay | app.py:229-230 | with one day the fit is the flat line through it (slope 0) |
| Forecaster.FitExactOnLine | app.py:224-230 | when revenue on days 0..k-1 (k >= 2) is exactly a*i + b, the fit is slope a and intercept b |
| Forecaster.FitPredictsLine | app.py:229-234 | on such a series the fitted model predicts a*x + b at every x |
| Forecaster.Extrapolate | app.py:232-244 | thirty points: the j-th is dated last + j and holds the line's value at index k + j |
| Forecaster.Forecast | app.py:224-244 | fails exactly on an empty series; otherwise thirty predictions, the j-th dated last observed day + j and equal to the fitted line at index k + j |
| Forecaster.ForecastContinuesLine | app.py:224-234 | when daily revenue lies on a line, every prediction continues it: a*(k+j) + b |
| Forecaster.ForecastSingleDay | app.py:224-239 | with a single day the forecast is flat at that day's revenue, dated from that day on |
| Forecaster.ForecastExample | app.py:224-248 | revenue 100, 200, 300 gives a next-day prediction of 400, dated the last observed day |
| SalesPrediction.DailyPoints | app.py:218-227 | one point per day of the daily trend in the same order, dates strictly ascending, and no point exactly for an empty table |
| SalesPrediction.Tagged | app.py:253-255 | every row keeps its date and revenue and gets the given `Type` |
| SalesPrediction.Combine | app.py:251-257 | the actual rows in their order labelled Actual, then the predicted rows in theirs labelled Predicted, nothing re-sorted or merged |
| SalesPrediction.CombineSplits | app.py:251-257 | selecting either label from the chart table gives back exactly that series, in order |
| SalesPrediction.ChartJoin | app.py:236-257 | the first predicted row repeats the date of the last actual row |
| SalesPrediction.CombinedPredictions | app.py:232-257 | the chart row at position i past the actual rows holds the fitted line at index i and is dated i - k days after the last actual date |
| SalesPrediction.Prediction | app.py:224-257 | fails exactly on an empty series; otherwise k + 30 chart rows: the actual ones tagged Actual, then at each position i the fitted line at i tagged Predicted and dated i - k days after the last observed day; the first prediction repeats the last date and is the headline figure |
| SalesPrediction.PredictionPage | app.py:218-257 | fails exactly when no row is selected; otherwise the chart is the daily revenue trend tagged Actual, then thirty rows tagged Predicted, the one at position i being the line fitted to the daily revenue at index i, dated i - k days after the last day with a sale; the headline is the prediction at index k |
| SalesPrediction.DailyRevenue | app.py:226-227 | the revenue the regression is fitted on is the daily trend's totals |

## Left out

- The Streamlit UI is not modelled: page configuration, navigation, the country multiselect widget, metric cards, warnings and the project details page. The country selection is a parameter.
- Plotly chart construction and rendering are not modelled. The models stop at the data each chart is given.
- CSV reading, ISO-8859-1 decoding and `pd.to_datetime` are library I/O and parsing. Raw records arrive already parsed, with `Option` cells, and a timestamp is a day number plus a second of the day.
- `@st.cache_data` is left out. It memoises and does not change behaviour.
- Floating point is modelled as exact `real`. This covers the pandas sums and means, the NaN of a mean or maximum over nothing (modelled as `None`), and sklearn's numerical least-squares solver (modelled in closed form).
- Currency formatting (`f"${...:,.2f}"`) is display only.
- `dropna` also drops records with a missing cell in any column outside the seven that the pipeline uses. Only those seven columns are modelled.
- CustomerIds.IdText: `astype(str)` writes digits then ".0" only for customer numbers below 10^16. Larger floats print in exponent notation, which `IdText` does not model.
- The customer view's `CustomerID.notnull()` test keeps every row. After `dropna` no customer number is missing, and the model's row type says so.
- TableOps.SortBy: pandas' default quicksort is not stable. The model uses a stable insertion sort, so the order among equal totals (ties) is one particular order. The contracts say nothing about it.
- ProductAnalytics.ProductTotals: `groupby` returns groups in sorted key order. The model lists product and customer groups in first-appearance order. Those groups are only ever re-sorted by total, so this too affects only the order among ties. Daily groups are modelled in ascending day order, as `groupby` gives them.
- Forecaster.Forecast: the source has no guard on the series length.
  - An empty series makes the regression raise, which is modelled as `Failure(NoHistory)`.
  - A single day fits sklearn's minimum-norm solution (slope 0, intercept that day's revenue), and the model follows the code there.
  - The properties about exact fits require two days or more.

## Findings

| source | as written | input that shows it | evidently intended | confidence | as-written member | corrected member |
|---|---|---|---|---|---|---|
| app.py:116 | The customer page warns only when the filtered table is empty. Its spending and metrics come from the stricter view of positive-revenue rows (app.py:124-127, 197-207). | A filtered table whose only row is a return: quantity -1, unit price 27.5, so `TotalPrice` is -27.5. | When the customer view is empty, warn instead of showing a customer count of 0 and a NaN mean and highest spend. | not executed | CustomerAnalytics.AsWrittenShowsNoMetrics (on CustomerAnalytics.CustomerPageAsWritten) | CustomerAnalytics.CustomerPage |
