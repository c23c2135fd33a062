# Stock & ETF portfolio tracker: a Dafny model of its position logic

The application is a desktop portfolio tracker. It has two independent
position-keeping paths, and this project models the logic of both; where
the model departs from the code, the difference is listed under "Left out".

- **The SQLite position ledger** (`FinanceApp/database.py`) keeps one row
  `(ticker, quantity, avg_price)` per ticker.
  - `save_item` merges a purchase into the row by quantity-weighted cost
    averaging.
  - `remove_or_reduce_item` deletes a row, or lowers its quantity and deletes
    it once nothing positive is left.
  - `load_portfolio` lists the rows.

  Module `Ledger` models the table as a `map<string, Position>` inside a
  `Database` class. The SELECT/INSERT/UPDATE/DELETE statements become map
  operations in its methods. Pure functions (`Merged`, `Reduced`) state the
  new table, and lemmas relate them.
- **The dashboard path** (`main.py`):
  - Module `Holdings` covers the in-memory list of holdings: a `Portfolio`
    class and `add_ticker`, which normalises the form input (module `Text`).
    It appends only tickers that are not listed yet.
  - Module `History` covers the fetch of every holding's price history and
    the all-or-nothing stacking of the frames (`fetch_stock_history`,
    `get_portfolio_data`).
  - Module `Grouping` covers the per-ticker and per-date sums.
  - Module `Metrics` covers the dashboard figures: daily change, daily and
    overall return, per-ticker return, and the top and flop performer.
  - Module `Dashboard` covers what `update_dashboard` finally shows, and
    relates the figures back to the holdings. When a fetch fails, the code
    as written leaves the dashboard blank instead of showing the error (see
    "Findings").

The data provider is replaced by a `Market`: a map from a ticker to the daily
closes it would return. A ticker missing from the map returns no rows. Dates
are day numbers, and prices and values are Dafny `real`s.

Some behaviour of the code that a reader might not expect:

- **Composition.** The pie chart sums `TotalValue` over all the days of a
  ticker (main.py:183), not just the value on the last day.
- **Fetching.** It is all or nothing (main.py:312-319). One ticker without
  data aborts the whole report. An empty list of frames is an error of its
  own, though `update_dashboard` never reaches it.
- **Ticker input.** The ledger never sees the holdings entered on the
  portfolio page (`PortfolioPage.add_ticker`): `add_ticker` does no averaging and does not call
  `database.py`.

## Model

| member | source | states |
|---|---|---|
| Ledger.WeightedAverage | FinanceApp/database.py:79-83 | the new average times the new quantity equals the old cost plus the purchase cost |
| Ledger.MergeRow | FinanceApp/database.py:72-87 | absent row becomes `(quantity, price)`; present row gets summed quantity and cost-preserving average; fails exactly when the summed quantity is 0 (division by zero) |
| Ledger.Merged | FinanceApp/database.py:69-87 | `save_item` on the table: fails iff the ticker is held and the new total is 0; otherwise the ticker's row is inserted/updated as above and every other row is unchanged |
| Ledger.Reduced | FinanceApp/database.py:104-118 | no quantity deletes the row; an absent ticker changes nothing; a reduction keeps the row iff `old_qty - q > 0`, then with quantity `old_qty - q` and the same average; other rows unchanged |
| Ledger.ReduceNeverLeavesNonPositive | FinanceApp/database.py:112-118 | a row surviving a reduction has a positive quantity and its old average price |
| Ledger.AverageBetween | FinanceApp/database.py:79-83 | buying a positive quantity moves the average to a value between the old average and the purchase price |
| Ledger.SavePreservesPositive | FinanceApp/database.py:69-87 | buying a positive quantity at a positive price never fails and keeps every row's quantity and average positive |
| Ledger.ReducePreservesPositive | FinanceApp/database.py:104-118 | removing or reducing keeps every row's quantity and average positive |
| Ledger.SaveThenReduceNewTicker | FinanceApp/database.py:72-115 | buying a new ticker and then reducing by the same quantity gives back the original table |
| Ledger.SaveThenReduceHeldTicker | FinanceApp/database.py:79-118 | buying more of a held ticker then reducing by the same quantity restores the quantity but keeps the averaged price |
| Ledger.SaveAllWritesOneRow | FinanceApp/database.py:69-87 | repeated `save_item` calls on one ticker write that ticker's row and leave every other row as it was |
| Ledger.RowAfterKeepsCost | FinanceApp/database.py:79-87 | after any positive purchases the row's quantity is their total and quantity times average equals their total cost |
| Ledger.MergeRowCost | FinanceApp/database.py:79-87 | one purchase adds quantity times price to the cost basis of the row |
| Ledger.AverageFromCost | FinanceApp/database.py:83 | with a positive quantity, the average price is cost basis over quantity |
| Ledger.SaveAllAverages | FinanceApp/database.py:80-83 | for a new ticker and positive purchases, `avg_price = Σ qᵢ·pᵢ / Σ qᵢ` and `quantity = Σ qᵢ`; other rows unchanged |
| Ledger.Database.SaveItem | FinanceApp/database.py:63-96 | the table becomes `Merged` of the old one (unchanged on the division-by-zero error); a new ticker is appended to the scan order |
| Ledger.Database.RemoveOrReduceItem | FinanceApp/database.py:98-118 | the table becomes `Reduced` of the old one; a deleted ticker leaves the scan order, nothing else does |
| Ledger.Database.LoadPortfolio | FinanceApp/database.py:40-56 | one entry per row, the i-th entry for the i-th ticker of the scan order, each with the row's quantity and average; every row listed, each ticker once |
| Text.StripIsSlice | main.py:475-476 | `strip()` keeps one contiguous slice and everything cut on either side is whitespace |
| Text.StripIdempotent | main.py:475-476 | stripping twice is stripping once |
| Text.UpperIdempotent | main.py:475 | upper-casing keeps the length, leaves no lower-case letter, and a second pass changes nothing |
| Text.UpperCommutesWithStrip | main.py:475 | `s.strip().upper() == s.upper().strip()` |
| Text.Strip | main.py:475-476 | `strip()` never lengthens a string and leaves no whitespace at either end |
| Text.Upper | main.py:475 | `upper()` keeps the length, leaves no lower-case letter and keeps every other character |
| Text.IsDigits | main.py:478 | a string `isdigit()` accepts has no surrounding whitespace, so stripping it changes nothing |
| Text.ParseDigits | main.py:479 | the value of n digits, which `int()` returns for n up to 4300, is below 10^n |
| Text.ParseShow | main.py:479 | the decimal digits of any natural number read back as that number (`int()` itself only up to 4300 digits) |
| Text.ParseLeadingZero | main.py:479 | leading zeros do not change the quantity `int()` reads |
| Holdings.NormalTicker | main.py:475 | the normalised ticker is no longer than the entry and has no lower-case letter |
| Holdings.ParseForm | main.py:475-479 | the form is accepted exactly when the stripped, upper-cased ticker is non-empty and the stripped quantity is all digits and at most 4300 long (beyond that `int()` raises); the stored ticker is the normalised one |
| Holdings.Added | main.py:474-482 | the old list is kept as a prefix; the list grows, by exactly one entry, iff the form is accepted and its ticker is not listed yet |
| Holdings.AddedKeepsEntries | main.py:481-482 | `add_ticker` adds at most one entry, never changes or drops an existing entry, and keeps tickers unique |
| Holdings.AddedAppendsNew | main.py:478-482 | an accepted form (quantity of at most 4300 digits) for an unlisted ticker appends exactly that ticker with the parsed quantity |
| Holdings.AddedIgnoresListed | main.py:481 | a ticker already listed (in any case, with any surrounding whitespace) is ignored; no averaging |
| Holdings.AddedIdempotent | main.py:481-482 | submitting the same form twice is the same as submitting it once |
| Holdings.StoredTickerIsNormal | main.py:475 | a stored ticker is already normalised: no surrounding whitespace, no lower-case letter |
| Holdings.Portfolio.Lists | main.py:481 | the scan implementing `any(...)` finds the ticker exactly when some entry has it |
| Holdings.Portfolio.AddTicker | main.py:474-482 | the normalisation, the `int()` limit, the `any(...)` scan and the append leave the list equal to the function `Added`, with tickers unique |
| History.Value | main.py:28 | no shares are worth nothing, one share is worth its close, and a non-negative close and quantity give a non-negative value |
| History.Valued | main.py:26-28 | one row per downloaded day, each tagged with the ticker and valued at its own close times the quantity |
| History.ValuedDays | main.py:26-28 | row i of the frame carries day i's date and close |
| History.FetchStockHistory | main.py:10-29 | fails with "no data" exactly when the provider returns no rows; otherwise one row per day, tagged with the ticker, `TotalValue = Close * quantity` |
| History.GetPortfolioData | main.py:312-319 | the fetch loop returns exactly the function `PortfolioData`: the first failing fetch aborts it |
| History.FetchAll | main.py:314-318 | a completed loop has one frame per holding; a failure is always a no-data error |
| History.Concat | main.py:319 | one frame concatenates to itself; a last frame with rows gives a non-empty table |
| History.PortfolioData | main.py:312-319 | the nothing-to-concatenate error arises exactly for the empty list; any other failure is a no-data error |
| History.FailureSticks | main.py:314-318 | once one holding's fetch has failed, later holdings do not change the outcome |
| History.FetchAllSucceeds | main.py:314-318 | fetching succeeds iff every holding has data, and then yields one frame per holding, in list order |
| History.FetchAllFirstFailure | main.py:314-318 | a failure names the first holding, in list order, whose ticker has no data |
| History.ConcatRows | main.py:319 | concatenation keeps exactly the rows of the frames |
| History.PortfolioDataAllOrNothing | main.py:312-319 | a table comes back iff the list is non-empty and every ticker has data; an empty list is the nothing-to-concatenate error; a table is never empty |
| History.PortfolioRowsValued | main.py:26-28 | every stacked row belongs to a holding and is valued at its close times that holding's quantity; every downloaded day of every holding is in the table |
| Grouping.Composition | main.py:183 | one group per ticker present, in ascending order, each the sum of that ticker's `TotalValue` over all its dates |
| Grouping.DailyTotals | main.py:201 | one group per date present, oldest first, each the sum of `TotalValue` over all tickers on that date |
| Grouping.GroupsPartitionTotal | main.py:183 | grouping by distinct keys that cover every row loses and duplicates nothing: the group sums add up to the table total |
| Grouping.CompositionMatchesSeries | main.py:183-201 | the pie chart's sums and the portfolio series' sums both add up to the table total |
| Metrics.Percent | main.py:206 | the zero-guarded percentage: 0 from a zero start; from a non-zero start, 0 exactly when the value did not move |
| Metrics.PercentReconstructs | main.py:206 | with a non-zero start, the end value is the start times `1 + pct/100` |
| Metrics.PercentSign | main.py:206 | from a positive start the percentage is positive or zero exactly when the value rose or stayed |
| Metrics.PercentScaleFree | main.py:224 | scaling start and end by the same non-zero factor keeps the percentage |
| Metrics.DailyChange | main.py:203-209 | 0 with fewer than two dates; otherwise the previous total plus the change is the last total |
| Metrics.DailyPercent | main.py:203-209 | 0 with fewer than two dates or a zero previous total; otherwise 0 exactly when the last two totals are equal |
| Metrics.OverallReturn | main.py:211-216 | 0 with fewer than two dates or a zero first total; otherwise 0 exactly when the last total equals the first |
| Metrics.DailyChangeMatchesPercent | main.py:203-206 | the daily change is the previous value times the daily percentage; from a positive previous value both have the same sign |
| Metrics.ShortSeriesIsFlat | main.py:207-216 | with fewer than two dates daily change, daily percentage and overall return are all 0 |
| Metrics.TwoDatesOverallIsDaily | main.py:203-216 | over exactly two dates the overall return equals the daily percentage |
| Metrics.OverallReconstructs | main.py:212-214 | with a non-zero first value, the last value is the first times `1 + overall/100` |
| Metrics.RowsOf | main.py:220 | a ticker's group holds exactly the table's rows with that ticker |
| Metrics.RowsOfCounts | main.py:220 | a ticker's group holds each of its rows exactly as often as the table does, and no other row |
| Metrics.Earliest | main.py:221-222 | the start row has the earliest date, and is the first such row among equal dates |
| Metrics.Latest | main.py:221-223 | the end row has the latest date, and is the last such row among equal dates |
| Metrics.Tickers | main.py:220 | the groupby's tickers: each ticker of the table once, ascending |
| Metrics.TickerReturn | main.py:221-224 | 0 when the earliest value is 0; otherwise 0 exactly when the latest value equals the earliest |
| Metrics.Performance | main.py:219-225 | one entry per groupby ticker, in the groupby's ascending ticker order |
| Metrics.PerformanceTable | main.py:219-225 | the loop filling `perf_dict` yields the function `Performance`: every ticker in ascending order with its zero-guarded start-to-end return |
| Metrics.PerformanceCoversTickers | main.py:219-225 | `perf_dict` has exactly the table's tickers, each once, ascending |
| Metrics.ArgMax | main.py:228 | the top entry's percentage is at least every entry's, and no earlier entry reaches it |
| Metrics.ArgMin | main.py:229 | the flop entry's percentage is at most every entry's, and no earlier entry is as low |
| Metrics.TopFlop | main.py:227-233 | an empty `perf_dict` gives `("n/a", 0, "n/a", 0)`; otherwise top ≥ every pct ≥ flop, both are entries, and ties go to the first ticker |
| Metrics.DisplayCharts | main.py:174-233 | a report exists exactly when the table is non-empty |
| Dashboard.UpdateDashboard | main.py:153-172 | as written: an empty list shows the empty message; charts show exactly when every ticker has data; otherwise the dashboard stays blank and no error is ever shown |
| Dashboard.UpdateDashboardIntended | main.py:153-172 | as intended: the same, except that a failed load shows the error, which names the first holding without data |
| Dashboard.BlankInsteadOfError | main.py:171-172 | the two differ exactly where the intended version shows an error: there the version as written is blank |
| Dashboard.MissingTickerLeavesBlank | main.py:171-172 | one holding whose ticker has no data: blank as written, the no-data error as intended |
| Dashboard.ChartsShowLoadedTable | main.py:167-172 | a shown report is `display_charts` of the loaded table |
| Dashboard.RowsOfSplits | main.py:220 | grouping keeps table order: the group of a concatenation is the concatenation of the groups |
| Dashboard.GroupOfFetched | main.py:183-220 | with unique tickers, a holding's group in the stacked table is exactly its own valued frame |
| Dashboard.FrameReturn | main.py:221-224 | a frame's return compares closes only: the quantity cancels unless it is zero |
| Dashboard.PerformanceIsPriceReturn | main.py:219-225 | with unique tickers, a holding's group is its own frame, and its entry in `perf_dict` is the price return of its own history, whatever non-zero quantity is held; quantity 0 ranks at 0 |
| Dashboard.SumForIsGroupTotal | main.py:183 | a ticker's composition sum is the total of that ticker's group |
| Dashboard.CompositionOfHolding | main.py:183 | with unique tickers, a holding's composition sum is the total of its own frame over all its days |

## Left out

- Widgets, layout, navigation and label formatting (`App`, `create_sidebar`, `update_portfolio`, `MarketPage`, the `:.2f` labels): user interface only.
- Matplotlib figures and canvases: rendering only.
- The thread pool, the `after(0, …)` callbacks, `stop_threads` and `on_close`: scheduling only; the dashboard is modelled as one sequential computation.
- The network download, `tz_localize` and the fixed period of one month: the provider's answer is the `Market` input.
- sqlite3 connections, commits, `init_db`, logging and persistence across runs: the table is an in-memory map; the scan order of `SELECT` is modelled as insertion order.
- sqlite3 errors, which the source logs and re-raises: not modelled, since they come from the database engine.
- IEEE floating point, rounding and NaN: prices and values are exact reals; nothing is claimed about float equality.
- Holdings.ParseForm: the 4300-digit limit of `int()` is CPython's default (3.11 and later, and the 2022 security releases of 3.7-3.10); a limit changed through `sys.set_int_max_str_digits` or `PYTHONINTMAXSTRDIGITS`, and older interpreters without a limit, are not modelled.
- Text.IsDigits: accepts ASCII digits only, where Python's `isdigit()` also accepts other Unicode digits.
- Text.Upper: upper-cases ASCII letters only, where Python's `upper()` also maps other letters (some into several characters).
- Metrics.Earliest, Metrics.Latest: pandas' default sort is not stable. The model picks the first and the last of equal dates. Under unique tickers and one row per day, no ticker has equal dates.
- Ledger.Database.SaveItem, Ledger.Database.RemoveOrReduceItem: quantities are unbounded integers. The `quantity INTEGER` column (FinanceApp/database.py:28) holds 64-bit integers; binding a quantity outside [-2^63, 2^63) in the INSERT or UPDATE (FinanceApp/database.py:74-75, 86-87, 117) raises `OverflowError`, which the `sqlite3.Error` handler does not catch, and nothing is committed. That failure is not modelled.
- Dashboard.UpdateDashboard: the empty-portfolio check reads the list when the dashboard is refreshed. A list changing while the fetch runs in the background is not modelled.

## Findings

| source | as written | input that shows it | evidently intended | confidence | as-written member | corrected member |
|---|---|---|---|---|---|---|
| main.py:171-172 | the error handler defers `lambda: self.show_error(e)`; Python 3 unbinds `e` when the `except` block ends, so the deferred call raises `NameError`, `show_error` never runs, and the grid cleared at main.py:154-155 stays blank | a portfolio holding one ticker for which the provider returns no rows (`[Holding("XYZ", 1)]`, empty market) | the error label names the ticker without data | not executed | Dashboard.UpdateDashboard (with Dashboard.MissingTickerLeavesBlank) | Dashboard.UpdateDashboardIntended (with Dashboard.BlankInsteadOfError) |
