# back_invest: ledger, holdings and backtest computations

This project models, in Dafny, the computations behind two Streamlit pages of
back_invest, a personal investment tracker.

- **Portfolio page** (`pages/Carteira.py`). A ledger of buy entries
  (`Ativo, Quantidade, Preço, Valor, Data de Compra`) lives in the session.
  - Entries are created, updated and removed. Each entry has an id equal to
    its data-frame index label plus one.
  - The ledger is folded into one holding per asset.
  - The entries in a date window are bucketed by day, month or year and
    summed into an "accumulated invested value" series. That series is
    reindexed onto every period between the first and the last bucket with
    forward fill.
- **Backtest page** (`pages/Backtest.py`). A table of daily closing prices
  is cut to a date window and to the selected tickers.
  - Each ticker with data gets a return line: first and last close, gain on
    the investment, and return in percent.
  - Each ticker also gets a growth curve relative to its earliest close.
  - A per-year variation table joins the years of all selected tickers,
    newest first, with 0 where a ticker has no price in a year.

Modules:
- `Orders`: the strict total orders pandas sorts keys by.
- `Dates`: the Gregorian calendar, its order, the day/month/year period keys
  and `pd.date_range`.
- `Tables`: the data-frame operations used on both pages, on sequences of
  rows: the date mask, `df[df[col] == k]`, `sum` and `groupby`.
- `Portfolio`: the ledger as a class with a `seq` of rows, its three
  operations as methods, and `carregar_carteira`.
- `Growth`: the bucket / `cumsum` / `reindex().ffill()` pipeline, proved
  against a reference definition, "total bought up to a period".
- `Backtest`: row selection, the returns loop (a method), the growth
  curves, and the year tables.

Prices, quantities and values are `real`. They stand for exact rationals, not
floating point.

## Model

| member | source | states |
|---|---|---|
| Portfolio.CheckCreation | pages/Carteira.py:49-51 | creation is accepted exactly when quantity and price are both positive; otherwise it fails with the "must be positive" error |
| Portfolio.CheckChanges | pages/Carteira.py:71-76 | an update is accepted exactly when a supplied price is positive and a supplied quantity is not negative (0 passes); a supplied price that is not positive gives the price error whatever the quantity; otherwise a negative supplied quantity gives the quantity error |
| Portfolio.Renumbered | pages/Carteira.py:64 | `concat(..., ignore_index=True)` gives the entries in order with the default index 0, 1, 2, ... |
| Portfolio.RevisedSpec | pages/Carteira.py:78-94 | an updated row has each supplied column replaced and every other column kept, and its `Valor` is the resulting quantity times price |
| Portfolio.RevisedIdempotent | pages/Carteira.py:78-94 | applying the same update twice equals applying it once |
| Portfolio.RevisedNothing | pages/Carteira.py:78-94 | an update with no arguments leaves a row whose `Valor` is already right unchanged |
| Portfolio.Revised | pages/Carteira.py:78-94 | one row after an update: each supplied column replaced, then `Valor` recomputed; specified by `Portfolio.RevisedSpec` |
| Portfolio.RowOf | pages/Carteira.py:79 | the mask `df['ID'] == id` picks the position of the row with that id, or nothing when no row has it |
| Portfolio.ReviseWhere | pages/Carteira.py:78-94 | the `.loc[df['ID'] == id, ...] = ...` assignments over the whole frame, which keep its length; specified by `Portfolio.ReviseWhereSpec` |
| Portfolio.DropWhere | pages/Carteira.py:99 | `df.loc[df['ID'] != id]`, the rows with another id, labels kept; specified by `Portfolio.DropWhereSpec` and `Portfolio.DropWhereNone` |
| Portfolio.DenseRowOf | pages/Carteira.py:308 | with the default index, id k is the k-th row; ids outside 1..n match no row |
| Portfolio.ReviseWhereSpec | pages/Carteira.py:78-94 | the masked assignments revise exactly the row with that id (its label kept) and leave the frame as it was when no row has it |
| Portfolio.DropWhereNone | pages/Carteira.py:99 | removing an id that no row has keeps the frame as it is |
| Portfolio.DropWhereSpec | pages/Carteira.py:99 | with increasing labels, `loc[df['ID'] != id]` cuts out exactly the one row with that id and keeps every other row in order |
| Portfolio.RemoveFromDense | pages/Carteira.py:98-101 | removing id k from a default-indexed ledger removes exactly the k-th entry; earlier rows keep their ids; later rows keep theirs until the index is rebuilt, and then their ids drop by one |
| Portfolio.Ledger.constructor | pages/Carteira.py:42-43 | a session starts from the stored entries with the default index |
| Portfolio.Ledger.Create | pages/Carteira.py:48-68 | a rejected creation changes nothing; an accepted one appends exactly one entry with `Valor = quantity * price` after the unchanged earlier entries and rebuilds the index; label order and correct `Valor`s are kept |
| Portfolio.Ledger.Update | pages/Carteira.py:70-96 | a rejected update changes nothing; an accepted one revises only the row with that id, if any, and keeps every other row; an unknown id changes nothing; correct `Valor`s are kept |
| Portfolio.Ledger.Remove | pages/Carteira.py:98-101 | the row with that id, if any, is dropped; the others keep their order, labels and correct `Valor`s |
| Portfolio.Holdings | pages/Carteira.py:20-27 | `carregar_carteira`: the entries grouped by asset, with quantity and `Valor` summed and the price averaged; specified by `Portfolio.HoldingsSpec` and `Portfolio.HoldingsOrderIndependent` |
| Portfolio.HoldingsSpec | pages/Carteira.py:20-27 | one holding per distinct asset, in ascending name order; each holds the summed quantity, the summed `Valor` and the unweighted mean price of that asset's entries; an empty ledger gives no holdings |
| Portfolio.HoldingsOrderIndependent | pages/Carteira.py:20-27 | permuting the ledger does not change the holdings |
| Tables.Between | pages/Carteira.py:174-175 | the date mask keeps exactly the rows dated from the start to the end, both included, each as often as it occurs |
| Tables.Filter | pages/Backtest.py:87 | `df[df[col] == k]` keeps only rows of the table with key k, never more rows than the table has |
| Tables.FilterMultiset | pages/Backtest.py:87 | the filter keeps every row with key k as often as it occurs, and no other row |
| Tables.FilterMembers | pages/Backtest.py:87 | a row is in the filter exactly when it is a row of the table with key k |
| Tables.FilterFirst | pages/Backtest.py:90 | the filter keeps row order: its first row is the first row of the table with that key (`iloc[0]` of the ticker's rows) |
| Tables.FilterLast | pages/Backtest.py:92 | the filter's last row is the last row of the table with that key (`iloc[-1]`) |
| Tables.FilterConcat | pages/Backtest.py:165-166 | filtering a concatenation of frames filters each part, in order |
| Tables.FilterAll | pages/Backtest.py:87 | a frame whose every row has key k is its own filter |
| Tables.FilterNone | pages/Backtest.py:87 | a frame with no row of key k filters to nothing |
| Tables.GroupBySpec | pages/Carteira.py:21-25 | `groupby` gives non-empty groups with strictly ascending keys, and the group of each key holds that key's rows in order |
| Tables.GroupsAreFilters | pages/Backtest.py:10-12 | each group is the filter of its key, and a key has a group exactly when some row has it |
| Tables.GroupByPermutation | pages/Carteira.py:21-25 | the groupings of two permutations of the rows have the same keys, and their groups are permutations of each other |
| Tables.SumOfPermutation | pages/Carteira.py:22-23 | a column sum does not depend on the order of the rows |
| Orders.StrLessIsStrictTotalOrder | pages/Carteira.py:21 | code-point string order, which `groupby('Ativo')` sorts by, is a strict total order |
| Orders.IntGreaterIsStrictTotalOrder | pages/Backtest.py:150 | descending year order, as `sort_index(ascending=False)` uses, is a strict total order |
| Dates.PeriodStartContains | pages/Carteira.py:187-193 | a date's month (`to_period('M').start_time`) or year key is a period key no later than the date, and a period key is its own key |
| Dates.NextPeriodIsSuccessor | pages/Carteira.py:198-199 | one `D`/`MS`/`YS` step gives a later period key, and no period key lies strictly between the two |
| Dates.PeriodRangeSpec | pages/Carteira.py:199 | `date_range(lo, hi, freq)` is empty exactly when hi is before lo; otherwise it runs from lo to hi, each key the successor of the one before |
| Dates.PeriodRangeMembers | pages/Carteira.py:199 | the range holds exactly the period keys from lo to hi |
| Growth.Accumulate | pages/Carteira.py:195 | one row per group with the group's key and summed `Valor`; the first running total is the start value plus the first total |
| Growth.AccumulateIsRunningTotal | pages/Carteira.py:195 | over groups sorted by period, the `cumsum` at a group is the sum of all groups up to its period |
| Growth.GroupByUpTo | pages/Carteira.py:182-193 | summing the groups up to a period equals summing the entries whose period is up to it |
| Growth.UpToMonotone | pages/Carteira.py:195 | with no negative `Valor`, the total bought up to a period never decreases with the period |
| Growth.KeysArePeriods | pages/Carteira.py:182-193 | every bucket key is a period key, each bucket holds exactly its period's entries, and there are buckets as soon as there are entries |
| Growth.PeriodTotalsSpec | pages/Carteira.py:182-195 | the bucketed rows are empty exactly when there are no entries; there is one row per period with purchases, ascending, with its summed `Valor` and the total up to it; the first cumulative total is the first period total |
| Growth.PeriodTotals | pages/Carteira.py:182-195 | the entries grouped by period, each group's `Valor` summed, with `cumsum` added; specified by `Growth.PeriodTotalsSpec` |
| Growth.Lookup | pages/Carteira.py:201 | the reindex lookup returns only rows of the requested period |
| Growth.LookupSpec | pages/Carteira.py:201 | the lookup finds nothing exactly when no row has the period, and otherwise the first row that has it |
| Growth.FillForward | pages/Carteira.py:201 | the filled series has one row per axis period, keyed by that period |
| Growth.FillForwardSpec | pages/Carteira.py:201 | a period with a row takes that row; a period without one repeats both columns of the row before it |
| Growth.LookupBought | pages/Carteira.py:201 | a period with purchases has a row, holding their summed `Valor` and the total up to the period |
| Growth.LookupGap | pages/Carteira.py:201 | a period without purchases has no row |
| Growth.FillAxisShape | pages/Carteira.py:198-201 | the filled rows are empty exactly when there are no rows; otherwise they run one step apart from the first row's period to the last row's, starting with the first row |
| Growth.FillAxisCovers | pages/Carteira.py:198-201 | every period with purchases is on the filled axis |
| Growth.FillAxisCumulative | pages/Carteira.py:198-201 | every filled row's cumulative column is the total bought up to its period, gap periods included |
| Growth.FillAxisTotals | pages/Carteira.py:201 | at a period with purchases, the filled row's total is their summed `Valor` |
| Growth.FillAxisGaps | pages/Carteira.py:201 | at a period without purchases, the filled row repeats both columns of the row before |
| Growth.FillAxis | pages/Carteira.py:198-201 | `reindex(pd.date_range(first, last, freq)).ffill()` of the grouped rows; specified by `Growth.FillAxisShape`, `Growth.FillAxisCovers`, `Growth.FillAxisCumulative`, `Growth.FillAxisTotals` and `Growth.FillAxisGaps` |
| Growth.SeriesOf | pages/Carteira.py:182-201 | the chart rows of entries already cut to the window; specified by `Growth.SeriesSpec` and `Growth.SeriesNonDecreasing` |
| Growth.SeriesSpec | pages/Carteira.py:182-201 | the chart is empty exactly when there are no entries; otherwise it is contiguous and increasing, from a period with purchases to another, covers every entry's period, holds the total bought up to each period, holds summed `Valor` at periods with purchases and repeats the row before at gaps, and its first cumulative total is its first period total |
| Growth.SeriesNonDecreasing | pages/Carteira.py:195-201 | with no negative `Valor`, the cumulative column never decreases along the chart |
| Growth.GrowthSeries | pages/Carteira.py:174-201 | the chart for a ledger, a window and a granularity: the window filter followed by `Growth.SeriesOf`; specified by `Growth.GrowthSeriesSpec` |
| Growth.GrowthSeriesSpec | pages/Carteira.py:174-201 | the chart is empty exactly when nothing was bought in the window; otherwise it runs one period at a time, covers the period of every entry in the window, and holds the total bought in the window up to each period |
| Growth.MonthlyGapExample | pages/Carteira.py:186-201 | purchases of 100 in January and 50 in March, charted monthly, give the rows (Jan, 100, 100), (Feb, 100, 100), (Mar, 50, 150) |
| Backtest.VariationSign | pages/Backtest.py:13 | for a positive first price, the variation is positive exactly when the price rose and 0 exactly when it did not move, and applying it to the first price gives the last |
| Backtest.TickersWithData | pages/Backtest.py:50 | a ticker has data exactly when it is selected and some row of the window carries it |
| Backtest.NoData | pages/Backtest.py:51 | `sem_dados`, the symmetric difference of the selection and the tickers with data; specified by `Backtest.NoDataSpec` |
| Backtest.NoDataSpec | pages/Backtest.py:50-51 | the symmetric difference is the selection minus the tickers of the window; it is disjoint from the tickers with data, its union with them is the selection, and a ticker is in it exactly when it is selected and no window row carries it |
| Backtest.WithTickers | pages/Backtest.py:53 | `isin` keeps every row whose ticker is in the set, as often as it occurs, and no other row |
| Backtest.FilterWithTickers | pages/Backtest.py:53 | for a ticker in the set, its rows after `isin` are its rows before, in the same order |
| Backtest.Selection | pages/Backtest.py:49-53 | the working rows are the rows dated from start to end, both included, whose ticker is selected, each as often as in the source frame, and no other row |
| Backtest.SelectionFilter | pages/Backtest.py:49-53 | a selected ticker's working rows (`df_filtered[df_filtered['Ticker'] == t]`, as the returns and year tables read them) are its rows of the date window in frame order; an unselected ticker has none |
| Backtest.SelectionSpec | pages/Backtest.py:53-55 | the working rows are empty exactly when no selected ticker has data, and each ticker with data keeps at least one row |
| Tables.BetweenIsFilter | pages/Backtest.py:49 | the date mask is a filter on the in-window predicate, so it keeps the rows in frame order |
| Tables.FilterFilter | pages/Backtest.py:49-53 | a mask followed by a ticker mask is the mask of their conjunction, rows in frame order |
| Backtest.SelectionIsFilter | pages/Backtest.py:49-53 | a selected ticker's working rows are exactly its rows of the frame inside the window, in frame order |
| Backtest.SelectionEnds | pages/Backtest.py:49-53 | a ticker with data has working rows; the first is its first row of the frame inside the window, the last its last such row |
| Backtest.ResultOfSelection | pages/Backtest.py:87-96 | the returns line of a ticker with data starts at the date and close of its first frame row inside the window, ends at the close of its last such row, and its return is the variation between them |
| Backtest.TickerReturnSpec | pages/Backtest.py:90-96 | a line has the ticker, the date and close of its first row and the close of its last row; the percent return is the price variation, and the gain is that percentage of the investment |
| Backtest.TickerReturn | pages/Backtest.py:90-105 | one line of the returns table from a ticker's rows: first close and date, last close, gain and percent return; specified by `Backtest.TickerReturnSpec` |
| Backtest.ResultOf | pages/Backtest.py:87-105 | the line of one ticker: `Backtest.TickerReturn` over `df[df['Ticker'] == ticker]`, with first and last row as `Tables.FilterFirst` and `Tables.FilterLast` state |
| Backtest.ReturnsTable | pages/Backtest.py:85-105 | the loop yields one line per ticker with data, no ticker twice, each being that ticker's return over its rows |
| Backtest.SortByDateSpec | pages/Backtest.py:17 | `sort_values(by="Datetime")` gives the same rows, each as often, in date order |
| Backtest.SortedUnchanged | pages/Backtest.py:17 | rows already in date order are not moved |
| Backtest.SortByDateEarliest | pages/Backtest.py:17-18 | the first sorted row is a row of the input, no later than any row |
| Backtest.SortByDate | pages/Backtest.py:17 | `sort_values(by="Datetime")` as a stable insertion sort, which keeps the number of rows; specified by `Backtest.SortByDateSpec`, `Backtest.SortedUnchanged` and `Backtest.SortByDateEarliest` |
| Backtest.PercentGrowth | pages/Backtest.py:16-19 | `calcular_variacao_percentual`: the sorted rows, each with its variation from the earliest close; specified by `Backtest.PercentGrowthSpec` |
| Backtest.PercentGrowthSpec | pages/Backtest.py:16-19 | one point per row in sorted order; the first is 0, and each point is the variation of its close against the earliest close, positive exactly where the price is higher |
| Backtest.PercentGrowthExample | pages/Backtest.py:16-19 | closes 10, 12 and 9 on consecutive days give 0, 20 and -10 percent |
| Backtest.GrowthChart | pages/Backtest.py:165-166 | every chart point is a row of a charted ticker |
| Backtest.GrowthChartCovers | pages/Backtest.py:165-166 | every row of a charted ticker is a chart point |
| Backtest.PercentGrowthTicker | pages/Backtest.py:165 | every point of a ticker's growth curve carries that ticker |
| Backtest.GrowthChartPoints | pages/Backtest.py:165-166 | every chart point, with its percentage, is a point of its own ticker's growth curve |
| Backtest.GrowthChartTicker | pages/Backtest.py:165-166 | with each ticker listed once (the page iterates over a set), the chart's points of a ticker are exactly that ticker's growth curve, in date order, so as many as its rows; an unlisted ticker has no points |
| Backtest.YearlyVariationYears | pages/Backtest.py:10-12 | one line per year with rows, each year once, ascending |
| Backtest.YearlyVariationValues | pages/Backtest.py:10-13 | a year's line is the variation from its first close to its last close, in row order; a year with one observation gives 0 |
| Backtest.YearlyVariation | pages/Backtest.py:9-14 | `calcular_variacao_anual`: the rows grouped by year, each year's first-to-last variation; specified by `Backtest.YearlyVariationYears` and `Backtest.YearlyVariationValues` |
| Backtest.CellSpec | pages/Backtest.py:138 | reading a year off a per-year table gives its variation, or 0 (`fillna(0)`) when the table has no line for that year |
| Backtest.YearCell | pages/Backtest.py:134-138 | a ticker's cell for a year is 0 when the ticker has no row that year, and otherwise the variation from its first to its last close of that year |
| Backtest.YearTableYears | pages/Backtest.py:134-150 | the joined table lists, newest first and each once, exactly the years in which some selected ticker has rows |
| Backtest.YearTableCells | pages/Backtest.py:134-138 | every line has one cell per selected ticker, in selection order: the ticker's variation that year, or 0 where it has no row |
| Backtest.YearTable | pages/Backtest.py:134-150 | the joined per-year table: the selected tickers' years, newest first, with one cell per selected ticker; specified by `Backtest.YearTableYears` and `Backtest.YearTableCells` |
| Backtest.YearLines | pages/Backtest.py:134-138 | the lines of the year table for a given list of years, each with `Backtest.Cell` of every selected ticker's `Backtest.YearlyVariation`; specified by `Backtest.YearLinesCells` |
| Backtest.YearLinesCells | pages/Backtest.py:134-138 | every line built for a list of years holds one cell per selected ticker: the ticker's variation that year, or 0 where it has no row |

## Left out

- Reading and writing `data/lancamentos.csv` (`carregar_lancamentos`, `salvar_dados`) and `load_stock_data` are file I/O. The ledger is modelled in memory, and the price table is a parameter.
- The clock is not modelled. The window start computed from `pd.Timestamp.today()` and `DateOffset` (pages/Carteira.py:155-170) is a parameter of `Growth.GrowthSeries`, as is its end date. The "Máximo" option, the earliest entry date, is a parameter like any other.
- Streamlit and Plotly presentation is not modelled: widgets, tabs, messages, charts, tick stepping and pie pull values.
  - This includes the sentence built from `sem_dados` (pages/Backtest.py:58-67). Only the set itself is modelled.
  - It also includes the `+x%` strings and colours (pages/Backtest.py:142-156) and the `strftime` of dates (pages/Backtest.py:91, 149).
- `round(..., 2)` (pages/Backtest.py:103-104, 140) is floating-point rounding of displayed values. The model keeps exact reals.
- The Groq chat assistant (`atualizar_contexto`, `send_message`) calls a foreign API and is not modelled.
- `st.session_state.carteira` is computed once, when the session starts (pages/Carteira.py:45-46), and the page never recomputes it after a ledger change. `Portfolio.Holdings` is the fold the page applies at that moment.
- A zero close is not modelled. The page fails in two ways on one:
  - In the vectorised expressions (pages/Backtest.py:13, 18), pandas divides by it and gives `inf` or `NaN`.
  - In the returns loop, `float(...)` makes `initial_price` a Python float (pages/Backtest.py:90). The division at pages/Backtest.py:95-96 then raises `ZeroDivisionError`, which aborts the page.
- Backtest.ReturnsTable, Backtest.ResultOf, Backtest.PercentGrowth, Backtest.YearlyVariation, Backtest.YearTable and Backtest.GrowthChart require `PositiveCloses`: every close of their rows is positive. The page divides only by first closes: of a ticker's rows, of a year's rows, or of a sorted series. The requirement is therefore stronger than the code needs, but it keeps every division defined.
- Backtest.SortByDate: pandas' default `sort_values` is not guaranteed stable. The model sorts stably, so rows of equal date keep their order. `Backtest.SortByDateSpec` states only what holds for any sort: date order and the same rows.
- Backtest.ReturnsTable: the visiting order of the Python set `tickers` is arbitrary. The model picks an arbitrary element each step and proves each line and the set of lines, not their order.
- Backtest.GrowthChart: for the same reason, the ticker order of the concatenation is a parameter.
- The year-table index is converted to `'%Y'` strings before the descending sort (pages/Backtest.py:149-150). For four-digit years, numeric and text order agree. The model sorts the years as integers.
- Backtest.TickerReturn takes "first" and "last" in frame order (`iloc[0]`, `iloc[-1]`), as the page does, and not the earliest and latest dates.
- Dates are calendar days. The time of day of `Datetime` is not modelled.

Behaviour of the code that the model keeps as written:
- Removing an entry drops its row and keeps the other index labels (pages/Carteira.py:99). The ids shown after a removal therefore have a gap where the removed id was. The gap lasts until the index is next rebuilt: by the next creation (`ignore_index=True`, pages/Carteira.py:64) or by the next load of the ledger. `Portfolio.RemoveFromDense` states both.
- Updating an id that matches no row is not an error (pages/Carteira.py:79-94). Nothing changes, and the update is reported as done. Removing such an id likewise changes nothing.
- On every chart (daily, monthly, yearly), a period without purchases repeats the previous period's per-period `Valor` as well as its cumulative total, because `.ffill()` fills both columns (pages/Carteira.py:201). `Growth.FillAxisGaps` and `Growth.MonthlyGapExample` state this.
