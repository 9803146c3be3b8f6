# NiftyStocks scanner core in Dafny

This project models the decision logic of NiftyStocks, a scanner for NSE
futures-and-options (F&O) equities, and proves properties of it.

- **Universe.** The symbol list comes from the NSE F&O CSV, or from a
  `--symbols` text that is split on commas.
- **Daily stage.** `filter_by_dma` keeps a symbol whose fast exponential
  moving average (EMA) is above its slow one on the daily candle `offset`
  bars back from the newest.
- **Intraday stage of `filter_by_dma`.** On 15-minute candles, the fast EMA
  must be at or above the slow one, and the last four closes must rise.
- **Intraday scan.** `intraday_scan` applies the same 20/50 EMA and
  rising-close test to the newest 15-minute candle.
- **Backtest.** The backtester runs a similar but separate entry rule on
  daily bars: the engine's fast EMA line at or above its slow one on the
  current bar, and the four closes before the current bar strictly rising.
  It sells on the next bar, then summarises the trades as a count, a win
  rate and an average return.
- **Simulation.** The market simulation backtests a list of symbols. It
  keeps those with a trade and flattens their trades into a log with a
  running PnL (profit and loss) total.
- **Custom strategies.** A strategy can be loaded from a `module:function`
  path. One example strategy keeps only symbols starting with "N".

How the model is put together:

- **Values.** Prices are `real`s. A price table (`Frame`) is a `Close`
  column plus named extra columns of the same length.
- **EMA.** The EMA is pandas' `ewm(span, adjust=False)` recurrence:
  `e[0] = c[0]` and `e[t] = α·c[t] + (1−α)·e[t−1]`, with `α = 2/(span+1)`.
- **Downloads.** Every download (Yahoo Finance, the CSV read, module
  import) is a function parameter. It returns `None` or `Failure` where
  the source catches or raises an exception.
- **Loops.** The loops of `intraday_scan`, `filter_by_dma`,
  `simulate_market` and `cumsum` are methods with loop invariants. Each is
  proved equal to a specification function, and the properties are proved
  about that function.
- **Backtest strategy.** The backtrader strategy is a class whose `Next`
  updates `entryPrice` and `trades` in place. `Run` is proved to reach the
  same state as the functional `Replay`.

## Model

| member | source | states |
|---|---|---|
| IntradayScanner.Alpha | nse_fno_scanner/intraday_scanner.py:28 | the smoothing factor of a span ≥ 1 lies in (0, 1] |
| IntradayScanner.AlphaDecreasing | nse_fno_scanner/intraday_scanner.py:28-29 | a shorter span gives a strictly larger smoothing factor, so the fast EMA reacts more |
| IntradayScanner.Ema | nse_fno_scanner/intraday_scanner.py:28-29 | the EMA column has one value per close; it starts at the first close, and each later value is α·close + (1−α)·previous |
| IntradayScanner.EmaAt | nse_fno_scanner/intraday_scanner.py:28 | the EMA value at one row, seeded by the first close and then α·close + (1−α)·previous; its properties are stated by `Ema`, `EmaAtConstant` and `EmaAtCausal` |
| IntradayScanner.EmaAtConstant | nse_fno_scanner/intraday_scanner.py:28 | on constant closes every EMA value equals that constant |
| IntradayScanner.EmaConstant | nse_fno_scanner/intraday_scanner.py:28-29 | constant closes give a constant EMA column |
| IntradayScanner.EmaAtCausal | nse_fno_scanner/intraday_scanner.py:28 | the EMA at row t depends only on closes 0..t |
| IntradayScanner.EmaPrefix | nse_fno_scanner/intraday_scanner.py:28-29 | the EMA of the first k closes is the first k values of the EMA |
| IntradayScanner.LagStep | nse_fno_scanner/intraday_scanner.py:28 | how far the EMA trails the close evolves by the recurrence (1−α)·(close step + previous lag) |
| IntradayScanner.LagOrder | nse_fno_scanner/intraday_scanner.py:28-29 | on non-decreasing closes the EMA never exceeds the close and the faster EMA trails the close by no more than the slower one; on strictly rising closes it trails strictly less after the first row |
| IntradayScanner.EmaFastNotBelowSlow | nse_fno_scanner/intraday_scanner.py:28-29 | on non-decreasing closes the fast EMA is never below the slow one |
| IntradayScanner.EmaFastAboveSlowOnRising | nse_fno_scanner/intraday_scanner.py:28-29 | on strictly rising closes the fast EMA is strictly above the slow one after the first row |
| IntradayScanner.NatToString | nse_fno_scanner/intraday_scanner.py:28 | `str(n)` is a non-empty string of decimal digits |
| IntradayScanner.Digit | nse_fno_scanner/intraday_scanner.py:28 | a digit below 10 becomes the matching decimal character |
| IntradayScanner.NatToStringInjective | nse_fno_scanner/intraday_scanner.py:28-29 | different numbers print differently |
| IntradayScanner.EmaColumn | nse_fno_scanner/intraday_scanner.py:28-29 | the column name `f"EMA{span}"`; `EmaColumnInjective` and `EmaColumnNotClose` state its properties |
| IntradayScanner.EmaColumnNotClose | nse_fno_scanner/intraday_scanner.py:28-29 | an EMA column never overwrites the `Close` column |
| IntradayScanner.EmaColumnInjective | nse_fno_scanner/intraday_scanner.py:28-29 | the column names `EMA{fast}` and `EMA{slow}` coincide only when the spans do |
| IntradayScanner.Head | nse_fno_scanner/dma_filter.py:107 | `iloc[:n]` keeps the first n rows of every column and the same column names |
| IntradayScanner.ComputeEmas | nse_fno_scanner/intraday_scanner.py:14-30 | the copy keeps `Close` and every other column, adds exactly the two EMA columns, and each holds the EMA of the closes |
| IntradayScanner.LastFourRising | nse_fno_scanner/intraday_scanner.py:37-41 | the last four closes strictly rise, read as the three comparisons of the source |
| IntradayScanner.PatternConfirmed | nse_fno_scanner/intraday_scanner.py:33-41 | `pattern_confirmed`: at least five rows and the last four closes strictly rising; stated by `PatternNeedsFiveRows`, `PatternReadsLastFour` and `PatternExamples` |
| IntradayScanner.PatternNeedsFiveRows | nse_fno_scanner/intraday_scanner.py:33-35 | fewer than five rows never confirm the pattern |
| IntradayScanner.PatternReadsLastFour | nse_fno_scanner/intraday_scanner.py:36-41 | the pattern depends only on the last four closes |
| IntradayScanner.PatternExamples | nse_fno_scanner/intraday_scanner.py:37-41 | a rising tail confirms the pattern and a falling tail does not |
| IntradayScanner.IntradayPass | nse_fno_scanner/intraday_scanner.py:58-66 | whether one symbol's iteration appends it: the download succeeded, there are ≥ 50 rows, EMA20 ≥ EMA50 on the last row and the pattern holds; `IntradayPassMeaning` states it without the frame copy |
| IntradayScanner.IntradayPassMeaning | nse_fno_scanner/intraday_scanner.py:58-66 | a symbol passes iff its download succeeded with ≥ 50 rows, EMA20 ≥ EMA50 on the last row, and the last four closes strictly rise |
| IntradayScanner.IntradayScan | nse_fno_scanner/intraday_scanner.py:44-68 | the loop returns exactly the passing symbols, in input order |
| IntradayScanner.IntradayScanSelects | nse_fno_scanner/intraday_scanner.py:44-68 | membership iff passing, a failed download is never kept, and the output is a subsequence of the input |
| DmaFilter.ComputeDmas | nse_fno_scanner/dma_filter.py:16-22 | `compute_dmas` adds the same columns `compute_emas` does |
| DmaFilter.DailyPass | nse_fno_scanner/dma_filter.py:69-88 | the daily stage for one symbol; stated by `DailyPassMeaning`, `DailyRejectsShortHistory` and `DailyIgnoresRecentCandles` |
| DmaFilter.IntradayStagePass | nse_fno_scanner/dma_filter.py:90-112 | the intraday stage for one symbol; stated by `IntradayStageMeaning` and `IntradaySliceShape` |
| DmaFilter.Shortlisted | nse_fno_scanner/dma_filter.py:68-113 | a symbol is shortlisted when both stages pass; `FilterByDmaSelects` states the loop's result in its terms |
| DmaFilter.CheckDaily | nse_fno_scanner/dma_filter.py:69-88 | the daily half of the loop body keeps a symbol exactly when the daily stage passes |
| DmaFilter.CheckIntraday | nse_fno_scanner/dma_filter.py:90-112 | the intraday half of the loop body keeps a symbol exactly when the intraday stage passes |
| DmaFilter.EvaluateSymbol | nse_fno_scanner/dma_filter.py:68-113 | one iteration appends the symbol exactly when both stages pass, the daily stage being checked first |
| DmaFilter.FilterByDma | nse_fno_scanner/dma_filter.py:25-115 | the loop returns exactly the symbols passing both stages, in input order |
| DmaFilter.FilterByDmaSelects | nse_fno_scanner/dma_filter.py:67-115 | membership iff both stages pass, a failed download in either stage drops the symbol, and the order is kept |
| DmaFilter.DailyRejectsShortHistory | nse_fno_scanner/dma_filter.py:83-84 | fewer than `slow + offset` daily rows are rejected |
| DmaFilter.DailyPassMeaning | nse_fno_scanner/dma_filter.py:83-88 | the daily stage passes iff there are ≥ `slow + offset` rows and the fast EMA is strictly above the slow one on row `len − 1 − offset` |
| DmaFilter.DailyIgnoresRecentCandles | nse_fno_scanner/dma_filter.py:86 | judging with `offset` equals judging the frame without its newest `offset` candles and offset 0 |
| DmaFilter.DailyRecentCandlesIrrelevant | nse_fno_scanner/dma_filter.py:86 | frames that differ only in their newest `offset` candles are judged alike |
| DmaFilter.IntradaySliceShape | nse_fno_scanner/dma_filter.py:104-108 | past the guard, the pattern slice has ≥ 5 rows and ends at the row whose EMAs are compared |
| DmaFilter.PatternSlice | nse_fno_scanner/dma_filter.py:107 | the slice handed to `pattern_confirmed` is the first `len − lower_offset` rows, the whole frame when the offset is 0 |
| DmaFilter.IntradayStageUnfold | nse_fno_scanner/dma_filter.py:104-112 | past the guard, the intraday stage compares the EMAs of the whole close column at row `len − 1 − lower_offset` and checks the pattern on the closes up to that row |
| DmaFilter.IntradayStageMeaning | nse_fno_scanner/dma_filter.py:104-112 | the intraday stage passes iff the length guards hold, the fast EMA is at or above the slow one at row `len − 1 − lower_offset` (ties pass), and the last four closes up to and including that row strictly rise |
| DmaFilter.RisingSeriesFastAboveSlow | nse_fno_scanner/dma_filter.py:16-22 | on closes 1..300 the 20-period EMA ends above the 50-period one |
| Backtester.Return | nse_fno_scanner/backtester.py:33-34 | the return times the entry price is the price difference, and for a positive entry price the return is positive exactly when the exit price is above it |
| Backtester.EntrySignal | nse_fno_scanner/backtester.py:38-42 | the entry rule: ≥ 5 bars, the fast EMA line at or above the slow one on the current bar, and the four closes before it strictly rising |
| Backtester.NextState | nse_fno_scanner/backtester.py:31-43 | what `next` does to the state; `EmaBacktestStrategy.Next` is proved to perform it |
| Backtester.Replay | nse_fno_scanner/backtester.py:31-43 | after any number of bars an open position's entry price is non-zero, so closing it never divides by zero |
| Backtester.EmaBacktestStrategy.constructor | nse_fno_scanner/backtester.py:25-29 | the strategy starts flat with no trades |
| Backtester.EmaBacktestStrategy.Next | nse_fno_scanner/backtester.py:31-43 | an open position is closed at this bar's close and its return appended; otherwise a position opens at this close iff there are ≥ 5 bars, the fast EMA is at or above the slow one, and the previous four closes strictly rise |
| Backtester.EmaBacktestStrategy.Run | nse_fno_scanner/backtester.py:31-43 | calling `next` on every bar from the minimum period on reaches the state `Replay` describes |
| Backtester.ReplayBeforeMinPeriod | nse_fno_scanner/backtester.py:31-43 | no bar before the minimum period trades |
| Backtester.ReplayTradeBound | nse_fno_scanner/backtester.py:31-43 | every trade uses two bars: 2·trades + (open position) ≤ bars |
| Backtester.ReplayAppendOnly | nse_fno_scanner/backtester.py:34 | trades are only appended: an earlier trade list is a prefix of a later one |
| Backtester.ReplayOpenPosition | nse_fno_scanner/backtester.py:38-43 | an open position was entered on the latest bar, at its close, under the entry signal |
| Backtester.TradeOrigin | nse_fno_scanner/backtester.py:31-43 | each recorded trade is the next-bar return of a bar where the entry signal held |
| Backtester.ReplayTradesAreNextBarReturns | nse_fno_scanner/backtester.py:31-43 | every recorded trade is such a one-bar return |
| Backtester.Wins | nse_fno_scanner/backtester.py:95 | the number of winning trades is at most the number of trades |
| Backtester.WinsAll | nse_fno_scanner/backtester.py:95 | every trade wins iff the win count is the trade count |
| Backtester.WinsNone | nse_fno_scanner/backtester.py:95 | no trade wins iff every return is ≤ 0 |
| Backtester.Summarize | nse_fno_scanner/backtester.py:93-97 | the count is the number of trades, no trades gives (0, 0, 0), and the win rate lies in [0, 100] |
| Backtester.PercentScale | nse_fno_scanner/backtester.py:95-96 | multiplying `part / count * 100` back by the count gives 100·part |
| Backtester.PercentBounds | nse_fno_scanner/backtester.py:95-96 | the percentage is 0 iff the part is 0, 100 iff the part is the count, positive for a positive part, and within [0, 100] for a part within [0, count] |
| Backtester.SummarizeWinRate | nse_fno_scanner/backtester.py:93-95 | the win rate is 100 iff there are trades and all won, and 0 iff none won |
| Backtester.SummarizeWinRateIsPercent | nse_fno_scanner/backtester.py:95 | on a non-empty trade list the win rate is `Percent` of the number of wins |
| Backtester.SummarizeWinRateValue | nse_fno_scanner/backtester.py:95 | the win rate times the count is 100 times the number of winning trades |
| Backtester.SummarizeAverage | nse_fno_scanner/backtester.py:96 | the average return times the count is 100 times the sum of returns |
| Backtester.SummarizeAverageAllWins | nse_fno_scanner/backtester.py:96 | when every trade won, the average return is positive |
| Backtester.BacktestStrategy | nse_fno_scanner/backtester.py:46-97 | a failed download or fewer than 50 rows gives (0, 0, 0); otherwise it is the summary of the replayed trades; the win rate lies in [0, 100] and at most half the bars hold a trade |
| Simulator.TradeLog | nse_fno_scanner/simulator.py:40-60 | the log the loop builds; stated by `TradeLogIsShortlistRows` and `TradeLogRows` |
| Simulator.TradeLogIsShortlistRows | nse_fno_scanner/simulator.py:40-60 | the log is the rows of the shortlisted symbols, in shortlist order and trade order within a symbol |
| Simulator.TradeLogRows | nse_fno_scanner/simulator.py:49-60 | every log row belongs to a symbol with trades and copies one of its trades unchanged |
| Simulator.CumulativeSum | nse_fno_scanner/simulator.py:68 | `cum_pnl[i]` is the sum of `pnl[0..i]`, so consecutive differences give back `pnl` |
| Simulator.SimulateMarket | nse_fno_scanner/simulator.py:14-69 | the shortlist is the input symbols with trade count > 0, in order; the log is the flattened trades; `pnl`/`cum_pnl` exist iff the log is non-empty, with `pnl` the per-trade return and `cum_pnl` its running sum |
| Simulator.TwoTradingSymbols | nse_fno_scanner/simulator.py:40-60 | two symbols whose backtests report trades, with a trade log of that length, are both shortlisted in order, and the log is non-empty |
| FetchFnoList.FindColumn | nse_fno_scanner/fetch_fno_list.py:28 | finds a column with the name iff one exists |
| FetchFnoList.ChooseColumn | nse_fno_scanner/fetch_fno_list.py:28-33 | `SYMBOL` when present, else the single column of a one-column table, else `ValueError` |
| FetchFnoList.Present | nse_fno_scanner/fetch_fno_list.py:35 | `dropna` keeps the values of the present cells, in their order and with their multiplicity, and nothing else |
| FetchFnoList.FirstIndex | nse_fno_scanner/fetch_fno_list.py:35 | the position of a value's first occurrence |
| FetchFnoList.Unique | nse_fno_scanner/fetch_fno_list.py:35 | `unique` has no duplicates and the same values as its input |
| FetchFnoList.UniqueFirstOccurrenceOrder | nse_fno_scanner/fetch_fno_list.py:35 | `unique` lists values in order of first appearance |
| FetchFnoList.UniqueOfDistinct | nse_fno_scanner/fetch_fno_list.py:35 | a duplicate-free list is left unchanged |
| FetchFnoList.FetchFnoList | nse_fno_scanner/fetch_fno_list.py:14-36 | a read failure becomes `RuntimeError`, an unusable table `ValueError`; a success is duplicate-free, holds exactly the present values of the chosen column, and lists them in order of first appearance among them |
| FetchFnoList.FetchTwoSymbols | nse_fno_scanner/fetch_fno_list.py:28-36 | a `SYMBOL` column, or a lone column of any name, holding two symbols gives both, in order |
| StrategyLoader.SplitAtFirstColon | nse_fno_scanner/strategy_loader.py:9-11 | no split iff the path has no ':'; otherwise the module part has no ':' and module + ":" + function rebuilds the path |
| StrategyLoader.SplitUnique | nse_fno_scanner/strategy_loader.py:11 | the split is the only colon-free-prefix decomposition of the path |
| StrategyLoader.SplitKeepsLaterColons | nse_fno_scanner/strategy_loader.py:11 | only the first ':' splits; the function part keeps later colons |
| StrategyLoader.SplitEmptyParts | nse_fno_scanner/strategy_loader.py:11 | the module part may be empty |
| StrategyLoader.LoadStrategy | nse_fno_scanner/strategy_loader.py:7-16 | no ':' raises `ValueError`; import and attribute errors pass through; a non-callable attribute raises `TypeError`; a success is the looked-up callable itself |
| StrategyLoader.LoadExample | nse_fno_scanner/strategy_loader.py:11-16 | loading `mymod:my` returns attribute `my` of module `mymod` |
| CustomStrategy.StartsWithN | examples/custom_strategy.py:23 | `s.startswith("N")`: a non-empty string whose first character is `N`; stated by `OnlyNSymbolsCaseSensitive` |
| CustomStrategy.OnlyNSymbols | examples/custom_strategy.py:23 | every returned symbol starts with "N" |
| CustomStrategy.OnlyNSymbolsSelects | examples/custom_strategy.py:23 | each symbol starting with "N" is kept as often as it occurs, others never, in input order |
| CustomStrategy.OnlyNSymbolsIdempotent | examples/custom_strategy.py:23 | applying the strategy twice equals applying it once |
| CustomStrategy.OnlyNSymbolsCaseSensitive | examples/custom_strategy.py:23 | a lower-case "n" does not match; duplicates are kept |
| RunScan.TrimStart | run_scan.py:26 | `lstrip` returns a suffix that starts with non-whitespace; everything dropped is whitespace |
| RunScan.TrimEnd | run_scan.py:26 | `rstrip` returns a prefix that ends with non-whitespace; everything dropped is whitespace |
| RunScan.Strip | run_scan.py:26 | `strip` as `rstrip` after `lstrip`; stated by `StripSlice`, `StripMeaning` and `StripIdempotent` |
| RunScan.StripSlice | run_scan.py:26 | `strip` returns a contiguous run of the text, and everything around it is whitespace |
| RunScan.StripMeaning | run_scan.py:26 | `strip` yields nothing iff the text is all whitespace, and otherwise has no whitespace at either end |
| RunScan.StripIdempotent | run_scan.py:26 | stripping twice equals stripping once |
| RunScan.UpperChar | run_scan.py:26 | upper-casing leaves no lower-case ASCII letter and does not change whether a character is whitespace |
| RunScan.Upper | run_scan.py:26 | `upper` maps a–z to A–Z one position at a time and keeps every other character |
| RunScan.SplitCommas | run_scan.py:26 | `split(",")` gives at least one piece, none containing a comma |
| RunScan.SplitJoin | run_scan.py:26 | joining the pieces with commas gives back the text |
| RunScan.SplitNoComma | run_scan.py:26 | text without a comma is one piece |
| RunScan.SplitAfterComma | run_scan.py:26 | a comma followed by comma-free text adds exactly that piece |
| RunScan.JoinSplit | run_scan.py:26 | splitting a comma-join of comma-free pieces gives the pieces back |
| RunScan.CleanPieces | run_scan.py:26 | the comprehension yields at most one symbol per piece, each non-empty, unpadded and upper-case |
| RunScan.CleanPiecesIsFilterMap | run_scan.py:26 | the comprehension keeps the non-blank pieces in order and strips and upper-cases each |
| RunScan.ParseSymbols | run_scan.py:22-26 | `None` iff the text is missing or empty; otherwise every element is non-empty, unpadded and upper-case, with at most one per comma-separated piece |
| RunScan.ParseSymbolsMeaning | run_scan.py:22-26 | the parse is the comma-split pieces, blank ones dropped, stripped and upper-cased, in order |
| RunScan.SplitOfBlankText | run_scan.py:26 | a text of commas and whitespace splits into all-whitespace pieces |
| RunScan.BlankTextGivesEmptyList | run_scan.py:24-26 | a non-empty text of only commas and whitespace gives the empty list, not `None` |
| RunScan.OrDefault | run_scan.py:96-97 | Python `x or default` on an optional string: an absent or empty value falls back to the default |
| RunScan.FetchUrl | run_scan.py:78 | the URL the F&O list is read from: `fno_url` when set and non-empty, otherwise the default one |
| RunScan.BacktestSettings | run_scan.py:96-97 | the backtest interval and mode; stated by `BacktestSettingsDefaults` |
| RunScan.BacktestSettingsDefaults | run_scan.py:96-97 | an unset or empty backtest interval and mode fall back to the scan's; set ones are kept |
| RunScan.ScanStages | run_scan.py:80-86 | the daily filter when the mode is daily or both, then the intraday scan when it is intraday or both; stated by `ScanStagesIsOneFilter` and `ScanStagesSelects` |
| RunScan.ScanStagesIsOneFilter | run_scan.py:80-86 | the stages in sequence equal one filter by the conjunction of the stages the mode selects; any other mode returns the symbols unchanged |
| RunScan.ScanStagesSelects | run_scan.py:80-86 | a symbol survives iff it was given and passes every stage the mode runs; order is kept |
| RunScan.Run | run_scan.py:76-86 | given symbols are used as they are; otherwise the F&O list is read from `fno_url` or the default URL and its failure is returned; then the daily filter runs iff the mode is daily/both, followed by the intraday scan iff it is intraday/both |

## Left out

- **Network and file I/O.** `yf.download`, `pd.read_csv`, `importlib`,
  `getattr`, `callable`, `Path.write_text`, the Telegram bot, `print`,
  logging and `tqdm` are left out. Each download or lookup is a function
  parameter whose `None`/`Failure` stands for the exception the source
  catches or lets through.
- **Yahoo Finance column flattening.** The MultiIndex flattening after each
  download, and the `DatetimeIndex` fallback in `backtest_strategy`, are
  not modelled. Their only effect is the shape of the download.
- **Floating point.** Prices, EMAs and returns are exact reals, so IEEE
  rounding is not modelled.
- **backtrader internals.** Cerebro, data feeds and backtrader's own EMA
  indicator, which is SMA-seeded, are left out. The strategy receives the
  closes and both EMA lines as given inputs. The bar where `next` first runs
  (backtrader's minimum period) is a parameter. Nothing claims the
  indicator equals the pandas recurrence.
- Backtester.Return: `WellFormed` requires every close of the feed to be
  non-zero, not only a close at which a position is entered. Backtester.Replay
  and Backtester.BacktestStrategy therefore say nothing about a feed with a
  zero close, though the source handles one fine when no position is entered
  there, and the `ZeroDivisionError` of a zero entry close is not modelled.
- IntradayScanner.Alpha: spans are integers ≥ 1 (`Span`), so the
  `ValueError` pandas raises for a span below 1 is not modelled.
- DmaFilter.DailyPass: `offset` and `lower_offset` are natural numbers.
  Negative values, which Python would turn into indexing from the front,
  are not modelled.
- **Python `str` semantics in `_parse_symbols`.**
  - RunScan.UpperChar: only ASCII a–z are upper-cased, one character at a
    time.
  - RunScan.Upper: only ASCII a–z are upper-cased. Python's full Unicode
    case mapping, which can change a string's length, is not modelled.
- **Symbol list read as text.** FetchFnoList.FetchFnoList reads every cell
  as a string or a missing value. The `astype(str)` conversion of
  non-string cells is not modelled.
- **Duplicate CSV headers.** A table with repeated header names, where
  pandas would rename or select several columns, is not modelled.
  FetchFnoList.FindColumn takes the first match.
- **Call sites that do not match their callees.** Each is modelled with the
  callee as written and its extra arguments dropped:
  - `run` passes `interval=` to `intraday_scan`, which accepts no such
    argument;
  - `run` passes `interval=`/`mode=` to `backtest_strategy`;
  - `simulate_market` imports `Trade` and passes
    `days=`/`interval=`/`return_trades=` to `backtest_strategy`.
  The simulation takes each symbol's backtest report, trade log included,
  as an input.
- **`run` reporting.** The backtest report and notification parts of `run`
  are left out: the per-symbol `backtest_strategy` calls, the formatted
  `backtest_results.txt` lines, `predict_index_movement` (a floating-point
  logistic), `compare_with_indices` (built on downloads) and the Telegram
  message. The defaults they use are modelled by
  RunScan.BacktestSettings.
- **Other parts of the repository.** `plot_pnl`, the `schedule_*` loops,
  `argparse` in `main`, `setup.py` and the package `__init__` are left out.
  They are plotting, infinite timed loops, command-line plumbing and
  packaging.
