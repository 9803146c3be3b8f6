/** Market simulation: backtest every symbol, shortlist those with at least
    one trade, flatten their trades into one log, and add the per-trade PnL
    and its running total. */
module Simulator {
  import opened Wrappers
  import opened Lists

  /** One trade reported by the backtest. */
  datatype Trade = Trade(date: string, entry: real, exit: real, pctReturn: real)

  /** What the backtest returns for one symbol: the trade count, win rate,
      average return and the trade log. */
  datatype Report = Report(trades: int, winRate: real, avgReturn: real, tradeLog: seq<Trade>)

  /** One row of the simulation's log. */
  datatype LogRow = LogRow(symbol: string, date: string, entry: real, exit: real, pctReturn: real)

  /** The `pnl` and `cum_pnl` columns, added only to a non-empty log. */
  datatype PnlColumns = PnlColumns(pnl: seq<real>, cumPnl: seq<real>)

  function Row(symbol: string, t: Trade): LogRow
  {
    LogRow(symbol, t.date, t.entry, t.exit, t.pctReturn)
  }

  /** The rows a symbol contributes: one per trade, in trade order. */
  function RowsFor(symbol: string, log: seq<Trade>): seq<LogRow>
  {
    seq(|log|, k requires 0 <= k < |log| => Row(symbol, log[k]))
  }

  predicate HasTrades(backtest: string -> Report, symbol: string)
  {
    backtest(symbol).trades > 0
  }

  /** The log the loop builds over `symbols`: for each symbol in order,
      its rows when the backtest reports a trade, nothing otherwise. */
  function TradeLog(symbols: seq<string>, backtest: string -> Report): seq<LogRow>
  {
    if symbols == [] then []
    else
      var last := symbols[|symbols| - 1];
      TradeLog(symbols[..|symbols| - 1], backtest)
        + (if HasTrades(backtest, last) then RowsFor(last, backtest(last).tradeLog) else [])
  }

  /** The rows of every symbol in `symbols`, concatenated in order. */
  function AllRows(symbols: seq<string>, backtest: string -> Report): seq<LogRow>
  {
    if symbols == [] then []
    else
      var last := symbols[|symbols| - 1];
      AllRows(symbols[..|symbols| - 1], backtest) + RowsFor(last, backtest(last).tradeLog)
  }

  /** The log is exactly the rows of the shortlisted symbols, symbol by
      symbol in shortlist order and trade by trade within a symbol. */
  lemma {:induction false} TradeLogIsShortlistRows(symbols: seq<string>, backtest: string -> Report)
    ensures TradeLog(symbols, backtest) == AllRows(Filter(symbols, s => HasTrades(backtest, s)), backtest)
  {
    if symbols != [] {
      var init, last := symbols[..|symbols| - 1], symbols[|symbols| - 1];
      TradeLogIsShortlistRows(init, backtest);
      var f := Filter(init, s => HasTrades(backtest, s));
      if HasTrades(backtest, last) {
        var g := f + [last];
        assert Filter(symbols, s => HasTrades(backtest, s)) == g;
        assert g[..|g| - 1] == f;
      } else {
        assert Filter(symbols, s => HasTrades(backtest, s)) == f;
      }
    }
  }

  /** `row` copies, with its symbol, one trade of `log`. */
  ghost predicate RowOfSomeTrade(row: LogRow, log: seq<Trade>)
  {
    exists k :: 0 <= k < |log| && row == Row(row.symbol, log[k])
  }

  /** Every log row belongs to an input symbol with at least one trade and
      carries one of that symbol's trades unchanged; symbols without trades
      contribute nothing. */
  lemma {:induction false} TradeLogRows(symbols: seq<string>, backtest: string -> Report)
    ensures forall i :: 0 <= i < |TradeLog(symbols, backtest)| ==>
      var row := TradeLog(symbols, backtest)[i];
      && row.symbol in symbols
      && HasTrades(backtest, row.symbol)
      && RowOfSomeTrade(row, backtest(row.symbol).tradeLog)
  {
    if symbols != [] {
      var init, last := symbols[..|symbols| - 1], symbols[|symbols| - 1];
      TradeLogRows(init, backtest);
      var prev := TradeLog(init, backtest);
      var log := TradeLog(symbols, backtest);
      forall i | 0 <= i < |log|
        ensures log[i].symbol in symbols && HasTrades(backtest, log[i].symbol)
        ensures RowOfSomeTrade(log[i], backtest(log[i].symbol).tradeLog)
      {
        if i < |prev| {
          assert log[i] == prev[i];
          assert log[i].symbol in init;
        } else {
          var k := i - |prev|;
          assert log[i] == RowsFor(last, backtest(last).tradeLog)[k];
        }
      }
    }
  }

  /** The running sum of `cum_pnl`: each entry is the sum of the values up to
      and including its own row. */
  method CumulativeSum(xs: seq<real>) returns (cum: seq<real>)
    ensures |cum| == |xs|
    ensures forall i :: 0 <= i < |xs| ==> cum[i] == Sum(xs[..i + 1])
    ensures |xs| > 0 ==> cum[0] == xs[0]
    ensures forall i :: 0 < i < |xs| ==> cum[i] - cum[i - 1] == xs[i]
  {
    cum := [];
    var total := 0.0;
    var i := 0;
    while i < |xs|
      invariant 0 <= i <= |xs|
      invariant |cum| == i
      invariant total == Sum(xs[..i])
      invariant forall j :: 0 <= j < i ==> cum[j] == Sum(xs[..j + 1])
    {
      assert xs[..i + 1][..i] == xs[..i];
      total := total + xs[i];
      cum := cum + [total];
      i := i + 1;
    }
    forall j | 0 < j < |xs| ensures cum[j] - cum[j - 1] == xs[j] {
      assert xs[..j + 1][..j] == xs[..j];
    }
  }

  /** `simulate_market`: `backtest` stands for the per-symbol backtest. */
  method SimulateMarket(symbols: seq<string>, backtest: string -> Report)
    returns (shortlisted: seq<string>, logs: seq<LogRow>, pnl: Option<PnlColumns>)
    ensures shortlisted == Filter(symbols, s => HasTrades(backtest, s))
    ensures logs == TradeLog(symbols, backtest)
    ensures pnl.None? <==> logs == []
    ensures pnl.Some? ==>
      && |pnl.value.pnl| == |logs| && |pnl.value.cumPnl| == |logs|
      && (forall i :: 0 <= i < |logs| ==> pnl.value.pnl[i] == logs[i].pctReturn)
      && (forall i :: 0 <= i < |logs| ==> pnl.value.cumPnl[i] == Sum(pnl.value.pnl[..i + 1]))
  {
    shortlisted := [];
    logs := [];
    var i := 0;
    while i < |symbols|
      invariant 0 <= i <= |symbols|
      invariant shortlisted == Filter(symbols[..i], s => HasTrades(backtest, s))
      invariant logs == TradeLog(symbols[..i], backtest)
    {
      var sym := symbols[i];
      assert symbols[..i + 1][..i] == symbols[..i];
      var report := backtest(sym);
      if report.trades > 0 {
        shortlisted := shortlisted + [sym];
        var tradeLog := report.tradeLog;
        var k := 0;
        while k < |tradeLog|
          invariant 0 <= k <= |tradeLog|
          invariant logs == TradeLog(symbols[..i], backtest) + RowsFor(sym, tradeLog[..k])
        {
          var t := tradeLog[k];
          assert RowsFor(sym, tradeLog[..k + 1]) == RowsFor(sym, tradeLog[..k]) + [Row(sym, t)];
          logs := logs + [LogRow(sym, t.date, t.entry, t.exit, t.pctReturn)];
          k := k + 1;
        }
        assert tradeLog[..k] == tradeLog;
      }
      i := i + 1;
    }
    assert symbols[..i] == symbols;
    if logs == [] {
      pnl := None;
    } else {
      var p := seq(|logs|, j requires 0 <= j < |logs| => logs[j].pctReturn);
      var c := CumulativeSum(p);
      pnl := Some(PnlColumns(p, c));
    }
  }

  /** Two symbols whose backtests both report trades, each with a log of
      that many trades, are both shortlisted in input order, and the
      simulation's log is not empty. */
  lemma TwoTradingSymbols(backtest: string -> Report)
    requires backtest("AAA").trades > 0 && backtest("BBB").trades > 0
    requires |backtest("AAA").tradeLog| == backtest("AAA").trades
    requires |backtest("BBB").tradeLog| == backtest("BBB").trades
    ensures Filter(["AAA", "BBB"], s => HasTrades(backtest, s)) == ["AAA", "BBB"]
    ensures TradeLog(["AAA", "BBB"], backtest) != []
  {
    var symbols := ["AAA", "BBB"];
    assert symbols[..1] == ["AAA"];
    assert ["AAA"][..0] == [];
    assert |TradeLog(["AAA"], backtest)| > 0;
  }
}
