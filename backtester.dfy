/** The backtest of the EMA pattern strategy: the strategy object that the
    backtesting engine calls once per bar, and the summary reduction over
    the trade returns it records. */
module Backtester {
  import opened Wrappers
  import opened Lists
  import opened IntradayScanner

  /** The lines the strategy reads, one value per bar: the closes and the
      engine's fast and slow EMA indicator lines. */
  datatype Feed = Feed(closes: seq<real>, emaFast: seq<real>, emaSlow: seq<real>)

  /** Aligned lines; no close is zero, since a close may become the divisor
      of a trade return. */
  predicate WellFormed(f: Feed)
  {
    && |f.emaFast| == |f.closes|
    && |f.emaSlow| == |f.closes|
    && forall i :: 0 <= i < |f.closes| ==> f.closes[i] != 0.0
  }

  /** The strategy's state: flat (`entryPrice == None`) or holding a
      position bought at `entryPrice`, and the returns of closed trades. */
  datatype Position = Position(entryPrice: Option<real>, trades: seq<real>)

  /** The fractional return of a trade: for a positive entry price it is
      positive exactly when the exit price is above the entry price, and it
      scales back to the price difference. */
  function Return(entry: real, exit: real): (r: real)
    requires entry != 0.0
    ensures r * entry == exit - entry
    ensures entry > 0.0 ==> (r > 0.0 <==> exit > entry)
  {
    var d := exit - entry;
    assert d / entry * entry == d;
    d / entry
  }

  /** The entry condition on the bar reached after `bars` bars: at least
      five bars seen, fast EMA at or above slow EMA on the current bar, and
      the four closes BEFORE the current bar strictly rising. */
  predicate EntrySignal(f: Feed, bars: nat)
    requires WellFormed(f) && 1 <= bars <= |f.closes|
  {
    && bars >= 5
    && f.emaFast[bars - 1] >= f.emaSlow[bars - 1]
    && LastFourRising(f.closes[..bars - 1])
  }

  predicate Holding(s: Position)
  {
    s.entryPrice.Some? ==> s.entryPrice.value != 0.0
  }

  /** What `next` does on the bar reached after `bars` bars. */
  function NextState(f: Feed, bars: nat, s: Position): Position
    requires WellFormed(f) && 1 <= bars <= |f.closes| && Holding(s)
  {
    if s.entryPrice.Some? then
      Position(None, s.trades + [Return(s.entryPrice.value, f.closes[bars - 1])])
    else if EntrySignal(f, bars) then
      Position(Some(f.closes[bars - 1]), s.trades)
    else
      s
  }

  /** The state after the engine has delivered `n` bars, calling `next` on
      every bar from the `minPeriod`-th on (before that the strategy's
      indicators are not ready and nothing happens). */
  function Replay(f: Feed, minPeriod: nat, n: nat): (s: Position)
    requires WellFormed(f) && n <= |f.closes|
    ensures Holding(s)
  {
    if n == 0 then Position(None, [])
    else
      var prev := Replay(f, minPeriod, n - 1);
      if n >= minPeriod then NextState(f, n, prev) else prev
  }

  /** `EMABacktestStrategy`: `bars` is `len(self.data)`, the number of bars
      delivered so far; the current bar is `feed.closes[bars - 1]`. */
  class EmaBacktestStrategy {
    const feed: Feed
    const minPeriod: nat
    var bars: nat
    var entryPrice: Option<real>
    var trades: seq<real>

    ghost predicate Valid()
      reads this
    {
      WellFormed(feed) && bars <= |feed.closes| && Holding(Position(entryPrice, trades))
    }

    function State(): Position
      reads this
    {
      Position(entryPrice, trades)
    }

    constructor (feed: Feed, minPeriod: nat)
      requires WellFormed(feed)
      ensures Valid()
      ensures this.feed == feed && this.minPeriod == minPeriod
      ensures bars == 0 && entryPrice == None && trades == []
    {
      this.feed := feed;
      this.minPeriod := minPeriod;
      bars := 0;
      entryPrice := None;
      trades := [];
    }

    /** `next`: close an open position at the current close and stop there;
        otherwise open one at the current close when the entry signal holds. */
    method Next()
      requires Valid() && 1 <= bars
      modifies this`entryPrice, this`trades
      ensures Valid()
      ensures old(entryPrice).Some? ==>
        && entryPrice == None
        && trades == old(trades) + [Return(old(entryPrice).value, feed.closes[bars - 1])]
      ensures old(entryPrice).None? ==>
        && trades == old(trades)
        && entryPrice == (if EntrySignal(feed, bars) then Some(feed.closes[bars - 1]) else None)
    {
      if entryPrice.Some? {
        var exitPrice := feed.closes[bars - 1];
        trades := trades + [(exitPrice - entryPrice.value) / entryPrice.value];
        entryPrice := None;
        return;
      }
      if bars < 5 {
        return;
      }
      if feed.emaFast[bars - 1] >= feed.emaSlow[bars - 1] {
        var line, n := feed.closes, bars;
        var closes := seq(4, i requires 0 <= i < 4 => line[n - 2 - i]);
        assert line[..n - 1][n - 5..] == [closes[3], closes[2], closes[1], closes[0]];
        if closes[0] > closes[1] > closes[2] > closes[3] {
          entryPrice := Some(feed.closes[bars - 1]);
        }
      }
    }

    /** The engine's run over the whole feed. */
    method Run()
      requires Valid() && bars == 0 && entryPrice == None && trades == []
      modifies this`bars, this`entryPrice, this`trades
      ensures Valid() && bars == |feed.closes|
      ensures State() == Replay(feed, minPeriod, |feed.closes|)
    {
      while bars < |feed.closes|
        invariant Valid()
        invariant State() == Replay(feed, minPeriod, bars)
      {
        bars := bars + 1;
        if bars >= minPeriod {
          Next();
        }
      }
    }
  }

  /** Before the minimum period nothing has happened. */
  lemma {:induction false} ReplayBeforeMinPeriod(f: Feed, minPeriod: nat, n: nat)
    requires WellFormed(f) && n <= |f.closes| && n < minPeriod
    ensures Replay(f, minPeriod, n) == Position(None, [])
  {
    if n > 0 {
      ReplayBeforeMinPeriod(f, minPeriod, n - 1);
    }
  }

  /** At most one position is open, and every trade takes two bars: after
      `n` bars there are at most n / 2 trades. */
  lemma {:induction false} ReplayTradeBound(f: Feed, minPeriod: nat, n: nat)
    requires WellFormed(f) && n <= |f.closes|
    ensures var s := Replay(f, minPeriod, n);
      2 * |s.trades| + (if s.entryPrice.Some? then 1 else 0) <= n
  {
    if n > 0 {
      ReplayTradeBound(f, minPeriod, n - 1);
    }
  }

  /** `trades` only grows: an earlier list is a prefix of a later one. */
  lemma {:induction false} ReplayAppendOnly(f: Feed, minPeriod: nat, m: nat, n: nat)
    requires WellFormed(f) && m <= n <= |f.closes|
    ensures Replay(f, minPeriod, m).trades <= Replay(f, minPeriod, n).trades
  {
    if m < n {
      ReplayAppendOnly(f, minPeriod, m, n - 1);
    }
  }

  /** A position open after `n` bars was opened on bar `n` itself, at its
      close, under the entry signal; it is not among the recorded trades. */
  lemma ReplayOpenPosition(f: Feed, minPeriod: nat, n: nat)
    requires WellFormed(f) && n <= |f.closes|
    requires Replay(f, minPeriod, n).entryPrice.Some?
    ensures n >= 5 && n >= minPeriod && EntrySignal(f, n)
    ensures Replay(f, minPeriod, n).entryPrice.value == f.closes[n - 1]
  {
    if n < minPeriod {
      ReplayBeforeMinPeriod(f, minPeriod, n);
    }
  }

  /** Every recorded trade bought at the close of a signal bar `b` and sold
      at the close of the next bar: `TradeOrigin` finds that bar. */
  lemma {:induction false} TradeOrigin(f: Feed, minPeriod: nat, n: nat, j: nat) returns (b: nat)
    requires WellFormed(f) && n <= |f.closes|
    requires j < |Replay(f, minPeriod, n).trades|
    ensures 5 <= b && minPeriod <= b && b + 1 <= n && EntrySignal(f, b)
    ensures Replay(f, minPeriod, n).trades[j] == Return(f.closes[b - 1], f.closes[b])
  {
    var prev := Replay(f, minPeriod, n - 1);
    var s := Replay(f, minPeriod, n);
    if j < |prev.trades| {
      b := TradeOrigin(f, minPeriod, n - 1, j);
      assert prev.trades <= s.trades;
    } else {
      ReplayOpenPosition(f, minPeriod, n - 1);
      b := n - 1;
    }
  }

  /** `r` is the return of buying at the close of a signal bar `b` (not
      before the minimum period) and selling at the close of the next bar,
      within the first `n` bars. */
  ghost predicate NextBarReturn(f: Feed, minPeriod: nat, n: nat, r: real)
    requires WellFormed(f) && n <= |f.closes|
  {
    exists b: nat :: 5 <= b && minPeriod <= b && b + 1 <= n && EntrySignal(f, b)
                   && r == Return(f.closes[b - 1], f.closes[b])
  }

  lemma ReplayTradesAreNextBarReturns(f: Feed, minPeriod: nat, n: nat)
    requires WellFormed(f) && n <= |f.closes|
    ensures forall j :: 0 <= j < |Replay(f, minPeriod, n).trades| ==>
      NextBarReturn(f, minPeriod, n, Replay(f, minPeriod, n).trades[j])
  {
    forall j | 0 <= j < |Replay(f, minPeriod, n).trades|
      ensures NextBarReturn(f, minPeriod, n, Replay(f, minPeriod, n).trades[j])
    {
      var b := TradeOrigin(f, minPeriod, n, j);
    }
  }

  // ---------------------------------------------------------------------
  // Summary

  /** Number of trades, win rate in percent, average return in percent. */
  datatype Summary = Summary(count: nat, winRate: real, avgReturn: real)

  /** Number of winning trades (a zero return is not a win). */
  function Wins(trades: seq<real>): (w: nat)
    ensures w <= |trades|
  {
    if trades == [] then 0
    else Wins(trades[..|trades| - 1]) + (if trades[|trades| - 1] > 0.0 then 1 else 0)
  }

  lemma {:induction false} WinsAll(trades: seq<real>)
    ensures Wins(trades) == |trades| <==> forall i :: 0 <= i < |trades| ==> trades[i] > 0.0
  {
    if trades != [] {
      var init := trades[..|trades| - 1];
      WinsAll(init);
      assert forall i :: 0 <= i < |init| ==> init[i] == trades[i];
    }
  }

  lemma {:induction false} WinsNone(trades: seq<real>)
    ensures Wins(trades) == 0 <==> forall i :: 0 <= i < |trades| ==> trades[i] <= 0.0
  {
    if trades != [] {
      var init := trades[..|trades| - 1];
      WinsNone(init);
      assert forall i :: 0 <= i < |init| ==> init[i] == trades[i];
    }
  }

  /** The reduction at the end of `backtest_strategy`. */
  function Summarize(trades: seq<real>): (s: Summary)
    ensures s.count == |trades|
    ensures trades == [] ==> s == Summary(0, 0.0, 0.0)
    ensures 0.0 <= s.winRate <= 100.0
  {
    if trades == [] then Summary(0, 0.0, 0.0)
    else
      PercentBounds(Wins(trades) as real, |trades|);
      Summary(|trades|, Percent(Wins(trades) as real, |trades|), Percent(Sum(trades), |trades|))
  }

  /** `part / count * 100`. */
  function Percent(part: real, count: nat): real
    requires count > 0
  {
    part / count as real * 100.0
  }

  /** Scaling back by the count gives 100 times the part. */
  lemma PercentScale(part: real, count: nat)
    requires count > 0
    ensures Percent(part, count) * count as real == 100.0 * part
  {
    var n := count as real;
    assert part / n * n == part;
  }

  /** The percentage is 0 exactly when the part is, 100 exactly when the
      part is the count, positive when the part is, and within [0, 100]
      when the part is within [0, count]. */
  lemma PercentBounds(part: real, count: nat)
    requires count > 0
    ensures Percent(part, count) == 0.0 <==> part == 0.0
    ensures Percent(part, count) == 100.0 <==> part == count as real
    ensures part > 0.0 ==> Percent(part, count) > 0.0
    ensures 0.0 <= part <= count as real ==> 0.0 <= Percent(part, count) <= 100.0
  {
    var n := count as real;
    assert part / n * n == part;
    if 0.0 <= part <= n {
      assert part / n <= 1.0;
    }
  }

  /** The win rate is 100 exactly when there are trades and all of them won,
      and 0 exactly when none won. */
  lemma SummarizeWinRate(trades: seq<real>)
    ensures Summarize(trades).winRate == 100.0 <==>
      trades != [] && forall i :: 0 <= i < |trades| ==> trades[i] > 0.0
    ensures Summarize(trades).winRate == 0.0 <==>
      forall i :: 0 <= i < |trades| ==> trades[i] <= 0.0
  {
    WinsAll(trades);
    WinsNone(trades);
    if trades != [] {
      PercentBounds(Wins(trades) as real, |trades|);
    }
  }

  /** On a non-empty trade list the win rate is the winning trades as a
      percentage of all trades. */
  lemma SummarizeWinRateIsPercent(trades: seq<real>)
    requires trades != []
    ensures Summarize(trades).winRate == Percent(Wins(trades) as real, |trades|)
  {
  }

  /** The win rate is 100 * (number of winning trades) / count. */
  lemma {:induction false} SummarizeWinRateValue(trades: seq<real>)
    requires trades != []
    ensures Summarize(trades).winRate * |trades| as real == 100.0 * Wins(trades) as real
  {
    SummarizeWinRateIsPercent(trades);
    PercentScale(Wins(trades) as real, |trades|);
  }

  /** The average return is 100 * (sum of returns) / count. */
  lemma SummarizeAverage(trades: seq<real>)
    requires trades != []
    ensures Summarize(trades).avgReturn * |trades| as real == 100.0 * Sum(trades)
  {
    assert Summarize(trades).avgReturn == Percent(Sum(trades), |trades|);
    PercentScale(Sum(trades), |trades|);
  }

  /** When every trade won, the average return is positive. */
  lemma SummarizeAverageAllWins(trades: seq<real>)
    requires trades != []
    requires forall i :: 0 <= i < |trades| ==> trades[i] > 0.0
    ensures Summarize(trades).avgReturn > 0.0
  {
    SumPositive(trades);
    assert Summarize(trades).avgReturn == Percent(Sum(trades), |trades|);
    PercentBounds(Sum(trades), |trades|);
  }

  /** `backtest_strategy`: (0, 0.0, 0.0) on a failed download, on fewer
      than 50 rows, or when no trade was recorded; otherwise the summary of
      the recorded trades. */
  function BacktestStrategy(data: Option<Feed>, minPeriod: nat): (r: Summary)
    requires data.Some? ==> WellFormed(data.value)
    ensures data.None? || |data.value.closes| < 50 ==> r == Summary(0, 0.0, 0.0)
    ensures 0.0 <= r.winRate <= 100.0
    ensures data.Some? ==> 2 * r.count <= |data.value.closes|
    ensures data.Some? && |data.value.closes| >= 50 ==>
      r == Summarize(Replay(data.value, minPeriod, |data.value.closes|).trades)
  {
    match data
    case None => Summary(0, 0.0, 0.0)
    case Some(f) =>
      if |f.closes| == 0 || |f.closes| < 50 then Summary(0, 0.0, 0.0)
      else
        var trades := (ReplayTradeBound(f, minPeriod, |f.closes|);
                       Replay(f, minPeriod, |f.closes|).trades);
        if trades == [] then Summary(0, 0.0, 0.0) else Summarize(trades)
  }
}
