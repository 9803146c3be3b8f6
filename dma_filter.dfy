/** The two-stage moving-average filter: an EMA crossover on daily candles,
    read `offset` candles back from the newest, then an EMA crossover plus
    the confirmation pattern on intraday candles. */
module DmaFilter {
  import opened Wrappers
  import opened Lists
  import opened IntradayScanner

  /** `compute_dmas`: the same columns `compute_emas` adds. */
  function ComputeDmas(data: Frame, fast: Span, slow: Span): (df: Frame)
    ensures df == ComputeEmas(data, fast, slow)
  {
    EmaColumnNotClose(fast);
    EmaColumnNotClose(slow);
    var close := data.close;
    Table(close, data.extra[EmaColumn(fast) := Ema(close, fast)][EmaColumn(slow) := Ema(close, slow)])
  }

  /** The daily stage: reject an absent or short download, then reject when
      the fast EMA is at or below the slow one on the row `offset` candles
      before the newest. */
  predicate DailyPass(daily: Option<Frame>, offset: nat, fast: Span, slow: Span)
  {
    match daily
    case None => false
    case Some(raw) =>
      if Rows(raw) == 0 || Rows(raw) < slow + offset then false
      else
        var df := ComputeDmas(raw, fast, slow);
        var row := Rows(df) - (offset + 1);
        !(df.extra[EmaColumn(fast)][row] <= df.extra[EmaColumn(slow)][row])
  }

  /** The frame the intraday pattern is checked on: without its newest
      `lowerOffset` rows (`iloc[:-lowerOffset]`), or the whole frame when
      the offset is 0, since `iloc[:-0]` would be empty. Either way it is
      the first `len - lowerOffset` rows. */
  function PatternSlice(df: Frame, lowerOffset: nat): (r: Frame)
    requires lowerOffset < Rows(df)
    ensures Rows(r) == Rows(df) - lowerOffset
    ensures r.close == df.close[..Rows(df) - lowerOffset]
  {
    if lowerOffset != 0 then Head(df, Rows(df) - lowerOffset) else df
  }

  /** The intraday stage: reject an absent or short download, then require
      the fast EMA at or above the slow one on the row `lowerOffset` candles
      before the newest, and the pattern on the rows up to that one. */
  predicate IntradayStagePass(intra: Option<Frame>, lowerOffset: nat, fast: Span, slow: Span)
  {
    match intra
    case None => false
    case Some(raw) =>
      if Rows(raw) == 0 || Rows(raw) < slow || Rows(raw) <= lowerOffset + 4 then false
      else
        var df := ComputeEmas(raw, fast, slow);
        var subset := PatternSlice(df, lowerOffset);
        var row := Rows(df) - (lowerOffset + 1);
        df.extra[EmaColumn(fast)][row] >= df.extra[EmaColumn(slow)][row] && PatternConfirmed(subset)
  }

  /** The filter's parameters that reach the decision (the intervals and
      periods only shape the downloads). */
  datatype Settings = Settings(offset: nat, fast: Span, slow: Span, lowerOffset: nat)

  predicate Shortlisted(daily: string -> Option<Frame>, intra: string -> Option<Frame>,
                        cfg: Settings, symbol: string)
  {
    && DailyPass(daily(symbol), cfg.offset, cfg.fast, cfg.slow)
    && IntradayStagePass(intra(symbol), cfg.lowerOffset, cfg.fast, cfg.slow)
  }

  /** The daily half of `filter_by_dma`'s loop body. */
  method CheckDaily(d: Option<Frame>, offset: nat, fast: Span, slow: Span) returns (pass: bool)
    ensures pass == DailyPass(d, offset, fast, slow)
  {
    if d.None? {
      return false;
    }
    if Rows(d.value) == 0 || Rows(d.value) < slow + offset {
      return false;
    }
    var df := ComputeDmas(d.value, fast, slow);
    var row := Rows(df) - (offset + 1);
    pass := !(df.extra[EmaColumn(fast)][row] <= df.extra[EmaColumn(slow)][row]);
  }

  /** The intraday half of `filter_by_dma`'s loop body. */
  method CheckIntraday(m: Option<Frame>, lowerOffset: nat, fast: Span, slow: Span) returns (pass: bool)
    ensures pass == IntradayStagePass(m, lowerOffset, fast, slow)
  {
    if m.None? {
      return false;
    }
    if Rows(m.value) == 0 || Rows(m.value) < slow || Rows(m.value) <= lowerOffset + 4 {
      return false;
    }
    var emas := ComputeEmas(m.value, fast, slow);
    var subset := PatternSlice(emas, lowerOffset);
    var last := Rows(emas) - (lowerOffset + 1);
    pass := emas.extra[EmaColumn(fast)][last] >= emas.extra[EmaColumn(slow)][last] && PatternConfirmed(subset);
  }

  /** One pass of `filter_by_dma`'s loop body: each early return is a
      `continue` of the source loop, `keep` the append. */
  method EvaluateSymbol(symbol: string, daily: string -> Option<Frame>,
                        intra: string -> Option<Frame>, cfg: Settings)
    returns (keep: bool)
    ensures keep == Shortlisted(daily, intra, cfg, symbol)
  {
    var dailyOk := CheckDaily(daily(symbol), cfg.offset, cfg.fast, cfg.slow);
    if !dailyOk {
      return false;
    }
    keep := CheckIntraday(intra(symbol), cfg.lowerOffset, cfg.fast, cfg.slow);
  }

  /** `filter_by_dma`: `daily` and `intra` stand for the higher- and
      lower-timeframe downloads (None: the download raised). */
  method FilterByDma(symbols: seq<string>, daily: string -> Option<Frame>,
                     intra: string -> Option<Frame>, cfg: Settings)
    returns (shortlisted: seq<string>)
    ensures shortlisted == Filter(symbols, s => Shortlisted(daily, intra, cfg, s))
  {
    shortlisted := [];
    var i := 0;
    while i < |symbols|
      invariant 0 <= i <= |symbols|
      invariant shortlisted == Filter(symbols[..i], s => Shortlisted(daily, intra, cfg, s))
    {
      var symbol := symbols[i];
      assert symbols[..i + 1][..i] == symbols[..i];
      i := i + 1;
      var keep := EvaluateSymbol(symbol, daily, intra, cfg);
      if keep {
        shortlisted := shortlisted + [symbol];
      }
    }
    assert symbols[..i] == symbols;
  }

  /** The output holds exactly the input symbols that pass both stages, in
      input order; a failed download in either stage drops the symbol. */
  lemma FilterByDmaSelects(symbols: seq<string>, daily: string -> Option<Frame>,
                           intra: string -> Option<Frame>, cfg: Settings, x: string)
    ensures var r := Filter(symbols, s => Shortlisted(daily, intra, cfg, s));
      && (x in r <==> x in symbols && DailyPass(daily(x), cfg.offset, cfg.fast, cfg.slow)
                                   && IntradayStagePass(intra(x), cfg.lowerOffset, cfg.fast, cfg.slow))
      && (daily(x).None? || intra(x).None? ==> x !in r)
      && IsSubsequence(r, symbols)
  {
    FilterMembership(symbols, s => Shortlisted(daily, intra, cfg, s), x);
    FilterIsSubsequence(symbols, s => Shortlisted(daily, intra, cfg, s));
  }

  /** Fewer than `slow + offset` daily rows: rejected before any EMA is read. */
  lemma DailyRejectsShortHistory(df: Frame, offset: nat, fast: Span, slow: Span)
    requires Rows(df) < slow + offset
    ensures !DailyPass(Some(df), offset, fast, slow)
  {
  }

  /** The daily gate passes exactly when the fast EMA is strictly above the
      slow one on row `len - 1 - offset`. */
  lemma DailyPassMeaning(df: Frame, offset: nat, fast: Span, slow: Span)
    ensures DailyPass(Some(df), offset, fast, slow) <==>
      && Rows(df) >= slow + offset
      && Ema(df.close, fast)[Rows(df) - 1 - offset] > Ema(df.close, slow)[Rows(df) - 1 - offset]
  {
  }

  /** The newest `offset` daily candles cannot change the outcome: the gate
      judges the frame as if those candles had never arrived. */
  lemma DailyIgnoresRecentCandles(df: Frame, offset: nat, fast: Span, slow: Span)
    requires offset <= Rows(df)
    ensures DailyPass(Some(df), offset, fast, slow) == DailyPass(Some(Head(df, Rows(df) - offset)), 0, fast, slow)
  {
    var n := Rows(df);
    var m := n - offset;
    if n >= slow + offset {
      EmaPrefix(df.close, fast, m);
      EmaPrefix(df.close, slow, m);
    }
  }

  /** Two daily frames that differ only in their newest `offset` candles
      are judged alike. */
  lemma DailyRecentCandlesIrrelevant(a: Frame, b: Frame, offset: nat, fast: Span, slow: Span)
    requires offset <= Rows(a) && Rows(a) == Rows(b)
    requires a.close[..Rows(a) - offset] == b.close[..Rows(b) - offset]
    ensures DailyPass(Some(a), offset, fast, slow) == DailyPass(Some(b), offset, fast, slow)
  {
    var n := Rows(a);
    DailyPassMeaning(a, offset, fast, slow);
    DailyPassMeaning(b, offset, fast, slow);
    if n >= slow + offset {
      var t := n - 1 - offset;
      assert a.close[..t + 1] == b.close[..t + 1] by {
        assert a.close[..t + 1] == a.close[..n - offset][..t + 1];
        assert b.close[..t + 1] == b.close[..n - offset][..t + 1];
      }
      EmaAtCausal(a.close, b.close, fast, t);
      EmaAtCausal(a.close, b.close, slow, t);
    }
  }

  /** When the intraday guard lets a frame through, the slice handed to the
      pattern check has at least five rows, and the row whose EMAs are
      compared is that slice's last row. */
  lemma IntradaySliceShape(df: Frame, lowerOffset: nat, slow: Span)
    requires !(Rows(df) == 0 || Rows(df) < slow || Rows(df) <= lowerOffset + 4)
    ensures var subset := PatternSlice(df, lowerOffset);
      && Rows(subset) >= 5
      && Rows(subset) - 1 == Rows(df) - (lowerOffset + 1)
      && subset.close == df.close[..Rows(df) - lowerOffset]
  {
  }

  /** Past the guard, the intraday stage compares the EMAs of the whole
      close column at row `len - 1 - lowerOffset` and checks the pattern on
      the closes up to that row. */
  lemma IntradayStageUnfold(df: Frame, lowerOffset: nat, fast: Span, slow: Span)
    requires Rows(df) >= slow && Rows(df) > lowerOffset + 4
    ensures IntradayStagePass(Some(df), lowerOffset, fast, slow) <==>
      && Ema(df.close, fast)[Rows(df) - (lowerOffset + 1)] >= Ema(df.close, slow)[Rows(df) - (lowerOffset + 1)]
      && LastFourRising(df.close[..Rows(df) - lowerOffset])
  {
    var emas := ComputeEmas(df, fast, slow);
    assert PatternSlice(emas, lowerOffset).close == df.close[..Rows(df) - lowerOffset];
  }

  /** The intraday stage passes exactly when, on the closes up to row
      `len - 1 - lowerOffset`, the fast EMA is at or above the slow one
      (ties pass) and the last four of those closes rise. */
  lemma IntradayStageMeaning(df: Frame, lowerOffset: nat, fast: Span, slow: Span)
    ensures IntradayStagePass(Some(df), lowerOffset, fast, slow) <==>
      && Rows(df) >= slow
      && Rows(df) > lowerOffset + 4
      && var c := df.close[..Rows(df) - lowerOffset];
         && Ema(c, fast)[|c| - 1] >= Ema(c, slow)[|c| - 1]
         && LastFourRising(c)
  {
    var n := Rows(df);
    if n >= slow && n > lowerOffset + 4 {
      var m := n - lowerOffset;
      IntradayStageUnfold(df, lowerOffset, fast, slow);
      EmaPrefix(df.close, fast, m);
      EmaPrefix(df.close, slow, m);
    }
  }

  /** Closes 1, 2, ..., 300: the 20-period average ends above the
      50-period one. */
  lemma RisingSeriesFastAboveSlow()
    ensures var df := ComputeDmas(Table(seq(300, i => (i + 1) as real), map[]), 20, 50);
      df.extra[EmaColumn(20)][299] > df.extra[EmaColumn(50)][299]
  {
    var close := seq(300, i => (i + 1) as real);
    assert Rising(close);
    EmaFastAboveSlowOnRising(close, 20, 50, 299);
  }
}
