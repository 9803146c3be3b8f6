/** The intraday EMA-crossover scan: exponential moving averages as pandas
    computes them with `ewm(span, adjust=False)`, the four-rising-closes
    confirmation pattern, and the per-symbol scan over downloaded
    15-minute candles. */
module IntradayScanner {
  import opened Wrappers
  import opened Lists

  // ---------------------------------------------------------------------
  // Exponential moving average

  /** An EMA span; pandas refuses spans below 1. */
  type Span = n: int | 1 <= n witness 1

  /** The smoothing factor 2 / (span + 1). */
  function Alpha(span: Span): (a: real)
    ensures 0.0 < a <= 1.0
  {
    2.0 / (span as real + 1.0)
  }

  /** A shorter span reacts faster: its smoothing factor is larger. */
  lemma AlphaDecreasing(fast: Span, slow: Span)
    requires fast < slow
    ensures Alpha(fast) > Alpha(slow)
  {
    var f, s := fast as real + 1.0, slow as real + 1.0;
    var p, q := 2.0 / f, 2.0 / s;
    assert p * f == 2.0 && q * s == 2.0;
    assert q * f < q * s;
    assert (p - q) * f > 0.0;
  }

  /** The EMA at row `t`: seeded by the first close, then
      alpha * close + (1 - alpha) * previous EMA. */
  function EmaAt(close: seq<real>, span: Span, t: nat): real
    requires t < |close|
    decreases t
  {
    if t == 0 then close[0]
    else Alpha(span) * close[t] + (1.0 - Alpha(span)) * EmaAt(close, span, t - 1)
  }

  /** The EMA column for a close column: one value per row. */
  function Ema(close: seq<real>, span: Span): (e: seq<real>)
    ensures |e| == |close|
    ensures |close| > 0 ==> e[0] == close[0]
    ensures forall t :: 0 < t < |close| ==>
      e[t] == Alpha(span) * close[t] + (1.0 - Alpha(span)) * e[t - 1]
  {
    seq(|close|, t requires 0 <= t < |close| => EmaAt(close, span, t))
  }

  /** A constant close series has a constant EMA. */
  lemma {:induction false} EmaAtConstant(close: seq<real>, span: Span, t: nat, c: real)
    requires t < |close|
    requires forall i :: 0 <= i < |close| ==> close[i] == c
    ensures EmaAt(close, span, t) == c
  {
    if t > 0 {
      EmaAtConstant(close, span, t - 1, c);
      var a := Alpha(span);
      assert a * c + (1.0 - a) * c == c;
    }
  }

  lemma EmaConstant(close: seq<real>, span: Span, c: real)
    requires forall i :: 0 <= i < |close| ==> close[i] == c
    ensures forall t :: 0 <= t < |close| ==> Ema(close, span)[t] == c
  {
    forall t | 0 <= t < |close| ensures Ema(close, span)[t] == c {
      EmaAtConstant(close, span, t, c);
    }
  }

  /** Causality: the EMA at row `t` depends only on the closes up to row `t`. */
  lemma {:induction false} EmaAtCausal(c: seq<real>, d: seq<real>, span: Span, t: nat)
    requires t < |c| && t < |d|
    requires c[..t + 1] == d[..t + 1]
    ensures EmaAt(c, span, t) == EmaAt(d, span, t)
  {
    assert c[t] == c[..t + 1][t] == d[..t + 1][t] == d[t];
    if t > 0 {
      assert c[..t] == c[..t + 1][..t] == d[..t + 1][..t] == d[..t];
      EmaAtCausal(c, d, span, t - 1);
    }
  }

  /** Computing the EMA of a prefix gives the prefix of the EMA. */
  lemma EmaPrefix(close: seq<real>, span: Span, k: nat)
    requires k <= |close|
    ensures Ema(close[..k], span) == Ema(close, span)[..k]
  {
    forall t | 0 <= t < k ensures Ema(close[..k], span)[t] == Ema(close, span)[t] {
      assert close[..k][..t + 1] == close[..t + 1];
      EmaAtCausal(close[..k], close, span, t);
    }
  }

  /** Strictly rising closes. */
  predicate Rising(close: seq<real>)
  {
    forall t :: 0 < t < |close| ==> close[t - 1] < close[t]
  }

  /** The lag of the EMA behind the close at row t. */
  function Lag(close: seq<real>, span: Span, t: nat): real
    requires t < |close|
  {
    close[t] - EmaAt(close, span, t)
  }

  /** One step of the lag: (1 - alpha) * (rise of the close + previous lag). */
  lemma LagStep(close: seq<real>, span: Span, t: nat)
    requires 0 < t < |close|
    ensures Lag(close, span, t) ==
      (1.0 - Alpha(span)) * (close[t] - close[t - 1] + Lag(close, span, t - 1))
  {
    var a, e := Alpha(span), EmaAt(close, span, t - 1);
    calc {
      Lag(close, span, t);
      close[t] - (a * close[t] + (1.0 - a) * e);
      (1.0 - a) * (close[t] - e);
      (1.0 - a) * (close[t] - close[t - 1] + (close[t - 1] - e));
    }
  }

  /** Non-decreasing closes. */
  predicate NonDecreasing(close: seq<real>)
  {
    forall t :: 0 < t < |close| ==> close[t - 1] <= close[t]
  }

  /** The arithmetic step of LagOrder: the new lags `nf` and `ns`, from
      the previous lags `pf` <= `ps` and a rise `d` >= 0, keep their order,
      strictly when the rise is positive. */
  lemma ScaledOrder(a: real, b: real, d: real, pf: real, ps: real, nf: real, ns: real)
    requires 0.0 <= a < b && 0.0 <= d && 0.0 <= pf <= ps
    requires nf == a * (d + pf) && ns == b * (d + ps)
    ensures 0.0 <= nf <= ns
    ensures 0.0 < d ==> nf < ns
  {
    var x, y := d + pf, d + ps;
    assert a * (y - x) >= 0.0;
    assert (b - a) * y >= 0.0;
    assert a * x >= 0.0;
    if 0.0 < d {
      assert (b - a) * y > 0.0;
    }
  }

  /** On non-decreasing closes the lag is never negative and the fast EMA
      lags no more than the slow one; on strictly rising closes it lags
      strictly less from the second row on. */
  lemma {:induction false} LagOrder(close: seq<real>, fast: Span, slow: Span, t: nat)
    requires NonDecreasing(close) && fast < slow && t < |close|
    ensures 0.0 <= Lag(close, fast, t) <= Lag(close, slow, t)
    ensures Rising(close) && t > 0 ==> Lag(close, fast, t) < Lag(close, slow, t)
  {
    if t > 0 {
      LagOrder(close, fast, slow, t - 1);
      AlphaDecreasing(fast, slow);
      LagStep(close, fast, t);
      LagStep(close, slow, t);
      ScaledOrder(1.0 - Alpha(fast), 1.0 - Alpha(slow), close[t] - close[t - 1],
                  Lag(close, fast, t - 1), Lag(close, slow, t - 1),
                  Lag(close, fast, t), Lag(close, slow, t));
    }
  }

  /** On non-decreasing closes the fast EMA is never below the slow one. */
  lemma EmaFastNotBelowSlow(close: seq<real>, fast: Span, slow: Span, t: nat)
    requires NonDecreasing(close) && fast < slow && t < |close|
    ensures Ema(close, fast)[t] >= Ema(close, slow)[t]
  {
    LagOrder(close, fast, slow, t);
  }

  /** On strictly rising closes the fast EMA ends strictly above the slow
      one at every row after the first. */
  lemma EmaFastAboveSlowOnRising(close: seq<real>, fast: Span, slow: Span, t: nat)
    requires Rising(close) && fast < slow && 0 < t < |close|
    ensures Ema(close, fast)[t] > Ema(close, slow)[t]
  {
    LagOrder(close, fast, slow, t);
  }

  // ---------------------------------------------------------------------
  // Frames and EMA columns

  /** Decimal spelling of a natural number, as an f-string writes it. */
  function NatToString(n: nat): (s: string)
    ensures |s| >= 1
    ensures forall i :: 0 <= i < |s| ==> '0' <= s[i] <= '9'
  {
    if n < 10 then [Digit(n)] else NatToString(n / 10) + [Digit(n % 10)]
  }

  function Digit(d: nat): (c: char)
    requires d < 10
    ensures '0' <= c <= '9' && c as int - '0' as int == d
  {
    ('0' as int + d) as char
  }

  /** Different numbers are spelled differently. */
  lemma {:induction false} NatToStringInjective(m: nat, n: nat)
    requires NatToString(m) == NatToString(n)
    ensures m == n
  {
    var s := NatToString(m);
    if m >= 10 && n >= 10 {
      assert NatToString(m / 10) == s[..|s| - 1] == NatToString(n / 10);
      NatToStringInjective(m / 10, n / 10);
      assert Digit(m % 10) == s[|s| - 1] == Digit(n % 10);
    } else if m < 10 && n < 10 {
      assert Digit(m) == s[0] == Digit(n);
    }
  }

  /** The column name `f"EMA{span}"`. */
  function EmaColumn(span: Span): string
  {
    "EMA" + NatToString(span)
  }

  /** `EMA{a}` and `EMA{b}` name the same column only when a == b. */
  lemma EmaColumnInjective(a: Span, b: Span)
    ensures EmaColumn(a) == EmaColumn(b) ==> a == b
  {
    if EmaColumn(a) == EmaColumn(b) {
      assert NatToString(a) == EmaColumn(a)[3..] == EmaColumn(b)[3..] == NatToString(b);
      NatToStringInjective(a, b);
    }
  }

  /** An EMA column never shadows the `Close` column. */
  lemma EmaColumnNotClose(span: Span)
    ensures EmaColumn(span) != "Close"
  {
    assert EmaColumn(span)[0] == 'E' != "Close"[0];
  }

  /** A table of candles: the `Close` column and every other column by name. */
  datatype Table = Table(close: seq<real>, extra: map<string, seq<real>>)

  /** Every extra column is as long as `Close`, and `Close` is not
      repeated among them. */
  predicate Rectangular(t: Table)
  {
    && "Close" !in t.extra
    && forall k :: k in t.extra ==> |t.extra[k]| == |t.close|
  }

  /** A data frame: every column has one value per row. */
  type Frame = t: Table | Rectangular(t) witness Table([], map[])

  function Rows(df: Frame): nat
  {
    |df.close|
  }

  /** `df.iloc[:n]`: the first `n` rows of every column. */
  function Head(df: Frame, n: nat): (r: Frame)
    requires n <= Rows(df)
    ensures Rows(r) == n && r.close == df.close[..n]
    ensures r.extra.Keys == df.extra.Keys
  {
    Table(df.close[..n], map k | k in df.extra :: df.extra[k][..n])
  }

  /** `compute_emas`: a copy of `data` with the columns `EMA{fast}` and
      `EMA{slow}` added; the rows and all other columns are untouched. */
  function ComputeEmas(data: Frame, fast: Span, slow: Span): (df: Frame)
    ensures df.close == data.close
    ensures df.extra.Keys == data.extra.Keys + {EmaColumn(fast), EmaColumn(slow)}
    ensures forall k :: k in data.extra && k != EmaColumn(fast) && k != EmaColumn(slow) ==>
      df.extra[k] == data.extra[k]
    ensures df.extra[EmaColumn(fast)] == Ema(data.close, fast)
    ensures df.extra[EmaColumn(slow)] == Ema(data.close, slow)
  {
    EmaColumnInjective(fast, slow);
    EmaColumnNotClose(fast);
    EmaColumnNotClose(slow);
    var close := data.close;
    Table(close, data.extra[EmaColumn(fast) := Ema(close, fast)][EmaColumn(slow) := Ema(close, slow)])
  }

  // ---------------------------------------------------------------------
  // Confirmation pattern

  /** The last four closes strictly rising. */
  predicate LastFourRising(c: seq<real>)
    requires |c| >= 4
  {
    c[|c| - 4] < c[|c| - 3] < c[|c| - 2] < c[|c| - 1]
  }

  /** `pattern_confirmed`: at least five rows and the last four closes
      strictly rising. */
  predicate PatternConfirmed(df: Frame)
  {
    Rows(df) >= 5 && LastFourRising(df.close)
  }

  lemma PatternNeedsFiveRows(df: Frame)
    requires Rows(df) < 5
    ensures !PatternConfirmed(df)
  {
  }

  /** Only the last four closes are read: frames that agree on them and
      both have at least five rows are judged alike. */
  lemma PatternReadsLastFour(a: Frame, b: Frame)
    requires Rows(a) >= 5 && Rows(b) >= 5
    requires a.close[Rows(a) - 4..] == b.close[Rows(b) - 4..]
    ensures PatternConfirmed(a) == PatternConfirmed(b)
  {
    var n, m := Rows(a), Rows(b);
    assert a.close[n - 4] == a.close[n - 4..][0] == b.close[m - 4..][0] == b.close[m - 4];
    assert a.close[n - 3] == a.close[n - 4..][1] == b.close[m - 4..][1] == b.close[m - 3];
    assert a.close[n - 2] == a.close[n - 4..][2] == b.close[m - 4..][2] == b.close[m - 2];
    assert a.close[n - 1] == a.close[n - 4..][3] == b.close[m - 4..][3] == b.close[m - 1];
  }

  lemma PatternExamples()
    ensures PatternConfirmed(Table([100.0, 99.0, 100.0, 101.0, 102.0], map[]))
    ensures !PatternConfirmed(Table([100.0, 101.0, 100.0, 99.0, 98.0], map[]))
  {
  }

  // ---------------------------------------------------------------------
  // The intraday scan

  /** Whether `intraday_scan` keeps a symbol whose 15-minute download gave
      `data` (None: the download raised). */
  predicate IntradayPass(data: Option<Frame>)
  {
    match data
    case None => false
    case Some(raw) =>
      if Rows(raw) == 0 || Rows(raw) < 50 then false
      else
        var df := ComputeEmas(raw, 20, 50);
        var last := Rows(df) - 1;
        df.extra[EmaColumn(20)][last] >= df.extra[EmaColumn(50)][last] && PatternConfirmed(df)
  }

  /** A symbol is kept exactly when its download succeeded with at least 50
      rows, EMA20 is at or above EMA50 on the last row, and the last four
      closes rise. */
  lemma IntradayPassMeaning(data: Option<Frame>)
    ensures IntradayPass(data) <==>
      && data.Some?
      && Rows(data.value) >= 50
      && Ema(data.value.close, 20)[Rows(data.value) - 1] >= Ema(data.value.close, 50)[Rows(data.value) - 1]
      && LastFourRising(data.value.close)
  {
  }

  /** `intraday_scan`: the symbols, in input order, that pass; a failed
      download skips its symbol and the loop carries on. */
  method IntradayScan(symbols: seq<string>, download: string -> Option<Frame>)
    returns (shortlisted: seq<string>)
    ensures shortlisted == Filter(symbols, s => IntradayPass(download(s)))
  {
    shortlisted := [];
    var i := 0;
    while i < |symbols|
      invariant 0 <= i <= |symbols|
      invariant shortlisted == Filter(symbols[..i], s => IntradayPass(download(s)))
    {
      var symbol := symbols[i];
      assert symbols[..i + 1][..i] == symbols[..i];
      var df := download(symbol);
      i := i + 1;
      if df.None? {
        continue;
      }
      var raw := df.value;
      if Rows(raw) == 0 || Rows(raw) < 50 {
        continue;
      }
      var emas := ComputeEmas(raw, 20, 50);
      var last := Rows(emas) - 1;
      if emas.extra[EmaColumn(20)][last] >= emas.extra[EmaColumn(50)][last] && PatternConfirmed(emas) {
        shortlisted := shortlisted + [symbol];
      }
    }
    assert symbols[..i] == symbols;
  }

  /** The scan's output is an order-preserving selection of its input:
      every kept symbol was in the input and passed, every passing input
      symbol is kept, and input order is preserved. */
  lemma IntradayScanSelects(symbols: seq<string>, download: string -> Option<Frame>, x: string)
    ensures var r := Filter(symbols, s => IntradayPass(download(s)));
      && (x in r <==> x in symbols && IntradayPass(download(x)))
      && (download(x).None? ==> x !in r)
      && IsSubsequence(r, symbols)
  {
    FilterMembership(symbols, s => IntradayPass(download(s)), x);
    FilterIsSubsequence(symbols, s => IntradayPass(download(s)));
  }
}
