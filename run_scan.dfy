/** The command-line entry point: parsing a `--symbols` list and running the
    daily and intraday stages the chosen mode asks for. */
module RunScan {
  import opened Wrappers
  import opened Lists
  import opened IntradayScanner
  import opened DmaFilter
  import opened FetchFnoList

  // ---------------------------------------------------------------------
  // Python string primitives used by `_parse_symbols`
  // ---------------------------------------------------------------------

  /** The characters for which Python's `str.isspace()` holds; `str.strip()`
      with no argument removes exactly these. */
  predicate IsSpace(c: char)
  {
    || c == ' ' || ('\U{9}' <= c <= '\U{D}') || ('\U{1C}' <= c <= '\U{1F}')
    || c == '\U{85}' || c == '\U{A0}' || c == '\U{1680}'
    || ('\U{2000}' <= c <= '\U{200A}')
    || c == '\U{2028}' || c == '\U{2029}' || c == '\U{202F}' || c == '\U{205F}'
    || c == '\U{3000}'
  }

  /** `s.lstrip()`: the suffix left after dropping leading whitespace. */
  function TrimStart(s: string): (r: string)
    ensures |r| <= |s| && r == s[|s| - |r|..]
    ensures forall i :: 0 <= i < |s| - |r| ==> IsSpace(s[i])
    ensures r == [] || !IsSpace(r[0])
  {
    if s == [] || !IsSpace(s[0]) then s else TrimStart(s[1..])
  }

  /** `s.rstrip()`: the prefix left after dropping trailing whitespace. */
  function TrimEnd(s: string): (r: string)
    ensures |r| <= |s| && r == s[..|r|]
    ensures forall i :: |r| <= i < |s| ==> IsSpace(s[i])
    ensures r == [] || !IsSpace(r[|r| - 1])
  {
    if s == [] || !IsSpace(s[|s| - 1]) then s else TrimEnd(s[..|s| - 1])
  }

  /** `s.strip()`. */
  function Strip(s: string): (r: string)
  {
    TrimEnd(TrimStart(s))
  }

  /** What `strip` keeps is the contiguous run of `s` starting at `k`, and
      whatever it dropped is whitespace. */
  lemma StripSlice(s: string) returns (k: nat)
    ensures k + |Strip(s)| <= |s| && Strip(s) == s[k..k + |Strip(s)|]
    ensures forall i :: 0 <= i < k || k + |Strip(s)| <= i < |s| ==> IsSpace(s[i])
  {
    var t := TrimStart(s);
    k := |s| - |t|;
    var r := TrimEnd(t);
    assert t == s[k..];
    assert r == t[..|r|] == s[k..k + |r|];
    forall i | k + |r| <= i < |s|
      ensures IsSpace(s[i])
    {
      assert s[i] == t[i - k];
    }
  }

  /** `strip` leaves no whitespace at either end, and leaves nothing exactly
      when `s` is all whitespace. */
  lemma StripMeaning(s: string)
    ensures Strip(s) == [] <==> forall i :: 0 <= i < |s| ==> IsSpace(s[i])
    ensures Strip(s) != [] ==> !IsSpace(Strip(s)[0]) && !IsSpace(Strip(s)[|Strip(s)| - 1])
  {
    var k := StripSlice(s);
    var r := Strip(s);
    if r != [] {
      assert s[k] == r[0] && !IsSpace(s[k]);
    }
  }

  /** Stripping twice is stripping once. */
  lemma StripIdempotent(s: string)
    ensures Strip(Strip(s)) == Strip(s)
  {
    var r := Strip(s);
    if r != [] {
      StripMeaning(s);
      assert TrimStart(r) == r;
    }
  }

  predicate IsLowerAscii(c: char)
  {
    'a' <= c <= 'z'
  }

  /** `c.upper()` on ASCII letters; every other character is kept. */
  function UpperChar(c: char): (u: char)
    ensures !IsLowerAscii(u)
    ensures IsSpace(u) <==> IsSpace(c)
  {
    if IsLowerAscii(c) then (c as int - 32) as char else c
  }

  /** `s.upper()`, letter by letter. */
  function Upper(s: string): (r: string)
    ensures |r| == |s|
    ensures forall i :: 0 <= i < |s| ==> !IsLowerAscii(r[i])
    ensures forall i :: 0 <= i < |s| ==> IsSpace(r[i]) == IsSpace(s[i])
    ensures forall i :: 0 <= i < |s| && !IsLowerAscii(s[i]) ==> r[i] == s[i]
    ensures forall i :: 0 <= i < |s| && IsLowerAscii(s[i]) ==> r[i] as int == s[i] as int - 32
  {
    if s == [] then [] else [UpperChar(s[0])] + Upper(s[1..])
  }

  /** `s.split(",")`: the pieces between commas, at least one of them. */
  function SplitCommas(s: string): (r: seq<string>)
    ensures |r| >= 1
    ensures forall i :: 0 <= i < |r| ==> ',' !in r[i]
  {
    if s == [] then [[]]
    else
      var pieces := SplitCommas(s[..|s| - 1]);
      if s[|s| - 1] == ',' then pieces + [[]]
      else pieces[..|pieces| - 1] + [pieces[|pieces| - 1] + [s[|s| - 1]]]
  }

  /** `",".join(pieces)`. */
  function JoinCommas(pieces: seq<string>): string
    requires |pieces| >= 1
  {
    if |pieces| == 1 then pieces[0]
    else JoinCommas(pieces[..|pieces| - 1]) + "," + pieces[|pieces| - 1]
  }

  /** Extending the last piece by a character extends the joined text by
      that character. */
  lemma JoinExtendLast(pieces: seq<string>, c: char)
    requires |pieces| >= 1
    ensures var n := |pieces|;
      JoinCommas(pieces[..n - 1] + [pieces[n - 1] + [c]]) == JoinCommas(pieces) + [c]
  {
    var n := |pieces|;
    var r := pieces[..n - 1] + [pieces[n - 1] + [c]];
    assert r[..n - 1] == pieces[..n - 1];
  }

  /** Splitting loses nothing: joining the pieces with commas gives back the
      text. */
  lemma {:induction false} SplitJoin(s: string)
    ensures JoinCommas(SplitCommas(s)) == s
  {
    if s != [] {
      var init, c := s[..|s| - 1], s[|s| - 1];
      var pieces := SplitCommas(init);
      SplitJoin(init);
      assert s == init + [c];
      if c == ',' {
        var r := pieces + [[]];
        assert r[..|pieces|] == pieces;
        assert JoinCommas(r) == init + "," + [];
      } else {
        JoinExtendLast(pieces, c);
      }
    }
  }

  /** Text without a comma is a single piece. */
  lemma {:induction false} SplitNoComma(t: string)
    requires ',' !in t
    ensures SplitCommas(t) == [t]
  {
    if t != [] {
      SplitNoComma(t[..|t| - 1]);
      assert t[..|t| - 1] + [t[|t| - 1]] == t;
    }
  }

  /** A comma followed by comma-free text starts one more piece. */
  lemma {:induction false} SplitAfterComma(s: string, t: string)
    requires ',' !in t
    ensures SplitCommas(s + "," + t) == SplitCommas(s) + [t]
  {
    var whole := s + "," + t;
    if t == [] {
      assert whole[..|whole| - 1] == s;
    } else {
      var init := t[..|t| - 1];
      SplitAfterComma(s, init);
      assert whole[..|whole| - 1] == s + "," + init;
      assert init + [t[|t| - 1]] == t;
      var pieces := SplitCommas(s) + [init];
      assert pieces[..|pieces| - 1] == SplitCommas(s);
    }
  }

  /** Joining comma-free pieces and splitting again gives the pieces back. */
  lemma {:induction false} JoinSplit(pieces: seq<string>)
    requires |pieces| >= 1
    requires forall i :: 0 <= i < |pieces| ==> ',' !in pieces[i]
    ensures SplitCommas(JoinCommas(pieces)) == pieces
  {
    if |pieces| == 1 {
      SplitNoComma(pieces[0]);
    } else {
      var init := pieces[..|pieces| - 1];
      JoinSplit(init);
      SplitAfterComma(JoinCommas(init), pieces[|pieces| - 1]);
      assert init + [pieces[|pieces| - 1]] == pieces;
    }
  }

  // ---------------------------------------------------------------------
  // `_parse_symbols`
  // ---------------------------------------------------------------------

  /** The comprehension's condition: the piece is not blank once stripped. */
  predicate NonBlank(piece: string)
  {
    Strip(piece) != []
  }

  /** The comprehension's element: the piece stripped and upper-cased. */
  function Normalize(piece: string): string
  {
    Upper(Strip(piece))
  }

  /** A well-formed symbol: non-empty, no surrounding whitespace and no
      lower-case ASCII letter. */
  predicate CleanSymbol(sym: string)
  {
    && sym != []
    && !IsSpace(sym[0]) && !IsSpace(sym[|sym| - 1])
    && forall i :: 0 <= i < |sym| ==> !IsLowerAscii(sym[i])
  }

  /** `[s.strip().upper() for s in pieces if s.strip()]`, one piece at a
      time. */
  function CleanPieces(pieces: seq<string>): (r: seq<string>)
    ensures |r| <= |pieces|
    ensures forall i :: 0 <= i < |r| ==> CleanSymbol(r[i])
  {
    if pieces == [] then []
    else
      var init := CleanPieces(pieces[..|pieces| - 1]);
      var last := pieces[|pieces| - 1];
      if NonBlank(last) then
        init + [Normalize(last)]
      else init
  }

  /** The comprehension keeps the non-blank pieces, in order, and normalises
      each. */
  lemma {:induction false} CleanPiecesIsFilterMap(pieces: seq<string>)
    ensures CleanPieces(pieces) == Map(Filter(pieces, NonBlank), Normalize)
  {
    if pieces != [] {
      var init := pieces[..|pieces| - 1];
      CleanPiecesIsFilterMap(init);
      var f := Filter(init, NonBlank);
      if NonBlank(pieces[|pieces| - 1]) {
        var g := f + [pieces[|pieces| - 1]];
        assert Filter(pieces, NonBlank) == g;
        assert g[..|g| - 1] == f;
      }
    }
  }

  /** `_parse_symbols`: None when the text is missing or empty, otherwise the
      cleaned comma-separated pieces. */
  function ParseSymbols(text: Option<string>): (r: Option<seq<string>>)
    ensures r.None? <==> text.None? || text.value == []
    ensures r.Some? ==> forall i :: 0 <= i < |r.value| ==> CleanSymbol(r.value[i])
    ensures r.Some? ==> |r.value| <= |SplitCommas(text.value)|
  {
    if text.None? || text.value == [] then None
    else Some(CleanPieces(SplitCommas(text.value)))
  }

  /** The parsed list is the comma-split pieces, blank ones dropped, each
      stripped and upper-cased, in order. */
  lemma ParseSymbolsMeaning(text: string)
    requires text != []
    ensures ParseSymbols(Some(text)) == Some(Map(Filter(SplitCommas(text), NonBlank), Normalize))
  {
    CleanPiecesIsFilterMap(SplitCommas(text));
  }

  /** Every piece of a text made of commas and whitespace is blank. */
  lemma {:induction false} SplitOfBlankText(s: string)
    requires forall i :: 0 <= i < |s| ==> s[i] == ',' || IsSpace(s[i])
    ensures forall i :: 0 <= i < |SplitCommas(s)| ==>
      forall j :: 0 <= j < |SplitCommas(s)[i]| ==> IsSpace(SplitCommas(s)[i][j])
  {
    if s != [] {
      SplitOfBlankText(s[..|s| - 1]);
    }
  }

  /** A non-empty text of only commas and whitespace parses to the empty
      list, not to None. */
  lemma BlankTextGivesEmptyList(s: string)
    requires s != []
    requires forall i :: 0 <= i < |s| ==> s[i] == ',' || IsSpace(s[i])
    ensures ParseSymbols(Some(s)) == Some([])
  {
    var pieces := SplitCommas(s);
    SplitOfBlankText(s);
    forall p | p in pieces
      ensures !NonBlank(p)
    {
      StripMeaning(p);
    }
    FilterMembership(pieces, NonBlank, pieces[0]);
    if Filter(pieces, NonBlank) != [] {
      var x := Filter(pieces, NonBlank)[0];
      FilterMembership(pieces, NonBlank, x);
    }
    ParseSymbolsMeaning(s);
  }

  // ---------------------------------------------------------------------
  // `run`: defaults and the stage dispatch
  // ---------------------------------------------------------------------

  /** Python's `x or default` on an optional string: an absent or empty
      value falls back to the default. */
  function OrDefault(x: Option<string>, default: string): (r: string)
    ensures x.Some? && x.value != [] ==> r == x.value
    ensures x.None? || x.value == [] ==> r == default
  {
    match x
    case Some(v) => if v != [] then v else default
    case None => default
  }

  /** The URL the symbol list is read from: `fno_url` when given and
      non-empty, the published list otherwise. */
  function FetchUrl(fnoUrl: Option<string>): string
  {
    OrDefault(fnoUrl, FnoListUrl)
  }

  /** The interval and mode used for the backtests: each falls back to the
      scan's own. */
  function BacktestSettings(btInterval: Option<string>, btMode: Option<string>,
                            interval: string, mode: string): (r: (string, string))
  {
    (OrDefault(btInterval, interval), OrDefault(btMode, mode))
  }

  /** Unset backtest settings take the scan's, set ones are kept. */
  lemma BacktestSettingsDefaults(interval: string, mode: string)
    ensures BacktestSettings(None, None, interval, mode) == (interval, mode)
    ensures BacktestSettings(Some(""), Some(""), interval, mode) == (interval, mode)
    ensures BacktestSettings(Some("1h"), Some("daily"), interval, mode) == ("1h", "daily")
  {
  }

  predicate RunsDaily(mode: string)
  {
    mode == "daily" || mode == "both"
  }

  predicate RunsIntraday(mode: string)
  {
    mode == "intraday" || mode == "both"
  }

  /** The inputs of the two stages: the daily and 15-minute downloads used by
      the DMA filter with its settings, and the download used by the
      intraday scan. */
  datatype Stages = Stages(daily: string -> Option<Frame>, lower: string -> Option<Frame>,
                           cfg: Settings, intraday: string -> Option<Frame>)

  /** What the stages leave of `symbols`: the DMA filter when the mode asks
      for it, then the intraday scan when the mode asks for it. */
  function ScanStages(symbols: seq<string>, mode: string, st: Stages): seq<string>
  {
    var afterDaily :=
      if RunsDaily(mode) then Filter(symbols, s => Shortlisted(st.daily, st.lower, st.cfg, s))
      else symbols;
    if RunsIntraday(mode) then Filter(afterDaily, s => IntradayPass(st.intraday(s)))
    else afterDaily
  }

  /** A symbol survives the chosen mode: it passes each stage the mode runs. */
  predicate Selected(mode: string, st: Stages, s: string)
  {
    && (RunsDaily(mode) ==> Shortlisted(st.daily, st.lower, st.cfg, s))
    && (RunsIntraday(mode) ==> IntradayPass(st.intraday(s)))
  }

  /** Running the stages one after the other is one filter by the
      conjunction of the stages the mode selects; any other mode keeps the
      symbols as they are. */
  lemma ScanStagesIsOneFilter(symbols: seq<string>, mode: string, st: Stages)
    ensures ScanStages(symbols, mode, st) == Filter(symbols, s => Selected(mode, st, s))
    ensures !RunsDaily(mode) && !RunsIntraday(mode) ==> ScanStages(symbols, mode, st) == symbols
  {
    var d := s => Shortlisted(st.daily, st.lower, st.cfg, s);
    var q := s => IntradayPass(st.intraday(s));
    var sel := s => Selected(mode, st, s);
    if RunsDaily(mode) && RunsIntraday(mode) {
      assert ScanStages(symbols, mode, st) == Filter(Filter(symbols, d), q);
      FilterFilter(symbols, d, q, sel);
    } else if RunsDaily(mode) {
      FilterSamePredicate(symbols, d, sel);
    } else if RunsIntraday(mode) {
      FilterSamePredicate(symbols, q, sel);
    } else {
      FilterKeepsAll(symbols, sel);
    }
  }

  /** The surviving symbols are exactly the given ones the mode selects, in
      their original order. */
  lemma ScanStagesSelects(symbols: seq<string>, mode: string, st: Stages, s: string)
    ensures s in ScanStages(symbols, mode, st) <==> s in symbols && Selected(mode, st, s)
    ensures IsSubsequence(ScanStages(symbols, mode, st), symbols)
  {
    ScanStagesIsOneFilter(symbols, mode, st);
    FilterMembership(symbols, s => Selected(mode, st, s), s);
    FilterIsSubsequence(symbols, s => Selected(mode, st, s));
  }

  /** `run` without its printing, files, backtests and notifications: take
      the given symbols, or read the F&O list when none are given, then
      reassign `results` through the stages the mode names. */
  method Run(symbols: Option<seq<string>>, fnoUrl: Option<string>,
             readCsv: string -> Result<seq<Column>, string>, mode: string, st: Stages)
    returns (r: Result<seq<string>, FetchError>)
    ensures symbols.Some? ==> r == Success(ScanStages(symbols.value, mode, st))
    ensures symbols.None? ==>
      var fetched := FetchFnoList.FetchFnoList(readCsv(FetchUrl(fnoUrl)));
      && (fetched.Failure? ==> r == Failure(fetched.error))
      && (fetched.Success? ==> r == Success(ScanStages(fetched.value, mode, st)))
  {
    var given: seq<string>;
    if symbols.None? {
      var fetched := FetchFnoList.FetchFnoList(readCsv(FetchUrl(fnoUrl)));
      if fetched.Failure? {
        return Failure(fetched.error);
      }
      given := fetched.value;
    } else {
      given := symbols.value;
    }
    var results := given;
    if RunsDaily(mode) {
      results := FilterByDma(results, st.daily, st.lower, st.cfg);
    }
    if RunsIntraday(mode) {
      results := IntradayScan(results, st.intraday);
    }
    r := Success(results);
  }
}
