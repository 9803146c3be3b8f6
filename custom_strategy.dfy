/** The example user strategy: keep the symbols that start with "N". */
module CustomStrategy {
  import opened Lists

  /** `s.startswith("N")`, case-sensitive. */
  predicate StartsWithN(s: string)
  {
    |s| > 0 && s[0] == 'N'
  }

  /** `only_n_symbols`. */
  function OnlyNSymbols(symbols: seq<string>): (r: seq<string>)
    ensures forall s :: s in r ==> StartsWithN(s)
  {
    Filter(symbols, StartsWithN)
  }

  /** Every symbol starting with "N" survives with all its occurrences, no
      other symbol survives, and the order of the input is kept. */
  lemma OnlyNSymbolsSelects(symbols: seq<string>, x: string)
    ensures multiset(OnlyNSymbols(symbols))[x] == if StartsWithN(x) then multiset(symbols)[x] else 0
    ensures IsSubsequence(OnlyNSymbols(symbols), symbols)
  {
    FilterMultiplicity(symbols, StartsWithN, x);
    FilterIsSubsequence(symbols, StartsWithN);
  }

  lemma OnlyNSymbolsIdempotent(symbols: seq<string>)
    ensures OnlyNSymbols(OnlyNSymbols(symbols)) == OnlyNSymbols(symbols)
  {
    FilterIdempotent(symbols, StartsWithN);
  }

  /** The match is case-sensitive: a lower-case "n" does not count. */
  lemma OnlyNSymbolsCaseSensitive()
    ensures OnlyNSymbols(["nmdc", "NTPC", "INFY", "NTPC"]) == ["NTPC", "NTPC"]
  {
    var xs := ["nmdc", "NTPC", "INFY", "NTPC"];
    assert !StartsWithN(xs[0]) && StartsWithN(xs[1]) && !StartsWithN(xs[2]) && StartsWithN(xs[3]);
    assert xs[..1][..0] == [];
    assert Filter(xs[..1], StartsWithN) == [];
    assert xs[..2][..1] == xs[..1];
    assert Filter(xs[..2], StartsWithN) == ["NTPC"];
    assert xs[..3][..2] == xs[..2];
    assert Filter(xs[..3], StartsWithN) == ["NTPC"];
    assert xs[..4][..3] == xs[..3] && xs[..4] == xs;
  }
}
