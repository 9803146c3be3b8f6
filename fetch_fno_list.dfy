/** Reading the F&O symbol universe from a CSV: pick the `SYMBOL` column
    (or the only column), drop missing cells, and keep each symbol once, in
    order of first appearance. */
module FetchFnoList {
  import opened Wrappers
  import opened Lists

  /** Where the list is read from when no other URL is given. */
  const FnoListUrl := "https://archives.nseindia.com/content/fo/fo_mktlots.csv"

  /** A CSV column: its header and its cells (None: a missing value). */
  datatype Column = Column(name: string, cells: seq<Option<string>>)

  /** `RuntimeError` wraps the reason the CSV could not be read;
      `ValueError` reports a table with no usable column. */
  datatype FetchError = RuntimeError(cause: string) | ValueError

  /** The first column named `name`, if any. */
  function FindColumn(columns: seq<Column>, name: string): (r: Option<Column>)
    ensures r.None? <==> forall i :: 0 <= i < |columns| ==> columns[i].name != name
    ensures r.Some? ==> r.value in columns && r.value.name == name
  {
    if columns == [] then None
    else if columns[0].name == name then Some(columns[0])
    else FindColumn(columns[1..], name)
  }

  /** The column symbols are read from: `SYMBOL` when present, otherwise
      the only column of a one-column table; any other shape is an error. */
  function ChooseColumn(columns: seq<Column>): (r: Result<Column, FetchError>)
    ensures (exists i :: 0 <= i < |columns| && columns[i].name == "SYMBOL") ==>
      r.Success? && r.value.name == "SYMBOL" && r.value in columns
    ensures (forall i :: 0 <= i < |columns| ==> columns[i].name != "SYMBOL") ==>
      r == if |columns| == 1 then Success(columns[0]) else Failure(ValueError)
  {
    match FindColumn(columns, "SYMBOL")
    case Some(col) => Success(col)
    case None => if |columns| == 1 then Success(columns[0]) else Failure(ValueError)
  }

  predicate IsPresent(c: Option<string>)
  {
    c.Some?
  }

  function ValueOr(c: Option<string>): string
  {
    if c.Some? then c.value else ""
  }

  /** `dropna`: the values of the present cells, in their order and with
      their multiplicity. */
  function Present(cells: seq<Option<string>>): (r: seq<string>)
    ensures r == Map(Filter(cells, IsPresent), ValueOr)
    ensures forall x :: x in r <==> Some(x) in cells
  {
    if cells == [] then []
    else
      var init, last := cells[..|cells| - 1], cells[|cells| - 1];
      assert cells == init + [last];
      var kept := Filter(init, IsPresent);
      if last.Some? then
        assert Filter(cells, IsPresent) == kept + [last];
        assert (kept + [last])[..|kept|] == kept;
        Present(init) + [last.value]
      else
        assert Filter(cells, IsPresent) == kept;
        Present(init)
  }

  /** The position of the first occurrence of `x`. */
  function FirstIndex(xs: seq<string>, x: string): (k: nat)
    requires x in xs
    ensures k < |xs| && xs[k] == x
    ensures forall j :: 0 <= j < k ==> xs[j] != x
  {
    var init := xs[..|xs| - 1];
    if x in init then FirstIndex(init, x) else |xs| - 1
  }

  /** `unique`: each value once. */
  function Unique(xs: seq<string>): (r: seq<string>)
    ensures forall i, j :: 0 <= i < j < |r| ==> r[i] != r[j]
    ensures forall x :: x in r <==> x in xs
  {
    if xs == [] then []
    else
      var init, last := xs[..|xs| - 1], xs[|xs| - 1];
      assert xs == init + [last];
      var u := Unique(init);
      if last in u then u else u + [last]
  }

  /** `unique` keeps values in order of their first appearance. */
  lemma {:induction false} UniqueFirstOccurrenceOrder(xs: seq<string>)
    ensures forall i, j :: 0 <= i < j < |Unique(xs)| ==>
      FirstIndex(xs, Unique(xs)[i]) < FirstIndex(xs, Unique(xs)[j])
  {
    if xs != [] {
      var init, last := xs[..|xs| - 1], xs[|xs| - 1];
      UniqueFirstOccurrenceOrder(init);
      var u := Unique(init);
      var r := Unique(xs);
      forall i, j | 0 <= i < j < |r| ensures FirstIndex(xs, r[i]) < FirstIndex(xs, r[j]) {
        assert r[i] == u[i] && r[i] in init;
        assert FirstIndex(xs, r[i]) == FirstIndex(init, r[i]) < |init|;
        if j < |u| {
          assert r[j] == u[j] && r[j] in init;
          assert FirstIndex(xs, r[j]) == FirstIndex(init, r[j]);
        } else {
          assert r[j] == last && last !in init;
          assert FirstIndex(xs, r[j]) == |init|;
        }
      }
    }
  }

  /** `fetch_fno_list`: `read` is the outcome of reading the CSV (Failure:
      the read raised, with its reason). */
  function FetchFnoList(read: Result<seq<Column>, string>): (r: Result<seq<string>, FetchError>)
    ensures read.Failure? ==> r == Failure(RuntimeError(read.error))
    ensures read.Success? && ChooseColumn(read.value).Failure? ==> r == Failure(ValueError)
    ensures r.Success? ==>
      && read.Success? && ChooseColumn(read.value).Success?
      && (forall i, j :: 0 <= i < j < |r.value| ==> r.value[i] != r.value[j])
      && (forall x :: x in r.value <==> Some(x) in ChooseColumn(read.value).value.cells)
      && (forall i, j :: 0 <= i < j < |r.value| ==>
            FirstIndex(Present(ChooseColumn(read.value).value.cells), r.value[i]) <
            FirstIndex(Present(ChooseColumn(read.value).value.cells), r.value[j]))
  {
    match read
    case Failure(reason) => Failure(RuntimeError(reason))
    case Success(columns) =>
      match ChooseColumn(columns)
      case Failure(e) => Failure(e)
      case Success(col) =>
        UniqueFirstOccurrenceOrder(Present(col.cells));
        Success(Unique(Present(col.cells)))
  }

  /** `unique` leaves a duplicate-free list as it is. */
  lemma {:induction false} UniqueOfDistinct(xs: seq<string>)
    requires forall i, j :: 0 <= i < j < |xs| ==> xs[i] != xs[j]
    ensures Unique(xs) == xs
  {
    if xs != [] {
      var init := xs[..|xs| - 1];
      UniqueOfDistinct(init);
      assert xs[|xs| - 1] !in init;
    }
  }

  /** A `SYMBOL` column holding two different symbols, or a single column
      of any name holding them, gives the two symbols in order. */
  lemma FetchTwoSymbols(name: string, a: string, b: string)
    requires a != b
    ensures FetchFnoList(Success([Column("SYMBOL", [Some(a), Some(b)])])) == Success([a, b])
    ensures FetchFnoList(Success([Column(name, [Some(a), Some(b)])])) == Success([a, b])
  {
    PresentOfTwo(a, b);
    UniqueOfDistinct([a, b]);
    var col := Column("SYMBOL", [Some(a), Some(b)]);
    assert ChooseColumn([col]) == Success(col);
    var other := Column(name, [Some(a), Some(b)]);
    assert ChooseColumn([other]) == Success(other);
  }

  lemma PresentOfTwo(a: string, b: string)
    ensures Present([Some(a), Some(b)]) == [a, b]
  {
    var cells := [Some(a), Some(b)];
    assert cells[..1] == [Some(a)];
    assert cells[..1][..0] == [];
    assert Present(cells[..1]) == [a];
  }
}
