/**
 * The bid-notice page (info21C_app.py): one `filter_data` per tab of
 * construction, service and purchase bids. A numeric column is filtered by
 * a range whose default is derived from the column's minimum and maximum;
 * any other column by a case-insensitive text search. The count of the
 * filtered rows is shown above them.
 */
module BidFilter {
  import opened Wrappers
  import opened Text
  import opened Tables
  import opened Cells

  function ColumnOf(col: string): Record -> Cell {
    (r: Record) => Get(r, col)
  }

  function NumberOf(col: string): Record -> Option<int> {
    (r: Record) => CellNumber(Get(r, col))
  }

  /** The slider's ends: the column's minimum and maximum, or 0 for both when the column is all null. */
  function SliderBounds(rows: seq<Record>, col: string): (b: (int, int))
    ensures Count(rows, NumberOf(col)) == 0 ==> b == (0, 0)
    ensures Count(rows, NumberOf(col)) > 0 ==>
              b.0 in Values(rows, NumberOf(col)) && b.1 in Values(rows, NumberOf(col)) &&
              forall r :: r in rows && Get(r, col).Num? ==> b.0 <= Get(r, col).n <= b.1
  {
    match Bounds(rows, NumberOf(col))
    case None => (0, 0)
    case Some(b) => b
  }

  /**
   * The slider's initial range: the bounds themselves when they differ,
   * otherwise (0, max), so that a column holding a single value does not
   * start from a range of zero width at that value.
   */
  function DefaultRange(b: (int, int)): (r: (int, int))
    ensures r.1 == b.1
    ensures b.0 < b.1 ==> r == b
    ensures !(b.0 < b.1) ==> r.0 == 0
  {
    if b.0 < b.1 then b else (0, b.1)
  }

  /**
   * `filter_data` with the widget outputs as parameters: the chosen column,
   * the slider's range and the search text. The result is the filtered
   * rows with the count label, or the error of a search on a column no
   * `.str` accessor can take.
   */
  function FilterData(rows: seq<Record>, col: string, lo: int, hi: int, term: string): (r: Result<(seq<Record>, string), string>)
    ensures r.Ok? ==> IsSubsequence(r.value.0, rows) && r.value.1 == CountLabel(r.value.0)
    ensures NumericColumn(rows, ColumnOf(col)) ==> r.Ok?
    ensures NumericColumn(rows, ColumnOf(col)) ==>
              forall x :: x in r.value.0 <==> x in rows && Get(x, col).Num? && lo <= Get(x, col).n <= hi
    ensures !NumericColumn(rows, ColumnOf(col)) ==>
              (r.Err? <==> term != "" && !HasText(rows, ColumnOf(col)))
    ensures !NumericColumn(rows, ColumnOf(col)) && r.Ok? && term == "" ==> r.value.0 == rows
    ensures !NumericColumn(rows, ColumnOf(col)) && r.Ok? && term != "" ==>
              forall x :: x in r.value.0 <==> x in rows && Get(x, col).Str? && ContainsIgnoringCase(Get(x, col).s, term)
  {
    var filtered :=
      if NumericColumn(rows, ColumnOf(col)) then Ok(RangeSelect(rows, NumberOf(col), lo, hi))
      else SearchCells(rows, ColumnOf(col), term);
    match filtered
    case Ok(f) => Ok((f, CountLabel(f)))
    case Err(e) => Err(e)
  }

  /** The count shown is the number of rows shown. */
  lemma FilterDataCount(rows: seq<Record>, col: string, lo: int, hi: int, term: string)
    requires FilterData(rows, col, lo, hi, term).Ok?
    ensures var (f, caption) := FilterData(rows, col, lo, hi, term).value;
            ParseNumeral(caption[..|caption| - 2]) == Some(|f|)
  {
    CountLabelReadsBack(FilterData(rows, col, lo, hi, term).value.0);
  }

  /** On a column with two or more distinct values the default range keeps every row that holds a number. */
  lemma DefaultRangeKeepsValued(rows: seq<Record>, col: string, term: string)
    requires NumericColumn(rows, ColumnOf(col))
    requires var b := SliderBounds(rows, col); b.0 < b.1
    ensures var (lo, hi) := DefaultRange(SliderBounds(rows, col));
            |FilterData(rows, col, lo, hi, term).value.0| == Count(rows, NumberOf(col))
  {
    var b := SliderBounds(rows, col);
    RangeKeepsAllValued(rows, NumberOf(col), b.0, b.1);
  }

  /** Every value of a column whose cells are all `v` is `v`. */
  lemma {:induction false} ConstantValues(rows: seq<Record>, col: string, v: int)
    requires forall i :: 0 <= i < |rows| ==> Get(rows[i], col) == Num(v)
    ensures forall w :: w in Values(rows, NumberOf(col)) ==> w == v
    decreases |rows|
  {
    if rows != [] {
      ConstantValues(rows[1..], col, v);
    }
  }

  /**
   * A column holding one value `v` in every row gets the default range
   * (0, v). Filtered by that range, as the slider offers it before the user
   * moves it, the table keeps every row when `v` is not negative; when `v` is
   * negative the range is inverted and keeps none.
   */
  lemma DegenerateColumn(rows: seq<Record>, col: string, v: int, term: string)
    requires rows != [] && forall i :: 0 <= i < |rows| ==> Get(rows[i], col) == Num(v)
    ensures DefaultRange(SliderBounds(rows, col)) == (0, v)
    ensures v >= 0 ==> FilterData(rows, col, 0, v, term).value.0 == rows
    ensures v < 0 ==> FilterData(rows, col, 0, v, term).value.0 == []
  {
    assert NumberOf(col)(rows[0]).Some?;
    assert Count(rows, NumberOf(col)) > 0;
    ConstantValues(rows, col, v);
    var r := FilterData(rows, col, 0, v, term).value.0;
    if v >= 0 {
      RangeKeepsAll(rows, NumberOf(col), 0, v);
    }
  }
}
