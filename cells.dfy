/**
 * Dataframe cells of the budget and bid tables, whose columns are chosen by
 * name at run time: a cell is null (NaN/None), a number, a text or a flag,
 * and a record maps column names to cells. Also the `.str.contains`
 * search on such a column, which fails on a column holding no text.
 */
module Cells {
  import opened Wrappers
  import opened Text
  import opened Tables

  datatype Cell = Null | Num(n: int) | Str(s: string) | Flag(b: bool)

  type Record = map<string, Cell>

  /** The cell of a record in a column; a record without the column reads as null. */
  function Get(r: Record, col: string): Cell {
    if col in r then r[col] else Null
  }

  function CellText(c: Cell): Option<string> {
    if c.Str? then Some(c.s) else None
  }

  function CellNumber(c: Cell): Option<int> {
    if c.Num? then Some(c.n) else None
  }

  /** `is_numeric_dtype(col)`, read as: every cell of the column is null or a number. */
  predicate NumericColumn<R>(rows: seq<R>, cellOf: R -> Cell) {
    forall i :: 0 <= i < |rows| ==> cellOf(rows[i]).Null? || cellOf(rows[i]).Num?
  }

  /**
   * The column holds at least one text, so pandas gives it the object dtype
   * `.str` accepts; an empty table is searched without error.
   */
  predicate HasText<R>(rows: seq<R>, cellOf: R -> Cell) {
    rows == [] || exists i :: 0 <= i < |rows| && cellOf(rows[i]).Str?
  }

  const AccessorError := "Can only use .str accessor with string values!"

  /**
   * The case-insensitive text filter on one column, applied only for a
   * non-empty term. An empty term keeps the table; a non-empty one keeps the
   * rows whose cell is a text containing the term, ignoring case (null,
   * number and flag cells never match), and fails on a column with no text.
   */
  function SearchCells<R(==)>(rows: seq<R>, cellOf: R -> Cell, term: string): (r: Result<seq<R>, string>)
    ensures r.Err? <==> term != "" && !HasText(rows, cellOf)
    ensures r.Ok? ==> IsSubsequence(r.value, rows)
    ensures r.Ok? && term == "" ==> r.value == rows
    ensures r.Ok? && term != "" ==>
              forall x :: x in r.value ==> x in rows && cellOf(x).Str? && ContainsIgnoringCase(cellOf(x).s, term)
    ensures r.Ok? && term != "" ==>
              forall x :: x in rows && cellOf(x).Str? && ContainsIgnoringCase(cellOf(x).s, term) ==> x in r.value
  {
    if term == "" then
      SubsequenceReflexive(rows);
      Ok(rows)
    else if !HasText(rows, cellOf) then Err(AccessorError)
    else Ok(TextSearch(rows, (x: R) => CellText(cellOf(x)), term))
  }
}
