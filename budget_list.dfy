/**
 * The budget-list page (listup_app.py): two tables of budgeted projects,
 * one of local governments and one of education offices. Their numeric
 * columns are normalised in place, a column is filtered by range or by
 * text, rows flagged deleted are hidden, and the rows edited in the view
 * are written back into the whole table by their index.
 */
module BudgetList {
  import opened Wrappers
  import opened Text
  import opened Tables
  import opened Cells

  /** The numeric columns of the local-government table. */
  const LocalNumericColumns: seq<string> := ["예산현액", "국비", "시도비", "시군구비", "기타", "지출액", "편성액"]

  /** The numeric columns of the education-office table. */
  const EducationNumericColumns: seq<string> := ["금액", "면적"]

  /** The flag column of deleted rows. */
  const DeletedColumn := "삭제"

  /** The text "None" becomes null. */
  function ReplaceNone(c: Cell): Cell {
    if c == Str("None") then Null else c
  }

  /** How each kind of cell is written as text when a column is cast to strings. */
  function AsText(c: Cell): string {
    match c
    case Null => "nan"
    case Num(n) => ShowInt(n)
    case Str(s) => s
    case Flag(b) => if b then "True" else "False"
  }

  /** Coercing conversion to a number: a numeral gives its number, anything else null. */
  function Coerce(s: string): Cell {
    match ParseNumeral(s)
    case Some(n) => Num(n)
    case None => Null
  }

  /**
   * One cell of a numeric column after the normalisation: "None" replaced by
   * null, the cell cast to text, its commas removed, then coerced to a number.
   * The result is always null or a number; "None" and null give null; a
   * text gives the number its comma-free form spells, or null when it
   * spells none.
   */
  function ParseCell(c: Cell): (r: Cell)
    ensures r.Null? || r.Num?
    ensures c == Null || c == Str("None") ==> r == Null
    ensures c.Str? && c.s != "None" ==> (r.Num? <==> ParseNumeral(RemoveCommas(c.s)).Some?)
    ensures c.Str? && r.Num? ==> ParseNumeral(RemoveCommas(c.s)) == Some(r.n)
  {
    assert RemoveCommas("nan") == "nan" by {
      RemoveCommasNoComma("nan");
    }
    Coerce(RemoveCommas(AsText(ReplaceNone(c))))
  }

  /** A number is written and read back as itself. */
  lemma ParseCellNumber(n: int)
    ensures ParseCell(Num(n)) == Num(n)
  {
    var s := ShowInt(n);
    assert NoComma(s) by {
      if n < 0 {
        assert s == "-" + ShowNat(-n);
        assert forall i :: 1 <= i < |s| ==> s[i] == ShowNat(-n)[i - 1];
      }
    }
    RemoveCommasNoComma(s);
    ParseShowInt(n);
  }

  /** A thousands-grouped numeral such as "1,234,000" parses to its value. */
  lemma ParseCellGrouped(n: int)
    ensures ParseCell(Str(Grouped(n))) == Num(n)
  {
    if n >= 0 {
      GroupedNatStartsWithDigit(n);
    }
    assert Grouped(n)[0] != 'N';
    GroupedReadsBack(n);
  }

  /** Parsing a parsed cell again changes nothing. */
  lemma ParseCellIdempotent(c: Cell)
    ensures ParseCell(ParseCell(c)) == ParseCell(c)
  {
    var r := ParseCell(c);
    if r.Num? {
      ParseCellNumber(r.n);
    }
  }

  /** One numeric column rewritten: every row gets `col`, parsed; nothing else changes. */
  function ParseColumn(rows: seq<Record>, col: string): (r: seq<Record>)
    ensures |r| == |rows|
    ensures forall i :: 0 <= i < |rows| ==> r[i].Keys == rows[i].Keys + {col}
    ensures forall i :: 0 <= i < |rows| ==> Get(r[i], col) == ParseCell(Get(rows[i], col))
    ensures forall i, other :: 0 <= i < |rows| && other != col ==> Get(r[i], other) == Get(rows[i], other)
  {
    seq(|rows|, i requires 0 <= i < |rows| => rows[i][col := ParseCell(Get(rows[i], col))])
  }

  /** The table after the loop over `cols`, one column after the other. */
  function ParseColumns(rows: seq<Record>, cols: seq<string>): (r: seq<Record>)
    ensures |r| == |rows|
    decreases |cols|
  {
    if cols == [] then rows else ParseColumn(ParseColumns(rows, cols[..|cols| - 1]), cols[|cols| - 1])
  }

  /** After the loop, each listed column holds its parsed cells and every other column is unchanged. */
  lemma {:induction false} ParseColumnsCells(rows: seq<Record>, cols: seq<string>, i: nat, col: string)
    requires i < |rows|
    ensures col in cols ==> Get(ParseColumns(rows, cols)[i], col) == ParseCell(Get(rows[i], col))
    ensures col !in cols ==> Get(ParseColumns(rows, cols)[i], col) == Get(rows[i], col)
    decreases |cols|
  {
    if cols != [] {
      var init, last := cols[..|cols| - 1], cols[|cols| - 1];
      assert cols == init + [last];
      ParseColumnsCells(rows, init, i, col);
      if col == last && col in init {
        ParseCellIdempotent(Get(rows[i], col));
      }
    }
  }

  /** The loop adds exactly the listed columns to every row. */
  lemma {:induction false} ParseColumnsKeys(rows: seq<Record>, cols: seq<string>, i: nat)
    requires i < |rows|
    ensures ParseColumns(rows, cols)[i].Keys == rows[i].Keys + set c | c in cols
    decreases |cols|
  {
    if cols != [] {
      var init, last := cols[..|cols| - 1], cols[|cols| - 1];
      assert cols == init + [last];
      ParseColumnsKeys(rows, init, i);
      assert (set c | c in cols) == (set c | c in init) + {last};
    }
  }

  /** After the loop, every listed column holds only numbers and nulls, so the range comparisons on it see no text. */
  lemma NormalisedColumnNumeric(rows: seq<Record>, cols: seq<string>, col: string)
    requires col in cols
    ensures NumericColumn(ParseColumns(rows, cols), (r: Record) => Get(r, col))
  {
    forall i | 0 <= i < |rows|
      ensures Get(ParseColumns(rows, cols)[i], col).Null? || Get(ParseColumns(rows, cols)[i], col).Num?
    {
      ParseColumnsCells(rows, cols, i, col);
    }
  }

  /** Both tabs: after normalisation each of the tab's own numeric columns holds only numbers and nulls. */
  lemma TabsNormalised(local: seq<Record>, education: seq<Record>, col: string)
    ensures col in LocalNumericColumns ==> NumericColumn(ParseColumns(local, LocalNumericColumns), (r: Record) => Get(r, col))
    ensures col in EducationNumericColumns ==> NumericColumn(ParseColumns(education, EducationNumericColumns), (r: Record) => Get(r, col))
  {
    if col in LocalNumericColumns {
      NormalisedColumnNumeric(local, LocalNumericColumns, col);
    }
    if col in EducationNumericColumns {
      NormalisedColumnNumeric(education, EducationNumericColumns, col);
    }
  }

  /** Normalising an already normalised table changes nothing. */
  lemma ParseColumnsIdempotent(rows: seq<Record>, cols: seq<string>)
    ensures ParseColumns(ParseColumns(rows, cols), cols) == ParseColumns(rows, cols)
  {
    var once := ParseColumns(rows, cols);
    var twice := ParseColumns(once, cols);
    forall i | 0 <= i < |rows|
      ensures twice[i] == once[i]
    {
      ParseColumnsKeys(rows, cols, i);
      ParseColumnsKeys(once, cols, i);
      forall col | col in once[i]
        ensures twice[i][col] == once[i][col]
      {
        ParseColumnsCells(once, cols, i, col);
        ParseColumnsCells(rows, cols, i, col);
        assert Get(twice[i], col) == Get(once[i], col) by {
          if col in cols {
            ParseCellIdempotent(Get(rows[i], col));
          }
        }
      }
    }
  }

  /** A row of the table together with its index label, which survives every selection. */
  datatype Entry = Entry(index: nat, row: Record)

  /** The table with its default index 0, 1, ... */
  function Indexed(rows: seq<Record>): (es: seq<Entry>)
    ensures |es| == |rows| && forall i :: 0 <= i < |rows| ==> es[i] == Entry(i, rows[i])
  {
    seq(|rows|, i requires 0 <= i < |rows| => Entry(i, rows[i]))
  }

  /** The index labels increase along the entries, so no label occurs twice. */
  predicate Ascending(es: seq<Entry>) {
    forall i, j :: 0 <= i < j < |es| ==> es[i].index < es[j].index
  }

  /** Each entry is the row of `rows` its label names. */
  predicate RowsOf(es: seq<Entry>, rows: seq<Record>) {
    forall k :: 0 <= k < |es| ==> es[k].index < |rows| && rows[es[k].index] == es[k].row
  }

  lemma {:induction false} SubsequenceMembers<T>(a: seq<T>, b: seq<T>)
    requires IsSubsequence(a, b)
    ensures forall x :: x in a ==> x in b
    decreases |b|
  {
    if b != [] {
      if a != [] && a[0] == b[0] && IsSubsequence(a[1..], b[1..]) {
        SubsequenceMembers(a[1..], b[1..]);
        assert a == [a[0]] + a[1..];
      } else {
        SubsequenceMembers(a, b[1..]);
      }
    }
  }

  /** Whatever is selected from the indexed table keeps ascending labels naming its own rows. */
  lemma {:induction false} SelectionOfTable(es: seq<Entry>, ts: seq<Entry>, rows: seq<Record>)
    requires IsSubsequence(es, ts) && Ascending(ts) && RowsOf(ts, rows)
    ensures Ascending(es) && RowsOf(es, rows)
    decreases |ts|
  {
    SubsequenceMembers(es, ts);
    if ts != [] {
      if es != [] && es[0] == ts[0] && IsSubsequence(es[1..], ts[1..]) {
        SelectionOfTable(es[1..], ts[1..], rows);
        SubsequenceMembers(es[1..], ts[1..]);
        forall j | 0 < j < |es|
          ensures es[0].index < es[j].index
        {
          assert es[j] == es[1..][j - 1];
          assert es[j] in ts[1..];
          var m :| 0 <= m < |ts[1..]| && ts[1..][m] == es[j];
          assert ts[m + 1] == es[j];
        }
        forall i, j | 0 <= i < j < |es|
          ensures es[i].index < es[j].index
        {
          if i > 0 {
            assert es[i] == es[1..][i - 1] && es[j] == es[1..][j - 1];
          }
        }
      } else {
        SelectionOfTable(es, ts[1..], rows);
      }
    }
    forall k | 0 <= k < |es|
      ensures es[k].index < |rows| && rows[es[k].index] == es[k].row
    {
      assert es[k] in ts;
    }
  }

  /**
   * The range filter on a numeric column, or the text search on any other
   * column; only the search can fail.
   */
  function ListFilter(table: seq<Entry>, numericCols: seq<string>, col: string, lo: int, hi: int, term: string): (r: Result<seq<Entry>, string>)
    ensures r.Ok? ==> IsSubsequence(r.value, table)
    ensures col in numericCols ==> r.Ok?
    ensures col in numericCols ==>
              forall e :: e in r.value ==> e in table && InRange(CellNumber(Get(e.row, col)), lo, hi)
    ensures col in numericCols ==>
              forall e :: e in table && InRange(CellNumber(Get(e.row, col)), lo, hi) ==> e in r.value
    ensures col !in numericCols ==> r == SearchCells(table, (e: Entry) => Get(e.row, col), term)
  {
    if col in numericCols then Ok(RangeSelect(table, (e: Entry) => CellNumber(Get(e.row, col)), lo, hi))
    else SearchCells(table, (e: Entry) => Get(e.row, col), term)
  }

  /**
   * With the slider at its default, the column's minimum and maximum, the
   * range filter keeps every entry whose cell holds a number.
   */
  lemma ListDefaultRange(table: seq<Entry>, numericCols: seq<string>, col: string, term: string)
    requires col in numericCols
    requires Bounds(table, (e: Entry) => CellNumber(Get(e.row, col))).Some?
    ensures var b := Bounds(table, (e: Entry) => CellNumber(Get(e.row, col))).value;
            var r := ListFilter(table, numericCols, col, b.0, b.1, term).value;
            forall e :: e in table ==> (e in r <==> Get(e.row, col).Num?)
  {
  }

  /** The rows whose deleted flag ('삭제') is false. */
  function EditableView(filtered: seq<Entry>): (v: seq<Entry>)
    ensures IsSubsequence(v, filtered)
    ensures forall e :: e in v ==> e in filtered && Get(e.row, DeletedColumn) == Flag(false)
    ensures forall e :: e in filtered && Get(e.row, DeletedColumn) == Flag(false) ==> e in v
  {
    Select(filtered, (e: Entry) => Get(e.row, DeletedColumn) == Flag(false))
  }

  /** Writing back by label: each edited row written over the row its label names. */
  function Merged(rows: seq<Record>, edited: seq<Entry>): (r: seq<Record>)
    requires forall k :: 0 <= k < |edited| ==> edited[k].index < |rows|
    ensures |r| == |rows|
    decreases |edited|
  {
    if edited == [] then rows
    else
      var last := edited[|edited| - 1];
      Merged(rows, edited[..|edited| - 1])[last.index := last.row]
  }

  /** A row no edited entry names is left unchanged, hidden and deleted rows included. */
  lemma {:induction false} MergedUntouched(rows: seq<Record>, edited: seq<Entry>, i: nat)
    requires forall k :: 0 <= k < |edited| ==> edited[k].index < |rows|
    requires i < |rows| && forall k :: 0 <= k < |edited| ==> edited[k].index != i
    ensures Merged(rows, edited)[i] == rows[i]
    decreases |edited|
  {
    if edited != [] {
      MergedUntouched(rows, edited[..|edited| - 1], i);
    }
  }

  /** Every edited entry ends up at the index it names. */
  lemma {:induction false} MergedWritten(rows: seq<Record>, edited: seq<Entry>, k: nat)
    requires forall k :: 0 <= k < |edited| ==> edited[k].index < |rows|
    requires Ascending(edited) && k < |edited|
    ensures Merged(rows, edited)[edited[k].index] == edited[k].row
    decreases |edited|
  {
    if k < |edited| - 1 {
      MergedWritten(rows, edited[..|edited| - 1], k);
    }
  }

  /** Writing back an unedited view gives the table back. */
  lemma {:induction false} MergeUnedited(rows: seq<Record>, view: seq<Entry>)
    requires RowsOf(view, rows)
    ensures Merged(rows, view) == rows
    decreases |view|
  {
    if view != [] {
      MergeUnedited(rows, view[..|view| - 1]);
    }
  }

  /** The view as it comes back from the editor: same labels, rows as the user left them. */
  function EditedView(view: seq<Entry>, edit: Entry -> Record): (ev: seq<Entry>)
    ensures |ev| == |view|
    ensures forall k :: 0 <= k < |view| ==> ev[k].index == view[k].index && ev[k].row == edit(view[k])
  {
    seq(|view|, k requires 0 <= k < |view| => Entry(view[k].index, edit(view[k])))
  }

  /**
   * The editable view of a filtered table. It names rows of the table it came
   * from, each label once and in order.
   */
  function TabView(parsed: seq<Record>, numericCols: seq<string>, col: string, lo: int, hi: int, term: string)
    : (r: Result<seq<Entry>, string>)
    ensures r.Ok? ==> Ascending(r.value) && RowsOf(r.value, parsed)
  {
    var table := Indexed(parsed);
    match ListFilter(table, numericCols, col, lo, hi, term)
    case Ok(f) =>
      SelectionOfTable(f, table, parsed);
      SelectionOfTable(EditableView(f), f, parsed);
      Ok(EditableView(f))
    case Err(e) => Err(e)
  }

  /**
   * Saving writes each edited row at its own label and leaves every row
   * outside the view, whether filtered out or flagged deleted, as it was.
   */
  lemma TabSaveEffect(parsed: seq<Record>, numericCols: seq<string>, col: string, lo: int, hi: int, term: string,
                      edit: Entry -> Record, i: nat)
    requires TabView(parsed, numericCols, col, lo, hi, term).Ok? && i < |parsed|
    ensures var v := TabView(parsed, numericCols, col, lo, hi, term).value;
            var saved := Merged(parsed, EditedView(v, edit));
            (forall k :: 0 <= k < |v| ==> v[k].index != i) ==> saved[i] == parsed[i]
    ensures var v := TabView(parsed, numericCols, col, lo, hi, term).value;
            var saved := Merged(parsed, EditedView(v, edit));
            forall k :: 0 <= k < |v| && v[k].index == i ==> saved[i] == edit(v[k])
  {
    SaveEffect(parsed, TabView(parsed, numericCols, col, lo, hi, term).value, edit, i);
  }

  /** The write-back of the edited view, for any view of the table with ascending labels. */
  lemma SaveEffect(parsed: seq<Record>, v: seq<Entry>, edit: Entry -> Record, i: nat)
    requires Ascending(v) && RowsOf(v, parsed) && i < |parsed|
    ensures (forall k :: 0 <= k < |v| ==> v[k].index != i) ==> Merged(parsed, EditedView(v, edit))[i] == parsed[i]
    ensures forall k :: 0 <= k < |v| && v[k].index == i ==> Merged(parsed, EditedView(v, edit))[i] == edit(v[k])
  {
    var ev := EditedView(v, edit);
    assert Ascending(ev);
    if forall k :: 0 <= k < |v| ==> v[k].index != i {
      MergedUntouched(parsed, ev, i);
    }
    forall k | 0 <= k < |v| && v[k].index == i
      ensures Merged(parsed, ev)[i] == edit(v[k])
    {
      MergedWritten(parsed, ev, k);
    }
  }

  /** One of the two budget tables, held in memory while the page runs. */
  class BudgetSheet {
    var rows: seq<Record>

    constructor (loaded: seq<Record>)
      ensures rows == loaded
    {
      rows := loaded;
    }

    /** The loop over the numeric columns, rewriting each in place. */
    method NormaliseNumeric(cols: seq<string>)
      modifies this
      ensures rows == ParseColumns(old(rows), cols)
    {
      for i := 0 to |cols|
        invariant rows == ParseColumns(old(rows), cols[..i])
      {
        assert cols[..i + 1][..i] == cols[..i];
        rows := ParseColumn(rows, cols[i]);
      }
      assert cols[..|cols|] == cols;
    }

    /** The write-back by label, one edited row at a time. */
    method ApplyEdits(edited: seq<Entry>)
      requires forall k :: 0 <= k < |edited| ==> edited[k].index < |rows|
      modifies this
      ensures rows == Merged(old(rows), edited)
    {
      for i := 0 to |edited|
        invariant rows == Merged(old(rows), edited[..i])
      {
        assert edited[..i + 1][..i] == edited[..i];
        rows := rows[edited[i].index := edited[i].row];
      }
      assert edited[..|edited|] == edited;
    }

    /**
     * One tab of the page: normalise the numeric columns, filter, show the
     * count of the editable view, and write the user's edits back. A
     * failing search stops the page after the normalisation.
     */
    method ShowTab(numericCols: seq<string>, col: string, lo: int, hi: int, term: string, edit: Entry -> Record)
      returns (shown: Result<string, string>)
      modifies this
      ensures var parsed := ParseColumns(old(rows), numericCols);
              var v := TabView(parsed, numericCols, col, lo, hi, term);
              (v.Err? ==> shown == Err(v.error) && rows == parsed) &&
              (v.Ok? ==> shown == Ok(CountLabel(v.value)) && rows == Merged(parsed, EditedView(v.value, edit)))
    {
      NormaliseNumeric(numericCols);
      var v := TabView(rows, numericCols, col, lo, hi, term);
      if v.Err? {
        return Err(v.error);
      }
      shown := Ok(CountLabel(v.value));
      var ev := EditedView(v.value, edit);
      ApplyEdits(ev);
    }
  }
}
