/**
 * Tables as sequences of rows, and the dataframe operations the pages use on
 * them: boolean-mask selection, the case-insensitive text search applied only
 * for a non-empty term, the inclusive range selection, count and sum over a
 * nullable column, and the descending sort.
 */
module Tables {
  import opened Wrappers
  import opened Text

  /** `a` is `b` with some rows left out and the rest kept in order. */
  predicate IsSubsequence<T(==)>(a: seq<T>, b: seq<T>)
    decreases |b|
  {
    if b == [] then a == []
    else (a != [] && a[0] == b[0] && IsSubsequence(a[1..], b[1..])) || IsSubsequence(a, b[1..])
  }

  lemma {:induction false} SubsequenceReflexive<T>(a: seq<T>)
    ensures IsSubsequence(a, a)
    decreases |a|
  {
    if a != [] {
      SubsequenceReflexive(a[1..]);
    }
  }

  /** `rows[mask]`: the rows that satisfy `keep`, in their original order. */
  function Select<R(==)>(rows: seq<R>, keep: R -> bool): (r: seq<R>)
    ensures IsSubsequence(r, rows)
    ensures forall x :: x in r ==> x in rows && keep(x)
    ensures forall x :: x in rows && keep(x) ==> x in r
    ensures |r| <= |rows|
    decreases |rows|
  {
    if rows == [] then []
    else if keep(rows[0]) then
      var rest := Select(rows[1..], keep);
      assert ([rows[0]] + rest)[1..] == rest;
      [rows[0]] + rest
    else
      Select(rows[1..], keep)
  }

  /** A selection keeps each passing row as often as the table holds it, and no failing row. */
  lemma {:induction false} SelectMultiplicity<R>(rows: seq<R>, keep: R -> bool)
    ensures forall x :: x in rows ==> multiset(Select(rows, keep))[x] == if keep(x) then multiset(rows)[x] else 0
    decreases |rows|
  {
    if rows != [] {
      SelectMultiplicity(rows[1..], keep);
      assert rows == [rows[0]] + rows[1..];
      if keep(rows[0]) {
        assert Select(rows, keep) == [rows[0]] + Select(rows[1..], keep);
      }
    }
  }

  /** A mask every row passes changes nothing. */
  lemma {:induction false} SelectAll<R>(rows: seq<R>, keep: R -> bool)
    requires forall x :: x in rows ==> keep(x)
    ensures Select(rows, keep) == rows
    decreases |rows|
  {
    if rows != [] {
      assert rows == [rows[0]] + rows[1..];
      SelectAll(rows[1..], keep);
    }
  }

  /** A mask no row passes leaves nothing. */
  lemma {:induction false} SelectNone<R>(rows: seq<R>, keep: R -> bool)
    requires forall x :: x in rows ==> !keep(x)
    ensures Select(rows, keep) == []
    decreases |rows|
  {
    if rows != [] {
      SelectNone(rows[1..], keep);
    }
  }

  /** Selecting twice is selecting once by both masks. */
  lemma {:induction false} SelectSelect<R>(rows: seq<R>, p: R -> bool, q: R -> bool, pq: R -> bool)
    requires forall x :: pq(x) == (p(x) && q(x))
    ensures Select(Select(rows, p), q) == Select(rows, pq)
    decreases |rows|
  {
    if rows != [] {
      SelectSelect(rows[1..], p, q, pq);
      if p(rows[0]) {
        var rest := Select(rows[1..], p);
        assert Select(rows, p) == [rows[0]] + rest;
        assert ([rows[0]] + rest)[1..] == rest;
      }
    }
  }

  /** A stricter mask selects a subsequence of what a looser one selects. */
  lemma {:induction false} SelectStricter<R>(rows: seq<R>, p: R -> bool, q: R -> bool)
    requires forall x :: p(x) ==> q(x)
    ensures IsSubsequence(Select(rows, p), Select(rows, q))
    decreases |rows|
  {
    if rows != [] {
      SelectStricter(rows[1..], p, q);
      var sp, sq := Select(rows[1..], p), Select(rows[1..], q);
      if p(rows[0]) {
        assert ([rows[0]] + sp)[1..] == sp;
        assert ([rows[0]] + sq)[1..] == sq;
      } else if q(rows[0]) {
        assert ([rows[0]] + sq)[1..] == sq;
      }
    }
  }

  /** A null cell never matches; a text cell matches when it contains the term, ignoring case. */
  predicate TextMatches(cell: Option<string>, term: string) {
    cell.Some? && ContainsIgnoringCase(cell.value, term)
  }

  /**
   * The case-insensitive search of one text column, null cells never
   * matching; an empty term means no filtering.
   */
  function TextSearch<R(==)>(rows: seq<R>, cell: R -> Option<string>, term: string): (r: seq<R>)
    ensures term == "" ==> r == rows
    ensures term != "" ==> forall x :: x in r ==> x in rows && TextMatches(cell(x), term)
    ensures term != "" ==> forall x :: x in rows && TextMatches(cell(x), term) ==> x in r
    ensures IsSubsequence(r, rows)
  {
    SubsequenceReflexive(rows);
    if term == "" then rows else Select(rows, x => TextMatches(cell(x), term))
  }

  /** `lo <= v <= hi` on a nullable number; NaN compares false. */
  predicate InRange(v: Option<int>, lo: int, hi: int) {
    v.Some? && lo <= v.value <= hi
  }

  /** The rows whose value lies in the inclusive range from `lo` to `hi`. */
  function RangeSelect<R(==)>(rows: seq<R>, val: R -> Option<int>, lo: int, hi: int): (r: seq<R>)
    ensures forall x :: x in r ==> x in rows && val(x).Some? && lo <= val(x).value <= hi
    ensures forall x :: x in rows && val(x).Some? && lo <= val(x).value <= hi ==> x in r
    ensures IsSubsequence(r, rows)
  {
    Select(rows, x => InRange(val(x), lo, hi))
  }

  /** `col.count()`: the number of non-null values. */
  function Count<R>(rows: seq<R>, val: R -> Option<int>): (n: nat)
    ensures n <= |rows|
    decreases |rows|
  {
    if rows == [] then 0 else (if val(rows[0]).Some? then 1 else 0) + Count(rows[1..], val)
  }

  /** `col.sum()`: the sum of non-null values (0 for none). */
  function Sum<R>(rows: seq<R>, val: R -> Option<int>): int
    decreases |rows|
  {
    if rows == [] then 0 else (if val(rows[0]).Some? then val(rows[0]).value else 0) + Sum(rows[1..], val)
  }

  predicate NonNegative<R(==)>(rows: seq<R>, val: R -> Option<int>) {
    forall x :: x in rows && val(x).Some? ==> val(x).value >= 0
  }

  /** A table's count splits into the counts of the rows a mask keeps and of those it drops. */
  lemma {:induction false} CountSplit<R>(rows: seq<R>, val: R -> Option<int>, p: R -> bool, notP: R -> bool)
    requires forall x :: notP(x) == !p(x)
    ensures Count(rows, val) == Count(Select(rows, p), val) + Count(Select(rows, notP), val)
    decreases |rows|
  {
    if rows != [] {
      CountSplit(rows[1..], val, p, notP);
      var rest := if p(rows[0]) then Select(rows[1..], p) else Select(rows[1..], notP);
      assert ([rows[0]] + rest)[1..] == rest;
    }
  }

  /** Likewise for sums. */
  lemma {:induction false} SumSplit<R>(rows: seq<R>, val: R -> Option<int>, p: R -> bool, notP: R -> bool)
    requires forall x :: notP(x) == !p(x)
    ensures Sum(rows, val) == Sum(Select(rows, p), val) + Sum(Select(rows, notP), val)
    decreases |rows|
  {
    if rows != [] {
      SumSplit(rows[1..], val, p, notP);
      var rest := if p(rows[0]) then Select(rows[1..], p) else Select(rows[1..], notP);
      assert ([rows[0]] + rest)[1..] == rest;
    }
  }

  lemma {:induction false} SumNonNegative<R>(rows: seq<R>, val: R -> Option<int>)
    requires NonNegative(rows, val)
    ensures Sum(rows, val) >= 0
    decreases |rows|
  {
    if rows != [] {
      assert forall x :: x in rows[1..] ==> x in rows;
      SumNonNegative(rows[1..], val);
    }
  }

  /** Rows sorted so that the key never increases. */
  predicate SortedDescending<R>(rows: seq<R>, key: R -> int) {
    forall i, j :: 0 <= i < j < |rows| ==> key(rows[i]) >= key(rows[j])
  }

  function Insert<R>(x: R, rows: seq<R>, key: R -> int): (r: seq<R>)
    requires SortedDescending(rows, key)
    ensures SortedDescending(r, key)
    ensures multiset(r) == multiset(rows) + multiset{x}
    decreases |rows|
  {
    if rows == [] || key(x) >= key(rows[0]) then
      [x] + rows
    else
      var rest := Insert(x, rows[1..], key);
      assert rows == [rows[0]] + rows[1..];
      InsertBounded(x, rows, key, rest);
      [rows[0]] + rest
  }

  /** Every row the recursive insertion returns has a key no larger than the head's. */
  lemma InsertBounded<R>(x: R, rows: seq<R>, key: R -> int, rest: seq<R>)
    requires rows != [] && SortedDescending(rows, key) && key(x) < key(rows[0])
    requires multiset(rest) == multiset(rows[1..]) + multiset{x}
    requires SortedDescending(rest, key)
    ensures SortedDescending([rows[0]] + rest, key)
  {
    forall j | 0 <= j < |rest|
      ensures key(rest[j]) <= key(rows[0])
    {
      assert rest[j] in multiset(rest);
      if rest[j] != x {
        assert rest[j] in multiset(rows[1..]);
        var k :| 0 <= k < |rows[1..]| && rows[1..][k] == rest[j];
        assert rows[k + 1] == rest[j];
      }
    }
    var t := [rows[0]] + rest;
    forall i, j | 0 <= i < j < |t|
      ensures key(t[i]) >= key(t[j])
    {
      if i > 0 {
        assert t[i] == rest[i - 1] && t[j] == rest[j - 1];
      } else {
        assert t[j] == rest[j - 1];
      }
    }
  }

  /**
   * A descending sort by `key`. pandas' default sort is not stable, so the
   * order among equal keys is not fixed there; the contract states only what
   * every such sort delivers: the same rows, keys non-increasing.
   */
  function SortDescending<R>(rows: seq<R>, key: R -> int): (r: seq<R>)
    ensures SortedDescending(r, key)
    ensures multiset(r) == multiset(rows)
    ensures |r| == |rows|
    decreases |rows|
  {
    if rows == [] then []
    else
      assert rows == [rows[0]] + rows[1..];
      Insert(rows[0], SortDescending(rows[1..], key), key)
  }

  /** The non-null values of a column, in row order. */
  function Values<R>(rows: seq<R>, val: R -> Option<int>): (vs: seq<int>)
    ensures |vs| == Count(rows, val)
    ensures forall x :: x in rows && val(x).Some? ==> val(x).value in vs
    decreases |rows|
  {
    if rows == [] then []
    else (if val(rows[0]).Some? then [val(rows[0]).value] else []) + Values(rows[1..], val)
  }

  function Least(vs: seq<int>): (m: int)
    requires vs != []
    ensures m in vs && forall v :: v in vs ==> m <= v
    decreases |vs|
  {
    if |vs| == 1 then vs[0]
    else
      var m := Least(vs[1..]);
      assert vs == [vs[0]] + vs[1..];
      if vs[0] <= m then vs[0] else m
  }

  function Greatest(vs: seq<int>): (m: int)
    requires vs != []
    ensures m in vs && forall v :: v in vs ==> v <= m
    decreases |vs|
  {
    if |vs| == 1 then vs[0]
    else
      var m := Greatest(vs[1..]);
      assert vs == [vs[0]] + vs[1..];
      if vs[0] >= m then vs[0] else m
  }

  /** The column's least and greatest values; none when every value is null (both are NaN then). */
  function Bounds<R>(rows: seq<R>, val: R -> Option<int>): (b: Option<(int, int)>)
    ensures b.None? <==> Count(rows, val) == 0
    ensures b.Some? ==> b.value.0 in Values(rows, val) && b.value.1 in Values(rows, val)
    ensures b.Some? ==> forall x :: x in rows && val(x).Some? ==> b.value.0 <= val(x).value <= b.value.1
  {
    var vs := Values(rows, val);
    if vs == [] then None else Some((Least(vs), Greatest(vs)))
  }

  /** A range that holds every non-null value keeps exactly the non-null rows. */
  lemma {:induction false} RangeKeepsAllValued<R>(rows: seq<R>, val: R -> Option<int>, lo: int, hi: int)
    requires forall x :: x in rows && val(x).Some? ==> lo <= val(x).value <= hi
    ensures |RangeSelect(rows, val, lo, hi)| == Count(rows, val)
    decreases |rows|
  {
    if rows != [] {
      RangeKeepsAllValued(rows[1..], val, lo, hi);
    }
  }

  /** A range that holds every row's value keeps the whole table. */
  lemma {:induction false} RangeKeepsAll<R>(rows: seq<R>, val: R -> Option<int>, lo: int, hi: int)
    requires forall x :: x in rows ==> InRange(val(x), lo, hi)
    ensures RangeSelect(rows, val, lo, hi) == rows
    decreases |rows|
  {
    if rows != [] {
      RangeKeepsAll(rows[1..], val, lo, hi);
      assert rows == [rows[0]] + rows[1..];
    }
  }

  /** The default range from the least to the greatest value therefore drops only the null rows. */
  lemma FullRangeKeepsAllValued<R>(rows: seq<R>, val: R -> Option<int>)
    requires Bounds(rows, val).Some?
    ensures var b := Bounds(rows, val).value;
            var r := RangeSelect(rows, val, b.0, b.1);
            |r| == Count(rows, val) && forall x :: x in rows && val(x).Some? ==> x in r
  {
    var b := Bounds(rows, val).value;
    RangeKeepsAllValued(rows, val, b.0, b.1);
  }

  /** The row count shown above a table, as "N 건". */
  function CountLabel<R>(rows: seq<R>): string {
    ShowNat(|rows|) + " 건"
  }

  /** The label reads back as the number of rows. */
  lemma CountLabelReadsBack<R>(rows: seq<R>)
    ensures var l := CountLabel(rows);
            |l| >= 3 && l[|l| - 2..] == " 건" && ParseNumeral(l[..|l| - 2]) == Some(|rows|)
  {
    var s := ShowNat(|rows|);
    assert CountLabel(rows)[..|CountLabel(rows)| - 2] == s;
    assert IsDigit(s[0]);
    ParseShowNat(|rows|);
  }
}
