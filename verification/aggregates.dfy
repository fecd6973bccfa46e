/**
 The aggregates of the report statements over in-memory rows: SUM as an
 integer total (NULL over no rows), the `SUM(CASE WHEN col = 'v' THEN x
 ELSE 0 END)` columns, and GROUP BY as a partition of the rows by a key,
 the groups in the order their first row appears.
 */
module Aggregates {
  import opened Php
  import opened Rows
  import opened Sql

  /** The sum of `f` over the rows. */
  function Total(rows: seq<Row>, f: Row -> int): int {
    if |rows| == 0 then 0 else f(rows[0]) + Total(rows[1..], f)
  }

  lemma {:induction false} TotalAppend(a: seq<Row>, b: seq<Row>, f: Row -> int)
    ensures Total(a + b, f) == Total(a, f) + Total(b, f)
  {
    if |a| > 0 {
      assert (a + b)[1..] == a[1..] + b;
      TotalAppend(a[1..], b, f);
    } else {
      assert a + b == b;
    }
  }

  /** The rows a predicate keeps and the rows it drops add up to all rows. */
  lemma {:induction false} TotalSplits(rows: seq<Row>, p: Row -> bool, f: Row -> int)
    ensures Total(Filter(rows, p), f) + Total(Filter(rows, Not(p)), f) == Total(rows, f)
  {
    if |rows| > 0 {
      TotalSplits(rows[1..], p, f);
      var head := if p(rows[0]) then [rows[0]] else [];
      var dropped := if p(rows[0]) then [] else [rows[0]];
      assert Filter(rows, p) == head + Filter(rows[1..], p);
      assert Filter(rows, Not(p)) == dropped + Filter(rows[1..], Not(p));
      TotalAppend(head, Filter(rows[1..], p), f);
      TotalAppend(dropped, Filter(rows[1..], Not(p)), f);
    }
  }

  /** SQL's SUM: NULL over no rows, the integer total otherwise. */
  function Sum(rows: seq<Row>, f: Row -> int): (v: Val)
    ensures v.Null? <==> |rows| == 0
    ensures v.Int? ==> v.i == Total(rows, f)
    ensures v.Null? || v.Int?
  {
    if |rows| == 0 then Null else Int(Total(rows, f))
  }

  /** A column read as a number, NULL counting 0. */
  function Column(col: string): Row -> int {
    x => Number(Get(x, col))
  }

  /** The rows whose column is not NULL. */
  function NonNull(col: string): Row -> bool {
    x => Get(x, col) != Null
  }

  /** SQL's SUM over a column that may be NULL: NULL when no row has a value, the total of the values otherwise. */
  function SumColumn(rows: seq<Row>, col: string): (v: Val)
    ensures v.Null? <==> |Filter(rows, NonNull(col))| == 0
    ensures v.Int? ==> v.i == Total(rows, Column(col))
    ensures v.Null? || v.Int?
  {
    if |Filter(rows, NonNull(col))| == 0 then Null else Int(Total(rows, Column(col)))
  }

  /** A column that is NULL on every row totals 0, so a NULL SUM reads as the number 0. */
  /** SUM() read as a number is the total, NULL over no rows reading as 0. */
  lemma SumNumber(rows: seq<Row>, f: Row -> int)
    ensures Number(Sum(rows, f)) == Total(rows, f)
  {
  }

  lemma {:induction false} TotalOfNulls(rows: seq<Row>, col: string)
    ensures Number(SumColumn(rows, col)) == Total(rows, Column(col))
  {
    if |Filter(rows, NonNull(col))| == 0 {
      NullColumnTotal(rows, col);
    }
  }

  lemma {:induction false} NullColumnTotal(rows: seq<Row>, col: string)
    requires |Filter(rows, NonNull(col))| == 0
    ensures Total(rows, Column(col)) == 0
  {
    if |rows| > 0 {
      assert Get(rows[0], col) == Null;
      NullColumnTotal(rows[1..], col);
    }
  }

  /** `col BETWEEN start AND end`: both ends included, and never TRUE when either side is NULL. */
  predicate Within(row: Row, col: string, start: Val, end: Val) {
    Holds(Get(row, col), Ge, start) && Holds(Get(row, col), Le, end)
  }

  /** `col = 'v'`, the test of a CASE arm. */
  predicate Is(row: Row, col: string, v: string) {
    Holds(Get(row, col), Eq, Str(v))
  }

  /** `CASE WHEN col = 'v' THEN f ELSE 0 END`. */
  function When(col: string, v: string, f: Row -> int): Row -> int {
    x => if Is(x, col, v) then f(x) else 0
  }

  /** The `1` a counting CASE adds per row. */
  function One(): Row -> int {
    x => 1
  }

  /** Counting with `One` is the number of rows. */
  lemma {:induction false} TotalOne(rows: seq<Row>)
    ensures Total(rows, One()) == |rows|
  {
    if |rows| > 0 {
      TotalOne(rows[1..]);
    }
  }

  /** A counting CASE arm that only counts rows with a value in `col2` counts at most those rows. */
  lemma {:induction false} CaseCountWithin(rows: seq<Row>, col: string, v: string, col2: string)
    requires forall i :: 0 <= i < |rows| && Is(rows[i], col, v) ==> Get(rows[i], col2) != Null
    ensures Total(rows, When(col, v, One())) <= |Filter(rows, NonNull(col2))|
  {
    if |rows| > 0 {
      assert forall i :: 0 <= i < |rows| - 1 ==> rows[1..][i] == rows[i + 1];
      CaseCountWithin(rows[1..], col, v, col2);
    }
  }

  /** A counting CASE arm counts the rows whose column holds the value. */
  lemma {:induction false} CaseCountIsFilter(rows: seq<Row>, col: string, v: string)
    ensures Total(rows, When(col, v, One())) == |Filter(rows, x => Is(x, col, v))|
  {
    if |rows| > 0 {
      CaseCountIsFilter(rows[1..], col, v);
    }
  }

  /** The CASE columns for the values `vs`, added together. */
  function CaseTotals(rows: seq<Row>, col: string, vs: seq<string>, f: Row -> int): int {
    if |vs| == 0 then 0 else Total(rows, When(col, vs[0], f)) + CaseTotals(rows, col, vs[1..], f)
  }

  /** The CASE arms for the values `vs` on one row, added together. */
  function CaseRow(x: Row, col: string, vs: seq<string>, f: Row -> int): int {
    if |vs| == 0 then 0 else When(col, vs[0], f)(x) + CaseRow(x, col, vs[1..], f)
  }

  /** The row's column holds one of the strings `vs`. */
  predicate OneOf(row: Row, col: string, vs: seq<string>) {
    Get(row, col).Str? && Get(row, col).s in vs
  }

  predicate Distinct(vs: seq<string>) {
    forall i, j :: 0 <= i < j < |vs| ==> vs[i] != vs[j]
  }

  lemma {:induction false} CaseTotalsHead(rows: seq<Row>, col: string, vs: seq<string>, f: Row -> int)
    requires |rows| > 0
    ensures CaseTotals(rows, col, vs, f) == CaseRow(rows[0], col, vs, f) + CaseTotals(rows[1..], col, vs, f)
  {
    if |vs| > 0 {
      CaseTotalsHead(rows, col, vs[1..], f);
    }
  }

  /** A row whose column holds none of `vs` gets 0 from every arm. */
  lemma {:induction false} CaseRowNone(x: Row, col: string, vs: seq<string>, f: Row -> int)
    requires Get(x, col).Str? && Get(x, col).s !in vs
    ensures CaseRow(x, col, vs, f) == 0
  {
    if |vs| > 0 {
      assert !Is(x, col, vs[0]);
      CaseRowNone(x, col, vs[1..], f);
    }
  }

  /** A row whose column holds exactly one of distinct `vs` gets `f` from exactly one arm. */
  lemma {:induction false} CaseRowOne(x: Row, col: string, vs: seq<string>, f: Row -> int)
    requires Distinct(vs) && OneOf(x, col, vs)
    ensures CaseRow(x, col, vs, f) == f(x)
  {
    var s := Get(x, col).s;
    assert Distinct(vs[1..]) by {
      assert forall i :: 0 <= i < |vs| - 1 ==> vs[1..][i] == vs[i + 1];
    }
    if vs[0] == s {
      assert Is(x, col, vs[0]);
      assert s !in vs[1..] by {
        assert forall i :: 0 <= i < |vs| - 1 ==> vs[1..][i] == vs[i + 1];
      }
      CaseRowNone(x, col, vs[1..], f);
    } else {
      assert !Is(x, col, vs[0]);
      CaseRowOne(x, col, vs[1..], f);
    }
  }

  /**
   When every row's column holds one of the distinct values `vs`, the CASE
   columns for `vs` add up to the plain total.
   */
  lemma {:induction false} CasesCoverAll(rows: seq<Row>, col: string, vs: seq<string>, f: Row -> int)
    requires Distinct(vs)
    requires forall i :: 0 <= i < |rows| ==> OneOf(rows[i], col, vs)
    ensures CaseTotals(rows, col, vs, f) == Total(rows, f)
    decreases |rows|
  {
    if |rows| == 0 {
      CaseTotalsEmpty(rows, col, vs, f);
    } else {
      CaseTotalsHead(rows, col, vs, f);
      CaseRowOne(rows[0], col, vs, f);
      assert forall i :: 0 <= i < |rows| - 1 ==> rows[1..][i] == rows[i + 1];
      CasesCoverAll(rows[1..], col, vs, f);
    }
  }

  /** Distinct values are matched by at most one counting arm of a row whose column holds a string. */
  lemma CaseRowAtMostOne(x: Row, col: string, vs: seq<string>)
    requires Distinct(vs) && Get(x, col).Str?
    ensures CaseRow(x, col, vs, One()) <= 1
  {
    if Get(x, col).s in vs {
      CaseRowOne(x, col, vs, One());
    } else {
      CaseRowNone(x, col, vs, One());
    }
  }

  /** Counting arms for distinct values together count at most every row once. */
  lemma {:induction false} CasesAtMostRows(rows: seq<Row>, col: string, vs: seq<string>)
    requires Distinct(vs)
    requires forall i :: 0 <= i < |rows| ==> Get(rows[i], col).Str?
    ensures CaseTotals(rows, col, vs, One()) <= |rows|
    decreases |rows|
  {
    if |rows| == 0 {
      CaseTotalsEmpty(rows, col, vs, One());
    } else {
      CaseTotalsHead(rows, col, vs, One());
      CaseRowAtMostOne(rows[0], col, vs);
      assert forall i :: 0 <= i < |rows| - 1 ==> rows[1..][i] == rows[i + 1];
      CasesAtMostRows(rows[1..], col, vs);
    }
  }

  lemma {:induction false} CaseTotalsEmpty(rows: seq<Row>, col: string, vs: seq<string>, f: Row -> int)
    requires |rows| == 0
    ensures CaseTotals(rows, col, vs, f) == 0
  {
    if |vs| > 0 {
      CaseTotalsEmpty(rows, col, vs[1..], f);
    }
  }

  /** A CASE arm for a value no row holds adds nothing. */
  lemma {:induction false} WhenNone(rows: seq<Row>, col: string, v: string, f: Row -> int)
    requires forall i :: 0 <= i < |rows| ==> Get(rows[i], col).Str? && Get(rows[i], col).s != v
    ensures Total(rows, When(col, v, f)) == 0
  {
    if |rows| > 0 {
      assert !Is(rows[0], col, v);
      assert forall i :: 0 <= i < |rows| - 1 ==> rows[1..][i] == rows[i + 1];
      WhenNone(rows[1..], col, v, f);
    }
  }

  /** The rows whose key is `k`. */
  function SameKey(key: Row -> Val, k: Val): Row -> bool {
    x => key(x) == k
  }

  /**
   GROUP BY `key`: the group of the first row's key, then the groups of
   the rows with other keys. Every group is non-empty and all its rows
   share its key.
   */
  function Groups(rows: seq<Row>, key: Row -> Val): (gs: seq<seq<Row>>)
    ensures forall i :: 0 <= i < |gs| ==> |gs[i]| > 0
    ensures forall i, x :: 0 <= i < |gs| && x in gs[i] ==> x in rows && key(x) == key(gs[i][0])
    decreases |rows|
  {
    if |rows| == 0 then []
    else
      var k := key(rows[0]);
      var rest := Filter(rows, Not(SameKey(key, k)));
      var group := Filter(rows, SameKey(key, k));
      HeadGroup(rows, key);
      [group] + Groups(rest, key)
  }

  /** The first group: led by the first row, all of its key; the rows left over are fewer. */
  lemma HeadGroup(rows: seq<Row>, key: Row -> Val)
    requires |rows| > 0
    ensures var k := key(rows[0]);
            var group := Filter(rows, SameKey(key, k));
            && |group| > 0 && group[0] == rows[0]
            && (forall x :: x in group ==> key(x) == k)
            && |Filter(rows, Not(SameKey(key, k)))| < |rows|
  {
    var k := key(rows[0]);
    assert Filter(rows, Not(SameKey(key, k))) == Filter(rows[1..], Not(SameKey(key, k)));
    assert Filter(rows, SameKey(key, k)) == [rows[0]] + Filter(rows[1..], SameKey(key, k));
  }

  /** The number of rows in all groups. */
  function Sizes(gs: seq<seq<Row>>): int {
    if |gs| == 0 then 0 else |gs[0]| + Sizes(gs[1..])
  }

  /** The sum of `f` over all groups. */
  function Totals(gs: seq<seq<Row>>, f: Row -> int): int {
    if |gs| == 0 then 0 else Total(gs[0], f) + Totals(gs[1..], f)
  }

  /** The groups hold every row exactly once: their sizes and their totals add up to the rows'. */
  lemma {:induction false} GroupsPartition(rows: seq<Row>, key: Row -> Val, f: Row -> int)
    ensures Sizes(Groups(rows, key)) == |rows|
    ensures Totals(Groups(rows, key), f) == Total(rows, f)
    decreases |rows|
  {
    if |rows| > 0 {
      var k := key(rows[0]);
      var rest := Filter(rows, Not(SameKey(key, k)));
      assert rest == Filter(rows[1..], Not(SameKey(key, k)));
      GroupsPartition(rest, key, f);
      FilterSplits(rows, SameKey(key, k));
      TotalSplits(rows, SameKey(key, k), f);
    }
  }

  /** No two groups share a key. */
  lemma {:induction false} GroupKeysDistinct(rows: seq<Row>, key: Row -> Val)
    ensures forall i, j :: 0 <= i < j < |Groups(rows, key)| ==> key(Groups(rows, key)[i][0]) != key(Groups(rows, key)[j][0])
    decreases |rows|
  {
    if |rows| > 0 {
      var k := key(rows[0]);
      var rest := Filter(rows, Not(SameKey(key, k)));
      assert rest == Filter(rows[1..], Not(SameKey(key, k)));
      var tail := Groups(rest, key);
      GroupKeysDistinct(rest, key);
      RestKeysDiffer(rest, key, k);
      assert Groups(rows, key) == [Filter(rows, SameKey(key, k))] + tail;
    }
  }

  /** The groups of rows none of which has key `k` have other keys. */
  lemma RestKeysDiffer(rest: seq<Row>, key: Row -> Val, k: Val)
    requires forall x :: x in rest ==> key(x) != k
    ensures forall j :: 0 <= j < |Groups(rest, key)| ==> key(Groups(rest, key)[j][0]) != k
  {
  }
}
