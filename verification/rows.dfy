/**
 Result sets as the models see them: sequences of rows in storage order, and
 the selection, first-row, paging and update operations the SQL they issue
 performs on such sequences.
 */
module Rows {
  import opened Php
  import opened Wrappers

  /** The rows of `rows` satisfying `p`, in their original order. */
  function Filter(rows: seq<Row>, p: Row -> bool): (r: seq<Row>)
    ensures |r| <= |rows|
    ensures forall x :: x in r <==> x in rows && p(x)
  {
    if |rows| == 0 then []
    else (if p(rows[0]) then [rows[0]] else []) + Filter(rows[1..], p)
  }

  /** The negation of a row predicate. */
  function Not(p: Row -> bool): Row -> bool {
    x => !p(x)
  }

  /** Filtering keeps a row exactly when the predicate holds of it, so the kept and the dropped rows together are all rows. */
  lemma {:induction false} FilterSplits(rows: seq<Row>, p: Row -> bool)
    ensures |Filter(rows, p)| + |Filter(rows, Not(p))| == |rows|
  {
    if |rows| > 0 {
      FilterSplits(rows[1..], p);
    }
  }

  /** Two predicates that agree on every row of `rows` select the same rows. */
  lemma {:induction false} FilterAgree(rows: seq<Row>, p: Row -> bool, q: Row -> bool)
    requires forall i :: 0 <= i < |rows| ==> p(rows[i]) == q(rows[i])
    ensures Filter(rows, p) == Filter(rows, q)
  {
    if |rows| > 0 {
      FilterAgree(rows[1..], p, q);
    }
  }

  /** Filtering twice is filtering by the conjunction. */
  lemma {:induction false} FilterFilter(rows: seq<Row>, p: Row -> bool, q: Row -> bool)
    ensures Filter(Filter(rows, p), q) == Filter(rows, x => p(x) && q(x))
  {
    if |rows| > 0 {
      FilterFilter(rows[1..], p, q);
      FilterAppend([rows[0]], rows[1..], q);
      var head := if p(rows[0]) then [rows[0]] else [];
      assert Filter(rows, p) == head + Filter(rows[1..], p);
      FilterAppend(head, Filter(rows[1..], p), q);
    }
  }

  /** A predicate every row satisfies selects them all. */
  lemma {:induction false} FilterAll(rows: seq<Row>, p: Row -> bool)
    requires forall i :: 0 <= i < |rows| ==> p(rows[i])
    ensures Filter(rows, p) == rows
  {
    if |rows| > 0 {
      FilterAll(rows[1..], p);
    }
  }

  /** A predicate no row satisfies selects nothing. */
  lemma {:induction false} FilterNone(rows: seq<Row>, p: Row -> bool)
    requires forall i :: 0 <= i < |rows| ==> !p(rows[i])
    ensures Filter(rows, p) == []
  {
    if |rows| > 0 {
      FilterNone(rows[1..], p);
    }
  }

  /** A predicate implied by another selects at least as many rows. */
  lemma {:induction false} FilterWeaker(rows: seq<Row>, p: Row -> bool, q: Row -> bool)
    requires forall i :: 0 <= i < |rows| ==> p(rows[i]) ==> q(rows[i])
    ensures |Filter(rows, p)| <= |Filter(rows, q)|
  {
    if |rows| > 0 {
      assert forall i :: 0 <= i < |rows| - 1 ==> rows[1..][i] == rows[i + 1];
      FilterWeaker(rows[1..], p, q);
    }
  }

  /** Filtering selects nothing exactly when no row satisfies the predicate. */
  lemma {:induction false} FilterEmpty(rows: seq<Row>, p: Row -> bool)
    ensures |Filter(rows, p)| == 0 <==> forall i :: 0 <= i < |rows| ==> !p(rows[i])
  {
    if |rows| > 0 {
      FilterEmpty(rows[1..], p);
      assert forall i :: 0 <= i < |rows| - 1 ==> rows[1..][i] == rows[i + 1];
      assert forall i :: 0 < i < |rows| ==> rows[i] == rows[1..][i - 1];
    }
  }

  /** Filtering distributes over concatenation. */
  lemma {:induction false} FilterAppend(a: seq<Row>, b: seq<Row>, p: Row -> bool)
    ensures Filter(a + b, p) == Filter(a, p) + Filter(b, p)
  {
    if |a| > 0 {
      assert (a + b)[1..] == a[1..] + b;
      FilterAppend(a[1..], b, p);
    } else {
      assert a + b == b;
    }
  }

  /**
   PDO's fetch() of a query: the first row satisfying `p`, or nothing (the
   PHP code's `false`).
   */
  function First(rows: seq<Row>, p: Row -> bool): (r: Option<Row>)
    ensures r.None? <==> forall i :: 0 <= i < |rows| ==> !p(rows[i])
    ensures r.Some? ==> exists i :: 0 <= i < |rows| && rows[i] == r.value && p(rows[i])
                                     && forall j :: 0 <= j < i ==> !p(rows[j])
  {
    if |rows| == 0 then None
    else if p(rows[0]) then Some(rows[0])
    else
      var r := First(rows[1..], p);
      assert r.Some? ==> exists i :: 0 <= i < |rows| - 1 && rows[1..][i] == r.value && p(rows[1..][i])
                                     && forall j :: 0 <= j < i ==> !p(rows[1..][j]);
      assert r.Some? ==> exists i :: 1 <= i < |rows| && rows[i] == r.value && p(rows[i])
                                     && forall j :: 0 <= j < i ==> !p(rows[j]) by {
        if r.Some? {
          var k :| 0 <= k < |rows| - 1 && rows[1..][k] == r.value && p(rows[1..][k])
                   && forall j :: 0 <= j < k ==> !p(rows[1..][j]);
          assert rows[k + 1] == r.value;
          assert forall j :: 1 <= j < k + 1 ==> !p(rows[j]) by {
            forall j | 1 <= j < k + 1 ensures !p(rows[j]) {
              assert rows[j] == rows[1..][j - 1];
            }
          }
        }
      }
      r
  }

  /** The first selected row is the head of the selection. */
  lemma {:induction false} FirstIsHeadOfFilter(rows: seq<Row>, p: Row -> bool)
    ensures First(rows, p) == if |Filter(rows, p)| == 0 then None else Some(Filter(rows, p)[0])
  {
    if |rows| > 0 && !p(rows[0]) {
      FirstIsHeadOfFilter(rows[1..], p);
    }
  }

  /** A row appended after rows none of which match is the first match. */
  lemma FirstAfterNone(rows: seq<Row>, x: Row, p: Row -> bool)
    requires forall i :: 0 <= i < |rows| ==> !p(rows[i])
    requires p(x)
    ensures First(rows + [x], p) == Some(x)
  {
    FirstIsHeadOfFilter(rows + [x], p);
    FilterAppend(rows, [x], p);
    FilterNone(rows, p);
    assert Filter([x], p) == [x] by {
      assert [x][1..] == [];
    }
  }

  /**
   `LIMIT limit OFFSET offset`: the rows from position `offset` on, at most
   `limit` of them.
   */
  function Page(rows: seq<Row>, limit: nat, offset: nat): (r: seq<Row>)
    ensures |r| <= limit
    ensures offset >= |rows| ==> r == []
    ensures offset < |rows| ==> |r| == Min(limit, |rows| - offset)
    ensures forall i :: 0 <= i < |r| ==> offset + i < |rows| && r[i] == rows[offset + i]
  {
    if offset >= |rows| then [] else rows[offset..Min(|rows|, offset + limit)]
  }

  /** A page is a window of the rows: no longer than they are, as long as it can be, and made of them. */
  lemma PageWithin(rows: seq<Row>, limit: nat, offset: nat)
    ensures |Page(rows, limit, offset)| <= |rows|
    ensures offset < |rows| ==> |Page(rows, limit, offset)| == Min(limit, |rows| - offset)
    ensures forall x :: x in Page(rows, limit, offset) ==> x in rows
  {
    var page := Page(rows, limit, offset);
    forall x | x in page ensures x in rows {
      var i :| 0 <= i < |page| && page[i] == x;
      assert rows[offset + i] == x;
    }
  }

  /** Consecutive pages of the same size cover the rows without gaps or overlap. */
  lemma PagesTile(rows: seq<Row>, limit: nat, page: nat)
    requires limit > 0
    ensures Page(rows, limit, page * limit) + Page(rows, limit, (page + 1) * limit)
            == Page(rows, 2 * limit, page * limit)
  {
    var a := page * limit;
    assert (page + 1) * limit == a + limit;
  }

  /** Whether an UPDATE that rewrites the rows satisfying `p` with `f` actually changes `x`. */
  function ChangedBy(p: Row -> bool, f: Row -> Row): Row -> bool {
    x => p(x) && f(x) != x
  }

  /**
   An UPDATE: every row satisfying `p` is rewritten by `f`, all others are
   left alone; the count is MySQL's affected-rows figure, the number of rows
   whose contents actually changed.
   */
  function UpdateWhere(rows: seq<Row>, p: Row -> bool, f: Row -> Row): (r: (seq<Row>, nat))
    ensures |r.0| == |rows|
    ensures forall i :: 0 <= i < |rows| ==> r.0[i] == if p(rows[i]) then f(rows[i]) else rows[i]
    ensures r.1 == |Filter(rows, ChangedBy(p, f))|
  {
    if |rows| == 0 then ([], 0)
    else
      var (rest, n) := UpdateWhere(rows[1..], p, f);
      var x := rows[0];
      var x' := if p(x) then f(x) else x;
      ([x'] + rest, n + (if ChangedBy(p, f)(x) then 1 else 0))
  }

  /** A DELETE: the rows satisfying `p` go, and the count is how many went. */
  function DeleteWhere(rows: seq<Row>, p: Row -> bool): (r: (seq<Row>, nat))
    ensures r.0 == Filter(rows, Not(p))
    ensures r.1 == |Filter(rows, p)|
    ensures |r.0| + r.1 == |rows|
  {
    FilterSplits(rows, p);
    (Filter(rows, Not(p)), |rows| - |Filter(rows, Not(p))|)
  }

  /** A column list of a SELECT: exactly these keys, a column the row lacks reading as NULL. */
  function Project(r: Row, columns: seq<string>): (p: Row)
    ensures p.Keys == set k | k in columns
    ensures forall k :: k in p ==> p[k] == Get(r, k)
  {
    map k | k in columns :: Get(r, k)
  }
}
