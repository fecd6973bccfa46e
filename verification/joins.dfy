/**
 The JOINs of the models' SELECT statements. Each joined table is looked up
 by its primary key from a column of the row built so far, and contributes
 some of its columns under an alias; an inner JOIN drops a row that finds no
 partner, a LEFT JOIN keeps it with those columns NULL. The joined tables
 are keyed on `id`, so a row finds at most one partner in each.
 */
module Joins {
  import opened Php
  import opened Wrappers
  import opened Rows
  import opened BaseModel

  /**
   One `JOIN table ON table.id = <on>`: the column `on` of the row so far
   holds the partner's id, and `columns` lists (alias, column of the partner).
   */
  datatype Join = Join(table: Table, on: string, columns: seq<(string, string)>, inner: bool)

  /** The aliases a list of columns introduces. */
  function AliasSet(columns: seq<(string, string)>): (s: set<string>)
    ensures forall k :: k in s <==> exists i :: 0 <= i < |columns| && columns[i].0 == k
  {
    set i | 0 <= i < |columns| :: columns[i].0
  }

  /** The aliases every join of `js` introduces. */
  function Aliases(js: seq<Join>): set<string> {
    if |js| == 0 then {} else AliasSet(js[0].columns) + Aliases(js[1..])
  }

  /** The partner's columns under their aliases; a missing partner reads as NULL in each. */
  function Aliased(partner: Row, columns: seq<(string, string)>): (r: Row)
    ensures r.Keys == AliasSet(columns)
  {
    if |columns| == 0 then map[]
    else
      var last := columns[|columns| - 1];
      assert AliasSet(columns) == AliasSet(columns[..|columns| - 1]) + {last.0} by {
        assert forall i :: 0 <= i < |columns| - 1 ==> columns[..|columns| - 1][i] == columns[i];
      }
      Aliased(partner, columns[..|columns| - 1])[last.0 := Get(partner, last.1)]
  }

  /** Joining one table to a row: its partner's aliased columns added, or None when an inner join finds no partner. */
  function JoinOne(row: Row, j: Join): (r: Option<Row>)
    ensures r.None? <==> j.inner && BaseModel.Find(j.table, Get(row, j.on)).None?
    ensures r.Some? ==> r.value.Keys == row.Keys + AliasSet(j.columns)
    ensures r.Some? ==> forall k :: k in row && k !in AliasSet(j.columns) ==> r.value[k] == row[k]
  {
    match BaseModel.Find(j.table, Get(row, j.on))
    case Some(partner) => Some(row + Aliased(partner, j.columns))
    case None => if j.inner then None else Some(row + Aliased(map[], j.columns))
  }

  /** Joining the tables of `js` one after the other. */
  function JoinAll(row: Row, js: seq<Join>): (r: Option<Row>)
    ensures r.Some? ==> r.value.Keys == row.Keys + Aliases(js)
    ensures r.Some? ==> forall k :: k in row && k !in Aliases(js) ==> r.value[k] == row[k]
    decreases |js|
  {
    if |js| == 0 then Some(row)
    else match JoinOne(row, js[0])
      case None => None
      case Some(next) => JoinAll(next, js[1..])
  }

  /** Whether no join of `js` introduces the column `k`. */
  predicate NoAlias(js: seq<Join>, k: string) {
    forall i, c :: 0 <= i < |js| && 0 <= c < |js[i].columns| ==> js[i].columns[c].0 != k
  }

  lemma {:induction false} NoAliasNotIn(js: seq<Join>, k: string)
    requires NoAlias(js, k)
    ensures k !in Aliases(js)
  {
    if |js| > 0 {
      assert forall i :: 0 <= i < |js| - 1 ==> js[1..][i] == js[i + 1];
      NoAliasNotIn(js[1..], k);
    }
  }

  /** A column no join introduces reads the same in the joined row as in the row it came from. */
  lemma JoinKeeps(row: Row, js: seq<Join>, k: string)
    requires JoinAll(row, js).Some? && NoAlias(js, k)
    ensures Get(JoinAll(row, js).value, k) == Get(row, k)
  {
    NoAliasNotIn(js, k);
  }

  /** Whether a row survives the inner joins of `js`. */
  function Joinable(js: seq<Join>): Row -> bool {
    row => JoinAll(row, js).Some?
  }

  /** Each row of `rows`, all of which survive the joins, joined. */
  function JoinEach(rows: seq<Row>, js: seq<Join>): (r: seq<Row>)
    requires forall i :: 0 <= i < |rows| ==> JoinAll(rows[i], js).Some?
    ensures |r| == |rows|
    ensures forall i :: 0 <= i < |rows| ==> JoinAll(rows[i], js) == Some(r[i])
  {
    if |rows| == 0 then [] else [JoinAll(rows[0], js).value] + JoinEach(rows[1..], js)
  }

  /** The joined rows of a result set, in its order; rows without a partner in an inner join are gone. */
  function Joined(rows: seq<Row>, js: seq<Join>): (r: seq<Row>)
    ensures |r| == |Filter(rows, Joinable(js))|
    ensures forall i :: 0 <= i < |r| ==> JoinAll(Filter(rows, Joinable(js))[i], js) == Some(r[i])
  {
    var f := Filter(rows, Joinable(js));
    assert forall i :: 0 <= i < |f| ==> f[i] in f;
    JoinEach(f, js)
  }

  /** Every row that survives the joins is in the result, joined. */
  lemma JoinedHas(rows: seq<Row>, js: seq<Join>, row: Row)
    requires row in rows && JoinAll(row, js).Some?
    ensures JoinAll(row, js).value in Joined(rows, js)
  {
    var f := Filter(rows, Joinable(js));
    assert row in f;
    var i :| 0 <= i < |f| && f[i] == row;
    assert Joined(rows, js)[i] == JoinAll(row, js).value;
  }

  /** Every row of the result is a row of the result set, joined. */
  lemma JoinedFrom(rows: seq<Row>, js: seq<Join>, x: Row)
    requires x in Joined(rows, js)
    ensures exists row :: row in rows && JoinAll(row, js) == Some(x)
  {
    var f := Filter(rows, Joinable(js));
    var i :| 0 <= i < |Joined(rows, js)| && Joined(rows, js)[i] == x;
    assert f[i] in f;
  }

  /** The head row of a result set is joined, or dropped, ahead of the rest. */
  lemma {:induction false} JoinedCons(rows: seq<Row>, js: seq<Join>)
    requires |rows| > 0
    ensures Joined(rows, js) == (if JoinAll(rows[0], js).Some? then [JoinAll(rows[0], js).value] else []) + Joined(rows[1..], js)
  {
    var f := Filter(rows, Joinable(js));
    var g := Filter(rows[1..], Joinable(js));
    assert f == (if Joinable(js)(rows[0]) then [rows[0]] else []) + g;
    var a := Joined(rows, js);
    var c := Joined(rows[1..], js);
    if JoinAll(rows[0], js).Some? {
      var b := [JoinAll(rows[0], js).value] + c;
      assert f == [rows[0]] + g;
      assert |a| == |b|;
      forall i | 0 <= i < |a| ensures a[i] == b[i] {
        if i > 0 {
          assert f[i] == g[i - 1];
        } else {
          assert f[0] == rows[0];
        }
      }
      assert a == b;
    } else {
      assert f == g;
      assert |a| == |c|;
      forall i | 0 <= i < |a| ensures a[i] == c[i] {
        assert f[i] == g[i];
      }
      assert [] + c == c;
    }
  }

  /**
   Filtering joined rows by a condition the joins do not affect is joining
   the filtered rows: a WHERE clause on the base table's own columns
   commutes with the joins.
   */
  lemma {:induction false} FilterJoined(rows: seq<Row>, js: seq<Join>, p: Row -> bool)
    requires forall i :: 0 <= i < |rows| && JoinAll(rows[i], js).Some? ==> p(JoinAll(rows[i], js).value) == p(rows[i])
    ensures Filter(Joined(rows, js), p) == Joined(Filter(rows, p), js)
  {
    if |rows| > 0 {
      var rest := rows[1..];
      assert forall i :: 0 <= i < |rest| ==> rest[i] == rows[i + 1];
      FilterJoined(rest, js, p);
      var tail := Joined(Filter(rest, p), js);
      assert Filter(Joined(rest, js), p) == tail;
      JoinedCons(rows, js);
      var kept := Filter(rows, p);
      assert kept == (if p(rows[0]) then [rows[0]] else []) + Filter(rest, p);
      var right: seq<Row>;
      if p(rows[0]) {
        JoinedCons(kept, js);
        assert kept[0] == rows[0] && kept[1..] == Filter(rest, p);
        right := (if JoinAll(rows[0], js).Some? then [JoinAll(rows[0], js).value] else []) + tail;
      } else {
        assert kept == Filter(rest, p);
        right := tail;
      }
      assert Joined(kept, js) == right;
      match JoinAll(rows[0], js)
      case None =>
        assert Joined(rows, js) == Joined(rest, js);
      case Some(j) =>
        assert p(j) == p(rows[0]);
        assert Joined(rows, js) == [j] + Joined(rest, js);
        FilterAppend([j], Joined(rest, js), p);
        assert Filter([j], p) == (if p(j) then [j] else []) by {
          assert [j][1..] == [];
        }
        assert Filter(Joined(rows, js), p) == (if p(j) then [j] else []) + tail;
    }
  }

  /** Rows that all join still all join after a filter. */
  lemma FilterKeepsJoinable(rows: seq<Row>, p: Row -> bool, js: seq<Join>)
    requires forall i :: 0 <= i < |rows| ==> JoinAll(rows[i], js).Some?
    ensures forall i :: 0 <= i < |Filter(rows, p)| ==> JoinAll(Filter(rows, p)[i], js).Some?
  {
    var kept := Filter(rows, p);
    forall i | 0 <= i < |kept| ensures JoinAll(kept[i], js).Some? {
      assert kept[i] in kept;
      var j :| 0 <= j < |rows| && rows[j] == kept[i];
    }
  }

  /** When every row has its partners (the foreign keys hold), joining drops nothing. */
  lemma JoinedKeepsAll(rows: seq<Row>, js: seq<Join>)
    requires forall i :: 0 <= i < |rows| ==> JoinAll(rows[i], js).Some?
    ensures |Joined(rows, js)| == |rows|
  {
    FilterAll(rows, Joinable(js));
  }

  /** Joining a concatenation of joins is joining the first part, then the second. */
  lemma {:induction false} JoinAllAppend(row: Row, a: seq<Join>, b: seq<Join>)
    ensures JoinAll(row, a + b) == if JoinAll(row, a).None? then None else JoinAll(JoinAll(row, a).value, b)
    decreases |a|
  {
    if |a| == 0 {
      assert a + b == b;
    } else {
      assert (a + b)[0] == a[0] && (a + b)[1..] == a[1..] + b;
      match JoinOne(row, a[0])
      case None =>
      case Some(next) => JoinAllAppend(next, a[1..], b);
    }
  }

  /** A single inner join keeps a row exactly when its partner exists. */
  lemma JoinSingle(row: Row, j: Join)
    ensures JoinAll(row, [j]) == JoinOne(row, j)
  {
    assert [j][1..] == [];
  }

  /** With only LEFT JOINs nothing is dropped. */
  lemma {:induction false} LeftJoinsKeepAll(row: Row, js: seq<Join>)
    requires forall i :: 0 <= i < |js| ==> !js[i].inner
    ensures JoinAll(row, js).Some?
    decreases |js|
  {
    if |js| > 0 {
      var next := JoinOne(row, js[0]).value;
      LeftJoinsKeepAll(next, js[1..]);
    }
  }
}
