/**
 BaseModel: the generic find / findAll / create / update / delete of a
 table keyed on `id`. Each operation is modelled twice: as the statement it
 emits (clauses and parameters) and as its effect on the table's rows.
 A statement MySQL rejects, or any other PDO failure, is `None`: BaseModel
 re-raises it as an exception, which the calling controller turns into its
 own fixed error response.
 */
module BaseModel {
  import opened Php
  import opened Wrappers
  import opened Rows
  import opened Sql

  /** BaseModel::$primaryKey. */
  const PRIMARY_KEY: string := "id"

  /** A table: its rows in storage order and the next AUTO_INCREMENT value. */
  datatype Table = Table(rows: seq<Row>, nextId: int)

  /** The row predicate `primaryKey = ?` with `id` bound. */
  function HasKey(id: Val): Row -> bool {
    r => Holds(Get(r, PRIMARY_KEY), Eq, id)
  }

  /** Every row carries an integer id, all different and below the counter. */
  predicate Keyed(t: Table) {
    && (forall i :: 0 <= i < |t.rows| ==> PRIMARY_KEY in t.rows[i] && t.rows[i][PRIMARY_KEY].Int?
                                          && t.rows[i][PRIMARY_KEY].i < t.nextId)
    && (forall i, j :: 0 <= i < j < |t.rows| ==> t.rows[i][PRIMARY_KEY] != t.rows[j][PRIMARY_KEY])
  }

  /** `SELECT * FROM t WHERE id = ?`. */
  function FindQuery(id: Val): (q: Select)
    ensures WellFormed(q) && !q.limit
  {
    var w := [Bound(PRIMARY_KEY, Eq)];
    assert Holes(w) == Arity(w[0]) + Holes(w[1..]) == 1;
    Select(w, [], false, false, [id])
  }

  /** The first row a SELECT returns, as fetch() gives it; None when it fails or finds nothing. */
  function Fetch(q: Select, rows: seq<Row>): (r: Option<Row>)
    ensures r.Some? ==> Run(q, rows).Some? && |Run(q, rows).value| > 0 && r.value == Run(q, rows).value[0]
    ensures Run(q, rows).Some? && |Run(q, rows).value| > 0 ==> r.Some?
  {
    match Run(q, rows)
    case None => None
    case Some(rs) => if |rs| == 0 then None else Some(rs[0])
  }

  /** BaseModel::find: the first row whose id equals `id`, or nothing. */
  function Find(t: Table, id: Val): (r: Option<Row>)
    ensures r.Some? ==> r.value in t.rows && HasKey(id)(r.value)
    ensures r.None? <==> forall i :: 0 <= i < |t.rows| ==> !HasKey(id)(t.rows[i])
  {
    var q := FindQuery(id);
    forall x: Row ensures Satisfies(x, q.where, q.params) <==> HasKey(id)(x) {
      assert [id][..1] == [id];
    }
    assert q.params[..Holes(q.where)] == [id];
    FilterAgree(t.rows, Matching(q.where, [id]), HasKey(id));
    FirstIsHeadOfFilter(t.rows, HasKey(id));
    Fetch(q, t.rows)
  }

  /** find() returns the first row carrying the id, in storage order. */
  lemma FindIsHead(t: Table, id: Val)
    ensures Find(t, id) == if |Filter(t.rows, HasKey(id))| == 0 then None else Some(Filter(t.rows, HasKey(id))[0])
  {
    var q := FindQuery(id);
    forall x: Row ensures Satisfies(x, q.where, q.params) <==> HasKey(id)(x) {
      assert [id][..1] == [id];
    }
    assert q.params[..Holes(q.where)] == [id];
    FilterAgree(t.rows, Matching(q.where, [id]), HasKey(id));
  }

  /** The equality conjuncts `field = ?` of findAll, in key order. */
  function EqConds(conditions: Assoc): (w: seq<Cond>)
    ensures |w| == |conditions| && Holes(w) == |conditions|
    ensures forall i :: 0 <= i < |w| ==> w[i] == Bound(conditions[i].0, Eq)
  {
    if |conditions| == 0 then []
    else [Bound(conditions[0].0, Eq)] + EqConds(conditions[1..])
  }

  /**
   BaseModel::findAll's statement: the conditions as an AND of equalities in
   key order, then `LIMIT ?` only for a truthy limit and `OFFSET ?` only for
   a truthy offset.
   */
  function FindAllQuery(conditions: Assoc, limit: Val, offset: Val): (q: Select)
    ensures |q.where| == |conditions| && forall i :: 0 <= i < |q.where| ==> q.where[i] == Bound(conditions[i].0, Eq)
    ensures Placeholders(q) == |q.params| && |q.params| >= |conditions|
    ensures q.limit == Truthy(limit) && q.offset == Truthy(offset)
    ensures q.params[..|conditions|] == ValuesOf(conditions)
  {
    var ps := ValuesOf(conditions) + (if Truthy(limit) then [limit] else []) + (if Truthy(offset) then [offset] else []);
    assert ps[..|conditions|] == ValuesOf(conditions);
    Select(EqConds(conditions), [], Truthy(limit), Truthy(offset), ps)
  }

  /** Whether `r` agrees with every condition. */
  predicate MatchesAll(r: Row, conditions: Assoc) {
    forall i :: 0 <= i < |conditions| ==> Holds(Get(r, conditions[i].0), Eq, conditions[i].1)
  }

  lemma {:induction false} EqCondsMeaning(r: Row, conditions: Assoc)
    ensures Satisfies(r, EqConds(conditions), ValuesOf(conditions)) <==> MatchesAll(r, conditions)
  {
    if |conditions| > 0 {
      var w := EqConds(conditions);
      var vs := ValuesOf(conditions);
      assert w[1..] == EqConds(conditions[1..]);
      assert vs[1..] == ValuesOf(conditions[1..]);
      assert vs[..1] == [conditions[0].1];
      EqCondsMeaning(r, conditions[1..]);
      assert MatchesAll(r, conditions) <==>
        Holds(Get(r, conditions[0].0), Eq, conditions[0].1) && MatchesAll(r, conditions[1..]) by {
        if Holds(Get(r, conditions[0].0), Eq, conditions[0].1) && MatchesAll(r, conditions[1..]) {
          forall i | 0 <= i < |conditions| ensures Holds(Get(r, conditions[i].0), Eq, conditions[i].1) {
            if i > 0 { assert conditions[i] == conditions[1..][i - 1]; }
          }
        }
        if MatchesAll(r, conditions) {
          forall i | 0 <= i < |conditions| - 1
            ensures Holds(Get(r, conditions[1..][i].0), Eq, conditions[1..][i].1) {
            assert conditions[1..][i] == conditions[i + 1];
          }
        }
      }
    }
  }

  /** The rows agreeing with every condition, in storage order. */
  function MatchingAll(conditions: Assoc): Row -> bool {
    r => MatchesAll(r, conditions)
  }

  /**
   findAll without limit and offset returns exactly the rows agreeing with
   every condition; with a truthy offset but no truthy limit the statement
   is `... OFFSET ?` without LIMIT, which MySQL rejects.
   */
  lemma FindAllMeaning(t: Table, conditions: Assoc, limit: Val, offset: Val)
    ensures !Truthy(limit) && !Truthy(offset) ==>
              Run(FindAllQuery(conditions, limit, offset), t.rows) == Some(Filter(t.rows, MatchingAll(conditions)))
    ensures Truthy(offset) && !Truthy(limit) ==> Run(FindAllQuery(conditions, limit, offset), t.rows).None?
  {
    var q := FindAllQuery(conditions, limit, offset);
    if !Truthy(limit) && !Truthy(offset) {
      assert q.params[..Holes(q.where)] == ValuesOf(conditions);
      assert q.where == EqConds(conditions);
      forall i | 0 <= i < |t.rows|
        ensures Matching(q.where, ValuesOf(conditions))(t.rows[i]) == MatchingAll(conditions)(t.rows[i]) {
        EqCondsMeaning(t.rows[i], conditions);
      }
      FilterAgree(t.rows, Matching(q.where, ValuesOf(conditions)), MatchingAll(conditions));
    }
  }

  /** An `INSERT INTO t (c1, ...) VALUES (?, ...)` statement. */
  datatype Insert = Insert(columns: seq<string>, params: seq<Val>)

  /** BaseModel::create's statement: one `?` per field, values in key order. */
  function CreateStatement(data: Assoc): (s: Insert)
    ensures |s.columns| == |s.params| == |data|
    ensures forall i :: 0 <= i < |data| ==> s.columns[i] == data[i].0 && s.params[i] == data[i].1
  {
    Insert(KeysOf(data), ValuesOf(data))
  }

  /**
   Appending a row: it gets the next AUTO_INCREMENT id, which is returned
   (lastInsertId). The effect of BaseModel::create and of the models'
   own INSERT statements.
   */
  function Add(t: Table, row: Row): (r: (Table, int))
    ensures r.1 == t.nextId
    ensures r.0.rows == t.rows + [row[PRIMARY_KEY := Int(t.nextId)]] && r.0.nextId == t.nextId + 1
    ensures Keyed(t) ==> Keyed(r.0)
  {
    (Table(t.rows + [row[PRIMARY_KEY := Int(t.nextId)]], t.nextId + 1), t.nextId)
  }

  /** BaseModel::create. */
  function Create(t: Table, data: Assoc): (r: (Table, int)) {
    Add(t, ToRow(data))
  }

  /** In a keyed table, the row just added is the one find() returns for the new id. */
  lemma AddThenFind(t: Table, row: Row)
    requires Keyed(t)
    ensures Find(Add(t, row).0, Int(Add(t, row).1)) == Some(row[PRIMARY_KEY := Int(t.nextId)])
  {
    var (t', id) := Add(t, row);
    var added := row[PRIMARY_KEY := Int(t.nextId)];
    forall i | 0 <= i < |t.rows| ensures !HasKey(Int(id))(t'.rows[i]) {
      assert t'.rows[i] == t.rows[i];
    }
    assert t'.rows[|t.rows|] == added;
    assert HasKey(Int(id))(added);
    var found := Find(t', Int(id));
    var i :| 0 <= i < |t'.rows| && t'.rows[i] == found.value;
    assert i == |t.rows|;
  }

  /** An `UPDATE t SET c1 = ?, ... WHERE key = ?` statement. */
  datatype Update = Update(sets: seq<string>, key: string, params: seq<Val>)

  /** BaseModel::update's statement: the values in key order, then the id; one parameter per placeholder. */
  function UpdateStatement(id: Val, data: Assoc): (s: Update)
    ensures |s.sets| == |data| && |s.params| == |data| + 1
    ensures s.key == PRIMARY_KEY && s.params[|data|] == id
    ensures forall i :: 0 <= i < |data| ==> s.sets[i] == data[i].0 && s.params[i] == data[i].1
  {
    Update(KeysOf(data), PRIMARY_KEY, ValuesOf(data) + [id])
  }

  /** Overwriting the given keys of a row. */
  function Assign(changes: Row): Row -> Row {
    r => r + changes
  }

  /**
   Applying an UPDATE ... WHERE id = ? to a table: rows with that id get
   the changes, the count is the number of rows whose contents changed.
   */
  function UpdateById(t: Table, id: Val, changes: Row): (r: (Table, nat))
    ensures r.0.nextId == t.nextId && |r.0.rows| == |t.rows|
    ensures forall i :: 0 <= i < |t.rows| ==>
              r.0.rows[i] == if HasKey(id)(t.rows[i]) then t.rows[i] + changes else t.rows[i]
    ensures r.1 <= |Filter(t.rows, HasKey(id))|
  {
    var (rows, n) := UpdateWhere(t.rows, HasKey(id), Assign(changes));
    ChangedIsMatched(t.rows, HasKey(id), Assign(changes));
    (Table(rows, t.nextId), n)
  }

  lemma {:induction false} ChangedIsMatched(rows: seq<Row>, p: Row -> bool, f: Row -> Row)
    ensures |Filter(rows, ChangedBy(p, f))| <= |Filter(rows, p)|
  {
    if |rows| > 0 {
      ChangedIsMatched(rows[1..], p, f);
    }
  }

  /**
   BaseModel::update: None for an empty `$data`, whose `SET  WHERE` MySQL
   rejects; otherwise the table after the update and the affected-row count.
   */
  function UpdateRow(t: Table, id: Val, data: Assoc): (r: Option<(Table, nat)>)
    ensures r.None? <==> |data| == 0
    ensures r.Some? ==> r.value == UpdateById(t, id, ToRow(data))
  {
    if |data| == 0 then None else Some(UpdateById(t, id, ToRow(data)))
  }

  /** In a keyed table an update by id changes at most one row, and touches no other. */
  lemma UpdateTouchesOneRow(t: Table, id: int, changes: Row)
    requires Keyed(t)
    ensures UpdateById(t, Int(id), changes).1 <= 1
    ensures forall i :: 0 <= i < |t.rows| && t.rows[i][PRIMARY_KEY] != Int(id) ==>
              UpdateById(t, Int(id), changes).0.rows[i] == t.rows[i]
  {
    KeyedHasAtMostOne(t, id);
  }

  lemma KeyedHasAtMostOne(t: Table, id: int)
    requires Keyed(t)
    ensures |Filter(t.rows, HasKey(Int(id)))| <= 1
    ensures forall i :: 0 <= i < |t.rows| ==> (HasKey(Int(id))(t.rows[i]) <==> t.rows[i][PRIMARY_KEY] == Int(id))
  {
    assert forall i :: 0 <= i < |t.rows| ==> (HasKey(Int(id))(t.rows[i]) <==> t.rows[i][PRIMARY_KEY] == Int(id));
    AtMostOneWithKey(t.rows, Int(id));
  }

  lemma {:induction false} AtMostOneWithKey(rows: seq<Row>, id: Val)
    requires id.Int?
    requires forall i :: 0 <= i < |rows| ==> PRIMARY_KEY in rows[i] && rows[i][PRIMARY_KEY].Int?
    requires forall i, j :: 0 <= i < j < |rows| ==> rows[i][PRIMARY_KEY] != rows[j][PRIMARY_KEY]
    ensures |Filter(rows, HasKey(id))| <= 1
  {
    if |rows| > 0 {
      AtMostOneWithKey(rows[1..], id);
      if HasKey(id)(rows[0]) {
        assert rows[0][PRIMARY_KEY] == id;
        forall k | 0 <= k < |rows| - 1 ensures !HasKey(id)(rows[1..][k]) {
          assert rows[1..][k] == rows[k + 1];
        }
        FilterNone(rows[1..], HasKey(id));
      }
    }
  }

  /** BaseModel::delete: the rows with that id go; the count is how many went. */
  function Delete(t: Table, id: Val): (r: (Table, nat))
    ensures r.0.rows == Filter(t.rows, Not(HasKey(id))) && r.0.nextId == t.nextId
    ensures r.1 == |t.rows| - |r.0.rows|
    ensures Find(r.0, id).None?
  {
    var (rows, n) := DeleteWhere(t.rows, HasKey(id));
    assert forall x :: x in rows ==> !HasKey(id)(x);
    (Table(rows, t.nextId), n)
  }
}
