/**
 The part of MySQL the models rely on: how a column value compares with a
 bound parameter, and what a SELECT made of `col op ?` conjuncts, an
 optional `LIMIT ?` and an optional `OFFSET ?` returns from a table's rows.
 A statement is kept as its clauses and its parameter list, so that "one
 parameter per placeholder" is a property one can state and prove.
 */
module Sql {
  import opened Text
  import opened Php
  import opened Wrappers
  import opened Rows

  /** The number MySQL makes of a value compared with a number. */
  function Number(v: Val): int {
    match v
    case Int(i) => i
    case Bool(b) => if b then 1 else 0
    case Str(s) => StringToInt(s)
    case _ => 0
  }

  /** Values a comparison is defined on; NULL (and an array, which PDO cannot bind) compare as unknown. */
  predicate Comparable(v: Val) { v.Int? || v.Bool? || v.Str? }

  function Sign(x: int): (s: int)
    ensures -1 <= s <= 1
    ensures (s < 0 <==> x < 0) && (s == 0 <==> x == 0)
  {
    if x < 0 then -1 else if x > 0 then 1 else 0
  }

  /**
   Three-way comparison of two values: None when either side is NULL, two
   strings compare as text (dates are stored as 'Y-m-d' text, whose text
   order is calendar order), anything else compares as numbers.
   */
  function Compare(a: Val, b: Val): (r: Option<int>)
    ensures r.Some? <==> Comparable(a) && Comparable(b)
    ensures r.Some? ==> -1 <= r.value <= 1
    ensures r.Some? && a.Str? && b.Str? ==> (r.value == 0 <==> a.s == b.s)
  {
    if !Comparable(a) || !Comparable(b) then None
    else if a.Str? && b.Str? then
      StrLtTrichotomy(a.s, b.s);
      Some(if a.s == b.s then 0 else if StrLt(a.s, b.s) then -1 else 1)
    else Some(Sign(Number(a) - Number(b)))
  }

  /** Swapping the sides of a comparison negates it. */
  lemma CompareAntisymmetric(a: Val, b: Val)
    ensures Compare(b, a) == if Compare(a, b).Some? then Some(-Compare(a, b).value) else None
  {
    if Comparable(a) && Comparable(b) && a.Str? && b.Str? {
      StrLtTrichotomy(a.s, b.s);
    }
  }

  datatype Op = Eq | Lt | Le | Gt | Ge

  predicate Test(c: int, op: Op) {
    match op
    case Eq => c == 0
    case Lt => c < 0
    case Le => c <= 0
    case Gt => c > 0
    case Ge => c >= 0
  }

  /** Whether `col op param` is TRUE; UNKNOWN filters the row out, as WHERE does. */
  predicate Holds(col: Val, op: Op, param: Val) {
    var c := Compare(col, param);
    c.Some? && Test(c.value, op)
  }

  /** Equality with a NULL never holds, even with NULL itself. */
  lemma NullMatchesNothing(op: Op, param: Val)
    ensures !Holds(Null, op, param) && !Holds(param, op, Null)
  {
  }

  /** Equality between two strings holds exactly when they are the same text. */
  lemma StrEqHolds(a: string, b: string)
    ensures Holds(Str(a), Eq, Str(b)) <==> a == b
  {
  }

  /** On integers and on strings, Holds is the ordinary comparison. */
  lemma HoldsOnInts(a: int, b: int, op: Op)
    ensures Holds(Int(a), op, Int(b)) <==> match op
      case Eq => a == b
      case Lt => a < b
      case Le => a <= b
      case Gt => a > b
      case Ge => a >= b
  {
  }

  /** One conjunct of a WHERE clause. */
  datatype Cond =
    | Bound(col: string, op: Op)              // col op ?
    | Fixed(col: string, op: Op, value: Val)  // col op <literal in the SQL text>
    | Between(col: string)                    // col BETWEEN ? AND ?

  /** The number of `?` placeholders a conjunct carries. */
  function Arity(c: Cond): nat {
    match c
    case Bound(_, _) => 1
    case Fixed(_, _, _) => 0
    case Between(_) => 2
  }

  /** The number of `?` placeholders in a WHERE clause. */
  function Holes(w: seq<Cond>): nat {
    if |w| == 0 then 0 else Arity(w[0]) + Holes(w[1..])
  }

  lemma {:induction false} HolesAppend(w1: seq<Cond>, w2: seq<Cond>)
    ensures Holes(w1 + w2) == Holes(w1) + Holes(w2)
  {
    if |w1| == 0 {
      assert w1 + w2 == w2;
    } else {
      assert (w1 + w2)[1..] == w1[1..] + w2;
      HolesAppend(w1[1..], w2);
    }
  }

  /** Whether row `r` satisfies one conjunct, given the parameters bound to its placeholders. */
  predicate CondHolds(r: Row, c: Cond, args: seq<Val>)
    requires |args| == Arity(c)
  {
    match c
    case Bound(col, op) => Holds(Get(r, col), op, args[0])
    case Fixed(col, op, v) => Holds(Get(r, col), op, v)
    case Between(col) => Holds(Get(r, col), Ge, args[0]) && Holds(Get(r, col), Le, args[1])
  }

  /** Whether row `r` satisfies every conjunct, the parameters consumed left to right. */
  predicate Satisfies(r: Row, w: seq<Cond>, args: seq<Val>)
    requires |args| == Holes(w)
    decreases |w|
  {
    |w| == 0 || (CondHolds(r, w[0], args[..Arity(w[0])]) && Satisfies(r, w[1..], args[Arity(w[0])..]))
  }

  /** A clause list built in two parts is satisfied exactly when both parts are. */
  lemma {:induction false} SatisfiesAppend(r: Row, w1: seq<Cond>, w2: seq<Cond>, a1: seq<Val>, a2: seq<Val>)
    requires |a1| == Holes(w1) && |a2| == Holes(w2)
    ensures Holes(w1 + w2) == |a1 + a2|
    ensures Satisfies(r, w1 + w2, a1 + a2) == (Satisfies(r, w1, a1) && Satisfies(r, w2, a2))
  {
    HolesAppend(w1, w2);
    if |w1| == 0 {
      assert w1 + w2 == w2 && a1 + a2 == a2;
    } else {
      var k := Arity(w1[0]);
      assert (w1 + w2)[1..] == w1[1..] + w2;
      assert (a1 + a2)[..k] == a1[..k];
      assert (a1 + a2)[k..] == a1[k..] + a2;
      SatisfiesAppend(r, w1[1..], w2, a1[k..], a2);
    }
  }

  /** The conjunct `c` with its parameter `arg` when `present`, and nothing otherwise: one `if (!empty(...))` of a builder. */
  function Optional(present: bool, c: Cond, arg: Val): (r: (seq<Cond>, seq<Val>))
    requires Arity(c) == 1
    ensures Holes(r.0) == |r.1|
    ensures forall row: Row :: Satisfies(row, r.0, r.1) <==> (present ==> CondHolds(row, c, [arg]))
  {
    if present then
      assert [c][1..] == [] && [arg][..1] == [arg];
      ([c], [arg])
    else ([], [])
  }

  /** A sort key of ORDER BY. */
  datatype Sort = Sort(col: string, dir: string)

  /** A SELECT: WHERE conjuncts, ORDER BY keys, optional `LIMIT ?` and `OFFSET ?`, and the parameters in placeholder order. */
  datatype Select = Select(where: seq<Cond>, order: seq<Sort>, limit: bool, offset: bool, params: seq<Val>)

  /** The number of `?` placeholders in a SELECT. */
  function Placeholders(q: Select): nat {
    Holes(q.where) + (if q.limit then 1 else 0) + (if q.offset then 1 else 0)
  }

  /** A statement MySQL accepts: one parameter per placeholder, and OFFSET only after LIMIT. */
  predicate WellFormed(q: Select) {
    Placeholders(q) == |q.params| && (q.offset ==> q.limit)
  }

  /** The row predicate a WHERE clause with these parameters stands for. */
  function Matching(w: seq<Cond>, args: seq<Val>): Row -> bool
    requires |args| == Holes(w)
  {
    r => Satisfies(r, w, args)
  }

  /** The rows a well-formed SELECT's WHERE clause keeps, before LIMIT and OFFSET. */
  function Hits(q: Select, rows: seq<Row>): seq<Row>
    requires WellFormed(q)
  {
    Filter(rows, Matching(q.where, q.params[..Holes(q.where)]))
  }

  /** The LIMIT value of a well-formed SELECT with a LIMIT. */
  function LimitOf(q: Select): int
    requires WellFormed(q) && q.limit
  {
    Number(q.params[Holes(q.where)])
  }

  /** The OFFSET value of a well-formed SELECT (0 without one). */
  function OffsetOf(q: Select): int
    requires WellFormed(q)
  {
    if q.offset then Number(q.params[Holes(q.where) + 1]) else 0
  }

  /** `WHERE … ORDER BY … LIMIT ? OFFSET ?`: the clause's parameters, then the limit and the offset. */
  function PagedSelect(w: seq<Cond>, order: seq<Sort>, args: seq<Val>, limit: int, offset: int): (q: Select)
    requires |args| == Holes(w)
    ensures WellFormed(q) && q.limit && q.offset
    ensures q.where == w && q.order == order && q.params[..Holes(w)] == args
    ensures LimitOf(q) == limit && OffsetOf(q) == offset
  {
    var p := args + [Int(limit), Int(offset)];
    assert p[..Holes(w)] == args;
    assert p[Holes(w)] == Int(limit) && p[Holes(w) + 1] == Int(offset);
    Select(w, order, true, true, p)
  }

  /**
   Executing a SELECT against a table's rows. None stands for the statement
   failing: a parameter count that does not match the placeholders, OFFSET
   without LIMIT (a syntax error in MySQL), or a negative LIMIT or OFFSET.
   Rows come back in storage order (ORDER BY is not applied).
   */
  function Run(q: Select, rows: seq<Row>): (r: Option<seq<Row>>)
    ensures r.Some? <==> WellFormed(q) && (q.limit ==> LimitOf(q) >= 0 && OffsetOf(q) >= 0)
    ensures r.Some? ==> forall x :: x in r.value ==> x in rows && Satisfies(x, q.where, q.params[..Holes(q.where)])
    ensures r.Some? && !q.limit ==>
              forall x :: x in rows && Satisfies(x, q.where, q.params[..Holes(q.where)]) ==> x in r.value
    ensures r.Some? && q.limit ==> |r.value| <= LimitOf(q)
  {
    if !WellFormed(q) then None
    else if !q.limit then Some(Hits(q, rows))
    else if LimitOf(q) < 0 || OffsetOf(q) < 0 then None
    else
      var page := Page(Hits(q, rows), LimitOf(q), OffsetOf(q));
      assert forall x :: x in page ==> x in Hits(q, rows);
      Some(page)
  }

  /** `SELECT COUNT(*)`: the number of rows the WHERE clause keeps; None if the statement fails. */
  function CountRows(q: Select, rows: seq<Row>): (r: Option<nat>)
    ensures r.Some? <==> WellFormed(q) && !q.limit
    ensures r.Some? ==> r.value == |Filter(rows, Matching(q.where, q.params[..Holes(q.where)]))|
  {
    if WellFormed(q) && !q.limit then Some(|Hits(q, rows)|) else None
  }

  /** A statement without LIMIT returns every matching row, so its COUNT(*) is the length of its result. */
  lemma CountMatchesRun(q: Select, rows: seq<Row>)
    requires WellFormed(q) && !q.limit
    ensures Run(q, rows).Some? && CountRows(q, rows) == Some(|Run(q, rows).value|)
  {
  }
}
