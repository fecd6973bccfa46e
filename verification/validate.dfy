/**
 The checks the controllers share: a guard that answers when it fails, the
 required-field loop, and the page/limit clamping of the listing endpoints.
 */
module Validate {
  import opened Php
  import opened Wrappers
  import opened Http

  /** `if (!ok) { Response::...; return; }`: go on only when `ok`. */
  function Check(ok: bool, out: Outcome): (s: Step<bool>)
    ensures s.Next? <==> ok
    ensures s.Halt? ==> s.out == out
  {
    if ok then Next(true) else Halt(out)
  }

  /** `if (!$row) { Response::...; return; }` after a lookup: go on with the row found. */
  function Found<T>(o: Option<T>, out: Outcome): (s: Step<T>)
    ensures s.Next? <==> o.Some?
    ensures s.Next? ==> s.value == o.value
    ensures s.Halt? ==> s.out == out
  {
    if o.Some? then Next(o.value) else Halt(out)
  }

  /** The first of `fields` whose input value PHP considers empty. */
  function FirstMissing(input: Row, fields: seq<string>): (r: Option<string>)
    ensures r.None? <==> forall i :: 0 <= i < |fields| ==> !Empty(Get(input, fields[i]))
    ensures r.Some? ==> exists i :: 0 <= i < |fields| && fields[i] == r.value && Empty(Get(input, fields[i]))
                                    && forall j :: 0 <= j < i ==> !Empty(Get(input, fields[j]))
  {
    if |fields| == 0 then None
    else if Empty(Get(input, fields[0])) then Some(fields[0])
    else
      var r := FirstMissing(input, fields[1..]);
      assert forall i :: 1 <= i < |fields| ==> fields[i] == fields[1..][i - 1];
      assert r.Some? ==> exists i :: 1 <= i < |fields| && fields[i] == r.value && Empty(Get(input, fields[i]))
                                     && forall j :: 0 <= j < i ==> !Empty(Get(input, fields[j])) by {
        if r.Some? {
          var k :| 0 <= k < |fields| - 1 && fields[1..][k] == r.value && Empty(Get(input, fields[1..][k]))
                   && forall j :: 0 <= j < k ==> !Empty(Get(input, fields[1..][j]));
          assert forall j :: 1 <= j < k + 1 ==> !Empty(Get(input, fields[j])) by {
            forall j | 1 <= j < k + 1 ensures !Empty(Get(input, fields[j])) {
              assert fields[j] == fields[1..][j - 1];
            }
          }
        }
      }
      r
  }

  function MissingFieldError(field: string): Outcome {
    Error("Field " + field + " is required")
  }

  /**
   The `foreach ($required as $field) if (empty($input[$field]))` loop:
   the first empty field, in list order, answers "Field <name> is required".
   */
  function RequireFields(input: Row, fields: seq<string>): (s: Step<bool>)
    ensures s.Next? <==> forall i :: 0 <= i < |fields| ==> !Empty(Get(input, fields[i]))
    ensures s.Halt? ==> exists i :: 0 <= i < |fields| && s.out == MissingFieldError(fields[i]) && Empty(Get(input, fields[i]))
                                    && forall j :: 0 <= j < i ==> !Empty(Get(input, fields[j]))
    ensures s.Halt? ==> !IsSuccess(s.out)
  {
    match FirstMissing(input, fields)
    case None => Next(true)
    case Some(f) => Halt(MissingFieldError(f))
  }

  /** The clamped page, page size and row offset of a listing. */
  datatype Paging = Paging(page: int, limit: int, offset: int)

  /**
   `max(1, intval($q['page'] ?? 1))`, `min(50, max(1, intval($q['limit'] ?? 10)))`
   and `($page - 1) * $limit`: the page is at least 1, the size between 1
   and 50, and an in-range integer request is taken as given.
   */
  function Paginate(query: Row): (p: Paging)
    ensures p.page >= 1 && 1 <= p.limit <= 50
    ensures p.offset == (p.page - 1) * p.limit && p.offset >= 0
    ensures !IsSet(query, "page") ==> p.page == 1
    ensures !IsSet(query, "limit") ==> p.limit == 10
    ensures forall n :: Get(query, "page") == Int(n) && n >= 1 ==> p.page == n
    ensures forall n :: Get(query, "limit") == Int(n) && 1 <= n <= 50 ==> p.limit == n
    ensures IntVal(Coalesce(query, "page", Int(1))) < 1 ==> p.page == 1
    ensures IntVal(Coalesce(query, "limit", Int(10))) > 50 ==> p.limit == 50
  {
    var page := Max(1, IntVal(Coalesce(query, "page", Int(1))));
    var limit := Min(50, Max(1, IntVal(Coalesce(query, "limit", Int(10)))));
    OffsetNonNegative(page - 1, limit);
    Paging(page, limit, (page - 1) * limit)
  }

  /** A row offset, pages before times page size, is never negative. */
  lemma OffsetNonNegative(before: int, limit: int)
    requires before >= 0 && limit >= 1
    ensures before * limit >= 0
  {
  }

  /** `ceil($total / $limit)`: the number of pages of size `limit` that hold `total` rows. */
  function PageCount(total: nat, limit: int): (pages: nat)
    requires limit >= 1
    ensures total == 0 ==> pages == 0
    ensures total > 0 ==> (pages - 1) * limit < total <= pages * limit
  {
    (total + limit - 1) / limit
  }

  /** A list of rows as the JSON array of objects the endpoint answers with. */
  function RowsVal(rows: seq<Row>): (v: Val)
    ensures v.List? && |v.items| == |rows|
    ensures forall i :: 0 <= i < |rows| ==> v.items[i] == Arr(rows[i])
  {
    List(seq(|rows|, i requires 0 <= i < |rows| => Arr(rows[i])))
  }

  /** The `pagination` object of a listing. */
  function PaginationVal(p: Paging, total: nat): Val
    requires p.limit >= 1
  {
    Arr(map["page" := Int(p.page), "limit" := Int(p.limit), "total" := Int(total), "pages" := Int(PageCount(total, p.limit))])
  }

  /**
   The `foreach ($allowedFields as $field) if (isset($input[$field]))` loop
   of an update: the listed fields the input sets, in list order, with the
   input's values.
   */
  function SetFields(input: Row, fields: seq<string>): (a: Assoc)
    ensures |a| <= |fields|
    ensures forall i :: 0 <= i < |a| ==> a[i].0 in fields && IsSet(input, a[i].0) && a[i].1 == input[a[i].0]
  {
    if |fields| == 0 then []
    else
      var head: Assoc := if IsSet(input, fields[0]) then [(fields[0], input[fields[0]])] else [];
      head + SetFields(input, fields[1..])
  }

  /** Every listed field the input sets is copied. */
  lemma {:induction false} SetFieldsComplete(input: Row, fields: seq<string>, k: string)
    requires k in fields && IsSet(input, k)
    ensures exists i :: 0 <= i < |SetFields(input, fields)| && SetFields(input, fields)[i].0 == k
  {
    var a := SetFields(input, fields);
    if fields[0] == k {
      assert a[0].0 == k;
    } else {
      SetFieldsComplete(input, fields[1..], k);
      var rest := SetFields(input, fields[1..]);
      var i :| 0 <= i < |rest| && rest[i].0 == k;
      assert a[|a| - |rest| + i].0 == k;
    }
  }

  /** Distinct field names give distinct keys. */
  lemma {:induction false} SetFieldsDistinct(input: Row, fields: seq<string>)
    requires forall i, j :: 0 <= i < j < |fields| ==> fields[i] != fields[j]
    ensures DistinctKeys(SetFields(input, fields))
  {
    if |fields| > 0 {
      var tail := fields[1..];
      assert forall i, j :: 0 <= i < j < |tail| ==> tail[i] == fields[i + 1] && tail[j] == fields[j + 1];
      SetFieldsDistinct(input, tail);
      assert fields[0] !in tail;
    }
  }

  /** As a row, the copied data is exactly the input restricted to the listed fields it sets. */
  lemma SetFieldsRow(input: Row, fields: seq<string>)
    requires forall i, j :: 0 <= i < j < |fields| ==> fields[i] != fields[j]
    ensures ToRow(SetFields(input, fields)) == map k | k in fields && IsSet(input, k) :: input[k]
    ensures |SetFields(input, fields)| == 0 <==> forall k :: k in fields ==> !IsSet(input, k)
  {
    var a := SetFields(input, fields);
    SetFieldsDistinct(input, fields);
    forall k | k in fields && IsSet(input, k) ensures k in ToRow(a) {
      SetFieldsComplete(input, fields, k);
    }
    if |a| > 0 {
      assert a[0].0 in fields && IsSet(input, a[0].0);
    }
  }
}
