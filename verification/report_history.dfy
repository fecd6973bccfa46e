/**
 Report::getTenantPaymentHistory: one tenancy's payments with the name of
 the property and of the tenant, optionally narrowed to a payment-date
 range. The statement inner-joins the tenancy, the property and the
 tenancy's user; inner joins do not depend on their order, so the model
 joins them in the order of Payment::getAllPayments, which selects the same
 two names. `pay.*` does not include the tenancy's user_id the joins carry.
 */
module ReportHistory {
  import opened Php
  import opened Wrappers
  import opened Rows
  import opened Sql
  import opened BaseModel
  import opened Joins
  import opened Store
  import opened Aggregates
  import ReportOccupancy
  import PaymentModel

  /** What the WHERE clause keeps: the tenancy's payments, and with both dates only those dated in the range. */
  predicate InHistory(tenantId: Val, start: Val, end: Val, row: Row) {
    PaymentModel.OfTenancy(tenantId, row) && (ReportOccupancy.Dated(start, end) ==> Within(row, "payment_date", start, end))
  }

  function InHistoryBy(tenantId: Val, start: Val, end: Val): Row -> bool {
    row => InHistory(tenantId, start, end, row)
  }

  /**
   The WHERE clause with its parameters: `pay.tenant_id = ?` bound to the
   tenancy, then `pay.payment_date BETWEEN ? AND ?` bound to the two dates
   only when both are given (PHP's `$startDate && $endDate`).
   */
  function HistoryWhere(tenantId: Val, start: Val, end: Val): (r: (seq<Cond>, seq<Val>))
    ensures Holes(r.0) == |r.1|
    ensures r.1 == if ReportOccupancy.Dated(start, end) then [tenantId, start, end] else [tenantId]
    ensures forall row: Row :: Satisfies(row, r.0, r.1) <==> InHistory(tenantId, start, end, row)
  {
    var w1, a1 := [Bound("tenant_id", Eq)], [tenantId];
    var dated := ReportOccupancy.Dated(start, end);
    var w2: seq<Cond> := if dated then [Between("payment_date")] else [];
    var a2: seq<Val> := if dated then [start, end] else [];
    assert w1[1..] == [] && a1[..1] == a1 && a1[1..] == [];
    assert |w2| > 0 ==> w2[1..] == [] && a2[..2] == a2 && a2[2..] == [];
    forall row: Row ensures Satisfies(row, w1 + w2, a1 + a2) <==> InHistory(tenantId, start, end, row) {
      SatisfiesAppend(row, w1, w2, a1, a2);
    }
    HolesAppend(w1, w2);
    (w1 + w2, a1 + a2)
  }

  /** The joins of the statement: the tenancy's user_id, the user's name as tenant_name, the property's name as property_name. */
  function HistoryJoins(db: Db): seq<Join> {
    PaymentModel.ListJoins(db)
  }

  /** The joins add none of the columns the WHERE clause tests. */
  lemma HistoryJoinsKeep(db: Db)
    ensures NoAlias(HistoryJoins(db), "tenant_id") && NoAlias(HistoryJoins(db), "payment_date")
  {
  }

  /** The columns `pay.*, p.name AS property_name, u.full_name AS tenant_name` select from a joined row. */
  function Selected(x: Row): (r: Row)
    ensures "user_id" !in r
    ensures forall k :: k in x && k != "user_id" ==> k in r && r[k] == x[k]
  {
    x - {"user_id"}
  }

  /** The joined payments the WHERE clause keeps, before the selection of columns. */
  function HistoryRows(db: Db, tenantId: Val, start: Val, end: Val): (r: seq<Row>)
    ensures r == Filter(Joined(db.payments.rows, HistoryJoins(db)), InHistoryBy(tenantId, start, end))
  {
    var (w, a) := HistoryWhere(tenantId, start, end);
    var joined := Joined(db.payments.rows, HistoryJoins(db));
    FilterAgree(joined, Matching(w, a), InHistoryBy(tenantId, start, end));
    Filter(joined, Matching(w, a))
  }

  /**
   Report::getTenantPaymentHistory: the kept joined payments with their
   selected columns, in storage order (the ORDER BY is not applied).
   */
  function GetTenantPaymentHistory(db: Db, tenantId: Val, start: Val := Null, end: Val := Null): (r: seq<Row>)
    ensures |r| == |HistoryRows(db, tenantId, start, end)|
    ensures forall i :: 0 <= i < |r| ==> r[i] == Selected(HistoryRows(db, tenantId, start, end)[i])
  {
    SelectedAll(HistoryRows(db, tenantId, start, end))
  }

  /** The selected columns of each row, in order. */
  function SelectedAll(rows: seq<Row>): (r: seq<Row>)
    ensures |r| == |rows|
    ensures forall i :: 0 <= i < |r| ==> r[i] == Selected(rows[i])
  {
    seq(|rows|, i requires 0 <= i < |rows| => Selected(rows[i]))
  }

  /**
   Every row of the history is one of the tenancy's payments, joined: its
   tenant_id matches the tenancy, and with both dates its payment_date lies
   in the range.
   */
  lemma {:induction false} HistoryIsTheTenancys(db: Db, tenantId: Val, start: Val, end: Val)
    ensures var r := GetTenantPaymentHistory(db, tenantId, start, end);
            forall i :: 0 <= i < |r| ==>
              && PaymentModel.OfTenancy(tenantId, r[i])
              && (ReportOccupancy.Dated(start, end) ==> Within(r[i], "payment_date", start, end))
  {
    var kept := HistoryRows(db, tenantId, start, end);
    var r := GetTenantPaymentHistory(db, tenantId, start, end);
    forall i | 0 <= i < |r|
      ensures PaymentModel.OfTenancy(tenantId, r[i]) && (ReportOccupancy.Dated(start, end) ==> Within(r[i], "payment_date", start, end)) {
      assert kept[i] in kept;
      SelectedStaysInHistory(tenantId, start, end, kept[i]);
    }
  }

  /** Selecting the columns keeps a row in the history: the tenancy and the date survive. */
  lemma SelectedStaysInHistory(tenantId: Val, start: Val, end: Val, x: Row)
    requires InHistory(tenantId, start, end, x)
    ensures InHistory(tenantId, start, end, Selected(x))
  {
    assert Get(Selected(x), "tenant_id") == Get(x, "tenant_id");
    assert Get(Selected(x), "payment_date") == Get(x, "payment_date");
  }

  /** The WHERE clause tests only payment columns, so it can be applied before the joins. */
  lemma {:induction false} HistoryBeforeJoin(db: Db, tenantId: Val, start: Val, end: Val)
    ensures HistoryRows(db, tenantId, start, end) == Joined(Filter(db.payments.rows, InHistoryBy(tenantId, start, end)), HistoryJoins(db))
  {
    var js := HistoryJoins(db);
    var rows := db.payments.rows;
    var p := InHistoryBy(tenantId, start, end);
    HistoryJoinsKeep(db);
    forall i | 0 <= i < |rows| && JoinAll(rows[i], js).Some?
      ensures p(JoinAll(rows[i], js).value) == p(rows[i]) {
      InHistoryIgnoresJoin(js, tenantId, start, end, rows[i]);
    }
    FilterJoined(rows, js, p);
  }

  /** Joins that add neither tenant_id nor payment_date do not change whether a payment is in the history. */
  lemma InHistoryIgnoresJoin(js: seq<Join>, tenantId: Val, start: Val, end: Val, row: Row)
    requires JoinAll(row, js).Some? && NoAlias(js, "tenant_id") && NoAlias(js, "payment_date")
    ensures InHistory(tenantId, start, end, JoinAll(row, js).value) == InHistory(tenantId, start, end, row)
  {
    JoinKeeps(row, js, "tenant_id");
    JoinKeeps(row, js, "payment_date");
    InHistoryByColumns(tenantId, start, end, JoinAll(row, js).value, row);
  }

  /** Whether a row is in the history depends only on its tenant_id and payment_date. */
  lemma InHistoryByColumns(tenantId: Val, start: Val, end: Val, x: Row, y: Row)
    requires Get(x, "tenant_id") == Get(y, "tenant_id") && Get(x, "payment_date") == Get(y, "payment_date")
    ensures InHistory(tenantId, start, end, x) == InHistory(tenantId, start, end, y)
  {
  }

  /**
   While every payment has its tenancy, user and property (what the foreign
   keys guarantee), the history lists every payment of the tenancy in the
   range: as many rows as there are such payments.
   */
  lemma {:induction false} HistoryCountsPayments(db: Db, tenantId: Val, start: Val, end: Val)
    requires PaymentModel.PartnersExist(db)
    ensures |GetTenantPaymentHistory(db, tenantId, start, end)| == |Filter(db.payments.rows, InHistoryBy(tenantId, start, end))|
  {
    HistoryBeforeJoin(db, tenantId, start, end);
    var kept := Filter(db.payments.rows, InHistoryBy(tenantId, start, end));
    FilterKeepsJoinable(db.payments.rows, InHistoryBy(tenantId, start, end), HistoryJoins(db));
    JoinedKeepsAll(kept, HistoryJoins(db));
  }

  /**
   Without both dates the history is the tenancy's whole payment list: as
   many rows as Payment::countPaymentsByTenant counts, the foreign keys
   holding.
   */
  lemma {:induction false} UndatedHistoryIsWholeList(db: Db, tenantId: Val, start: Val, end: Val)
    requires PaymentModel.PartnersExist(db) && !ReportOccupancy.Dated(start, end)
    ensures |GetTenantPaymentHistory(db, tenantId, start, end)| == PaymentModel.CountPaymentsByTenant(db, tenantId)
  {
    HistoryCountsPayments(db, tenantId, start, end);
    FilterAgree(db.payments.rows, InHistoryBy(tenantId, start, end), PaymentModel.OfTenancyBy(tenantId));
  }

  /** Giving both dates never adds a row: the dated history is at most as long as the undated one. */
  lemma {:induction false} DatesOnlyNarrow(db: Db, tenantId: Val, start: Val, end: Val)
    ensures |GetTenantPaymentHistory(db, tenantId, start, end)| <= |GetTenantPaymentHistory(db, tenantId)|
  {
    var joined := Joined(db.payments.rows, HistoryJoins(db));
    FilterWeaker(joined, InHistoryBy(tenantId, start, end), InHistoryBy(tenantId, Null, Null));
  }
}
