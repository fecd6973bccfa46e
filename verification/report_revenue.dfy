/**
 The revenue statements of Report: the summary of the settled payments in a
 date range with its per-type CASE columns, the same payments grouped by
 period and payment type, and the per-property totals of
 generateRevenueReport. A payment counts when its payment_date lies in the
 range and its status is 'completed'. Amounts are integer cents.
 */
module ReportRevenue {
  import opened Php
  import opened Wrappers
  import opened Rows
  import opened Sql
  import opened BaseModel
  import opened Joins
  import opened Constants
  import opened Aggregates
  import opened MysqlDates
  import PaymentsController

  /** The payment status the revenue statements count. */
  const COMPLETED: string := "completed"

  /** The payment types getRevenueSummary reports separately, each as a `<type>_revenue` column. */
  const SUMMARY_TYPES: seq<string> := ["rent", "deposit", "maintenance", "utility", "other"]

  /** `amount`, in cents. */
  function Amount(): Row -> int {
    Column("amount")
  }

  /** A payment the revenue statements count with status `status`: dated within the range and with that status. */
  predicate Settled(status: string, start: Val, end: Val, row: Row) {
    Within(row, "payment_date", start, end) && Is(row, "status", status)
  }

  function SettledBy(status: string, start: Val, end: Val): Row -> bool {
    row => Settled(status, start, end, row)
  }

  /** `WHERE payment_date BETWEEN ? AND ? AND status = '<status>'`. */
  function RevenueWhere(status: string): (w: seq<Cond>)
    ensures Holes(w) == 2
    ensures forall row: Row, start: Val, end: Val :: Satisfies(row, w, [start, end]) <==> Settled(status, start, end, row)
  {
    var w := [Between("payment_date"), Fixed("status", Eq, Str(status))];
    assert w[1..] == [Fixed("status", Eq, Str(status))] && w[1..][1..] == [];
    assert Holes(w[1..]) == 0 + Holes(w[1..][1..]);
    forall row: Row, start: Val, end: Val ensures Satisfies(row, w, [start, end]) <==> Settled(status, start, end, row) {
      var args := [start, end];
      assert args[..2] == args && args[2..] == [];
      var rest: seq<Val> := [];
      assert rest[..0] == [] && rest[0..] == [];
      assert Satisfies(row, w[1..], rest) <==> CondHolds(row, w[1..][0], rest);
    }
    w
  }

  /** The payments the statement selects: exactly the settled ones, in table order. */
  function Settlements(payments: seq<Row>, status: string, start: Val, end: Val): (r: seq<Row>)
    ensures r == Filter(payments, SettledBy(status, start, end))
  {
    FilterAgree(payments, Matching(RevenueWhere(status), [start, end]), SettledBy(status, start, end));
    Filter(payments, Matching(RevenueWhere(status), [start, end]))
  }

  /** The revenue summary statement, counting the payments with status `status`. */
  function SummaryOf(payments: seq<Row>, status: string, start: Val, end: Val): (r: Row)
    ensures var e := Filter(payments, SettledBy(status, start, end));
            && Get(r, "total_transactions") == Int(|e|)
            && Get(r, "total_revenue") == SumColumn(e, "amount")
            && Get(r, "rent_revenue") == Sum(e, When("payment_type", "rent", Amount()))
            && Get(r, "deposit_revenue") == Sum(e, When("payment_type", "deposit", Amount()))
            && Get(r, "maintenance_revenue") == Sum(e, When("payment_type", "maintenance", Amount()))
            && Get(r, "utility_revenue") == Sum(e, When("payment_type", "utility", Amount()))
            && Get(r, "other_revenue") == Sum(e, When("payment_type", "other", Amount()))
  {
    var e := Settlements(payments, status, start, end);
    map["total_transactions" := Int(|e|),
        "total_revenue" := SumColumn(e, "amount"),
        "rent_revenue" := Sum(e, When("payment_type", "rent", Amount())),
        "deposit_revenue" := Sum(e, When("payment_type", "deposit", Amount())),
        "maintenance_revenue" := Sum(e, When("payment_type", "maintenance", Amount())),
        "utility_revenue" := Sum(e, When("payment_type", "utility", Amount())),
        "other_revenue" := Sum(e, When("payment_type", "other", Amount()))]
  }

  /** Report::getRevenueSummary: the summary of the 'completed' payments dated within the range. */
  function GetRevenueSummary(payments: seq<Row>, start: Val, end: Val): (r: Row)
    ensures r == SummaryOf(payments, COMPLETED, start, end)
  {
    SummaryOf(payments, COMPLETED, start, end)
  }

  /** The summary as evidently intended: counting the payments PaymentsController records, whose status is 'paid'. */
  function CorrectedRevenueSummary(payments: seq<Row>, start: Val, end: Val): (r: Row)
    ensures r == SummaryOf(payments, PAYMENT_PAID, start, end)
  {
    SummaryOf(payments, PAYMENT_PAID, start, end)
  }

  lemma SummaryTypesDistinct()
    ensures Distinct(SUMMARY_TYPES)
  {
  }

  /** The five CASE columns, added, are the CASE totals over SUMMARY_TYPES. */
  lemma {:induction false} FiveColumns(e: seq<Row>)
    ensures CaseTotals(e, "payment_type", SUMMARY_TYPES, Amount())
            == Total(e, When("payment_type", "rent", Amount())) + Total(e, When("payment_type", "deposit", Amount()))
               + Total(e, When("payment_type", "maintenance", Amount())) + Total(e, When("payment_type", "utility", Amount()))
               + Total(e, When("payment_type", "other", Amount()))
  {
    var v := SUMMARY_TYPES;
    assert v[0] == "rent" && v[1..][0] == "deposit" && v[1..][1..][0] == "maintenance";
    assert v[1..][1..][1..][0] == "utility" && v[1..][1..][1..][1..][0] == "other";
    assert v[1..][1..][1..][1..][1..] == [];
    var f := Amount();
    var c := "payment_type";
    var v1, v2, v3, v4 := v[1..], v[1..][1..], v[1..][1..][1..], v[1..][1..][1..][1..];
    assert CaseTotals(e, c, v4, f) == Total(e, When(c, "other", f)) + CaseTotals(e, c, v4[1..], f);
    assert CaseTotals(e, c, v3, f) == Total(e, When(c, "utility", f)) + CaseTotals(e, c, v4, f);
    assert CaseTotals(e, c, v2, f) == Total(e, When(c, "maintenance", f)) + CaseTotals(e, c, v3, f);
    assert CaseTotals(e, c, v1, f) == Total(e, When(c, "deposit", f)) + CaseTotals(e, c, v2, f);
    assert CaseTotals(e, c, v, f) == Total(e, When(c, "rent", f)) + CaseTotals(e, c, v1, f);
  }

  /**
   When every counted payment has one of the five summary types, the five
   per-type columns add up to total_revenue (NULL reading as 0, as it does
   when no payment is counted).
   */
  lemma {:induction false} TypeSumsAddUp(payments: seq<Row>, status: string, start: Val, end: Val)
    requires forall x :: x in payments && Settled(status, start, end, x) ==> OneOf(x, "payment_type", SUMMARY_TYPES)
    ensures var r := SummaryOf(payments, status, start, end);
            Number(Get(r, "rent_revenue")) + Number(Get(r, "deposit_revenue")) + Number(Get(r, "maintenance_revenue"))
            + Number(Get(r, "utility_revenue")) + Number(Get(r, "other_revenue"))
            == Number(Get(r, "total_revenue"))
  {
    var e := Filter(payments, SettledBy(status, start, end));
    assert forall i :: 0 <= i < |e| ==> OneOf(e[i], "payment_type", SUMMARY_TYPES) by {
      forall i | 0 <= i < |e| ensures OneOf(e[i], "payment_type", SUMMARY_TYPES) {
        assert e[i] in e;
      }
    }
    SummaryTypesDistinct();
    CasesCoverAll(e, "payment_type", SUMMARY_TYPES, Amount());
    FiveColumns(e);
    SummaryNumbers(payments, status, start, end);
  }

  /** Read as numbers, the summary's revenue columns are the totals over the payments it counts. */
  lemma SummaryNumbers(payments: seq<Row>, status: string, start: Val, end: Val)
    ensures var r := SummaryOf(payments, status, start, end);
            var e := Filter(payments, SettledBy(status, start, end));
            && Number(Get(r, "total_revenue")) == Total(e, Amount())
            && Number(Get(r, "rent_revenue")) == Total(e, When("payment_type", "rent", Amount()))
            && Number(Get(r, "deposit_revenue")) == Total(e, When("payment_type", "deposit", Amount()))
            && Number(Get(r, "maintenance_revenue")) == Total(e, When("payment_type", "maintenance", Amount()))
            && Number(Get(r, "utility_revenue")) == Total(e, When("payment_type", "utility", Amount()))
            && Number(Get(r, "other_revenue")) == Total(e, When("payment_type", "other", Amount()))
  {
    var e := Filter(payments, SettledBy(status, start, end));
    TotalOfNulls(e, "amount");
    SumNumber(e, When("payment_type", "rent", Amount()));
    SumNumber(e, When("payment_type", "deposit", Amount()));
    SumNumber(e, When("payment_type", "maintenance", Amount()));
    SumNumber(e, When("payment_type", "utility", Amount()));
    SumNumber(e, When("payment_type", "other", Amount()));
  }

  /**
   No payment the schema admits is ever counted: the payments table's
   status is one of pending, paid, overdue and cancelled, never
   'completed', so the summary reports no transactions and a NULL revenue.
   */
  lemma {:induction false} CompletedNeverStored(payments: seq<Row>, start: Val, end: Val)
    requires forall i :: 0 <= i < |payments| ==> OneOf(payments[i], "status", PAYMENT_STATUSES)
    ensures Get(GetRevenueSummary(payments, start, end), "total_transactions") == Int(0)
    ensures Get(GetRevenueSummary(payments, start, end), "total_revenue") == Null
  {
    forall i | 0 <= i < |payments| ensures !SettledBy(COMPLETED, start, end)(payments[i]) {
      assert !Is(payments[i], "status", COMPLETED);
    }
    FilterNone(payments, SettledBy(COMPLETED, start, end));
  }

  /** The payment row store adds: the new payment under its id. */
  function Recorded(t: Table, input: Row, receipt: string, createdBy: Val, cents: Val -> int): Row {
    PaymentsController.NewPayment(input, receipt, createdBy, cents)[PRIMARY_KEY := Int(t.nextId)]
  }

  /** A recorded payment carries the payment date it was given and the status 'paid'. */
  lemma RecordedFields(t: Table, input: Row, receipt: string, createdBy: Val, cents: Val -> int)
    ensures Get(Recorded(t, input, receipt, createdBy, cents), "status") == Str(PAYMENT_PAID)
    ensures Get(Recorded(t, input, receipt, createdBy, cents), "payment_date") == Get(input, "payment_date")
  {
    var row := PaymentsController.NewPayment(input, receipt, createdBy, cents);
    PaymentsController.NewPaymentShape(input, receipt, createdBy, cents);
    assert PaymentsController.PAYMENT_COLUMNS[6] == "payment_date";
    assert PaymentsController.REQUIRED_FIELDS[6] == "payment_date";
    assert "payment_date" in row;
  }

  /** Appending one row to a table's rows adds it to a filter exactly when it satisfies the predicate. */
  lemma FilterSnoc(rows: seq<Row>, x: Row, p: Row -> bool)
    ensures Filter(rows + [x], p) == Filter(rows, p) + (if p(x) then [x] else [])
  {
    FilterAppend(rows, [x], p);
    assert [x][1..] == [];
  }

  /**
   A payment recorded through PaymentsController::store never shows in the
   revenue summary: it is stored as 'paid', and the summary counts only
   'completed' payments.
   */
  lemma {:induction false} RecordedPaymentNotCounted(t: Table, input: Row, receipt: string, createdBy: Val, cents: Val -> int,
                                                      start: Val, end: Val)
    ensures var after := Add(t, PaymentsController.NewPayment(input, receipt, createdBy, cents)).0;
            GetRevenueSummary(after.rows, start, end) == GetRevenueSummary(t.rows, start, end)
  {
    var x := Recorded(t, input, receipt, createdBy, cents);
    var after := Add(t, PaymentsController.NewPayment(input, receipt, createdBy, cents)).0;
    assert after.rows == t.rows + [x];
    RecordedFields(t, input, receipt, createdBy, cents);
    assert !Is(x, "status", COMPLETED);
    FilterSnoc(t.rows, x, SettledBy(COMPLETED, start, end));
    SameSettledSameSummary(after.rows, t.rows, COMPLETED, start, end);
  }

  /** The summary depends only on the payments it counts. */
  lemma SameSettledSameSummary(a: seq<Row>, b: seq<Row>, status: string, start: Val, end: Val)
    requires Filter(a, SettledBy(status, start, end)) == Filter(b, SettledBy(status, start, end))
    ensures SummaryOf(a, status, start, end) == SummaryOf(b, status, start, end)
  {
  }

  /**
   Counting 'paid' payments instead, a payment recorded through store with a
   payment date in the range adds one transaction and its amount.
   */
  lemma {:induction false} RecordedPaymentCounted(t: Table, input: Row, receipt: string, createdBy: Val, cents: Val -> int,
                                                   start: Val, end: Val)
    requires Within(input, "payment_date", start, end)
    ensures var after := Add(t, PaymentsController.NewPayment(input, receipt, createdBy, cents)).0;
            var x := Recorded(t, input, receipt, createdBy, cents);
            && Get(CorrectedRevenueSummary(after.rows, start, end), "total_transactions").i
               == Get(CorrectedRevenueSummary(t.rows, start, end), "total_transactions").i + 1
            && Number(Get(CorrectedRevenueSummary(after.rows, start, end), "total_revenue"))
               == Number(Get(CorrectedRevenueSummary(t.rows, start, end), "total_revenue")) + Amount()(x)
  {
    var x := Recorded(t, input, receipt, createdBy, cents);
    RecordedFields(t, input, receipt, createdBy, cents);
    assert Settled(PAYMENT_PAID, start, end, x);
    var e := Filter(t.rows, SettledBy(PAYMENT_PAID, start, end));
    FilterSnoc(t.rows, x, SettledBy(PAYMENT_PAID, start, end));
    TotalAppend(e, [x], Amount());
    assert Total([x], Amount()) == Amount()(x) by {
      assert [x][1..] == [];
    }
    TotalOfNulls(e, "amount");
    TotalOfNulls(e + [x], "amount");
  }

  /** The group-by format of getRevenueReport: day, week, month and year by strict match, month otherwise. */
  function GroupFormat(groupBy: Val): (f: string)
    ensures KnownFormat(f)
  {
    if groupBy == Str("day") then DAY_FORMAT
    else if groupBy == Str("week") then WEEK_FORMAT
    else if groupBy == Str("month") then MONTH_FORMAT
    else if groupBy == Str("year") then YEAR_FORMAT
    else MONTH_FORMAT
  }

  /** Each grouping gets its own format, and every other value groups by month. */
  lemma GroupFormatChoices(groupBy: Val)
    ensures GroupFormat(groupBy) == DAY_FORMAT <==> groupBy == Str("day")
    ensures GroupFormat(groupBy) == WEEK_FORMAT <==> groupBy == Str("week")
    ensures GroupFormat(groupBy) == YEAR_FORMAT <==> groupBy == Str("year")
    ensures GroupFormat(groupBy) == MONTH_FORMAT <==> groupBy !in {Str("day"), Str("week"), Str("year")}
  {
  }

  /** The GROUP BY key of getRevenueReport: the period of the payment date, and the payment type. */
  function PeriodKey(format: string): Row -> Val
    requires KnownFormat(format)
  {
    x => List([DateFormat(Get(x, "payment_date"), format), Get(x, "payment_type")])
  }

  /** One row of getRevenueReport: a group's period and type, its number of payments and their total. */
  function PeriodRow(format: string, g: seq<Row>): Row
    requires KnownFormat(format) && |g| > 0
  {
    map["period" := DateFormat(Get(g[0], "payment_date"), format),
        "payment_type" := Get(g[0], "payment_type"),
        "transaction_count" := Int(|g|),
        "total_amount" := SumColumn(g, "amount")]
  }

  function PeriodRows(format: string, gs: seq<seq<Row>>): (r: seq<Row>)
    requires KnownFormat(format) && forall i :: 0 <= i < |gs| ==> |gs[i]| > 0
    ensures |r| == |gs|
    ensures forall i :: 0 <= i < |gs| ==> r[i] == PeriodRow(format, gs[i])
  {
    if |gs| == 0 then [] else [PeriodRow(format, gs[0])] + PeriodRows(format, gs[1..])
  }

  /** Report::getRevenueReport: the settled payments of the range grouped by period and payment type. */
  function GetRevenueReport(payments: seq<Row>, start: Val, end: Val, groupBy: Val := Str("month")): (r: seq<Row>)
    ensures forall i :: 0 <= i < |r| ==> Get(r[i], "transaction_count").Int? && Get(r[i], "transaction_count").i >= 1
  {
    var format := GroupFormat(groupBy);
    PeriodRows(format, Groups(Settlements(payments, COMPLETED, start, end), PeriodKey(format)))
  }

  /** The report rows' counts and totals add up over the groups. */
  lemma {:induction false} PeriodRowsAddUp(format: string, gs: seq<seq<Row>>)
    requires KnownFormat(format) && forall i :: 0 <= i < |gs| ==> |gs[i]| > 0
    ensures Total(PeriodRows(format, gs), Column("transaction_count")) == Sizes(gs)
    ensures Total(PeriodRows(format, gs), Column("total_amount")) == Totals(gs, Amount())
  {
    if |gs| > 0 {
      assert forall i :: 0 <= i < |gs| - 1 ==> gs[1..][i] == gs[i + 1];
      PeriodRowsAddUp(format, gs[1..]);
      PeriodRowCounts(format, gs[0]);
      PeriodRowsTotal(format, gs, Column("transaction_count"));
      PeriodRowsTotal(format, gs, Column("total_amount"));
    }
  }

  /** A period row counts its group's payments and totals their amounts. */
  lemma PeriodRowCounts(format: string, g: seq<Row>)
    requires KnownFormat(format) && |g| > 0
    ensures Column("transaction_count")(PeriodRow(format, g)) == |g|
    ensures Column("total_amount")(PeriodRow(format, g)) == Total(g, Amount())
  {
    TotalOfNulls(g, "amount");
  }

  /** Summing over the period rows splits into the first group's row and the rest. */
  lemma PeriodRowsTotal(format: string, gs: seq<seq<Row>>, f: Row -> int)
    requires KnownFormat(format) && |gs| > 0 && forall i :: 0 <= i < |gs| ==> |gs[i]| > 0
    ensures Total(PeriodRows(format, gs), f) == f(PeriodRow(format, gs[0])) + Total(PeriodRows(format, gs[1..]), f)
  {
    assert PeriodRows(format, gs)[1..] == PeriodRows(format, gs[1..]);
  }

  /**
   The detailed report agrees with the summary: its transaction counts add
   up to total_transactions and its totals to total_revenue, for every
   grouping.
   */
  lemma {:induction false} RevenueReportMatchesSummary(payments: seq<Row>, start: Val, end: Val, groupBy: Val)
    ensures var r := GetRevenueReport(payments, start, end, groupBy);
            var s := GetRevenueSummary(payments, start, end);
            && Total(r, Column("transaction_count")) == Number(Get(s, "total_transactions"))
            && Total(r, Column("total_amount")) == Number(Get(s, "total_revenue"))
  {
    var format := GroupFormat(groupBy);
    var e := Settlements(payments, COMPLETED, start, end);
    var gs := Groups(e, PeriodKey(format));
    PeriodRowsAddUp(format, gs);
    GroupsPartition(e, PeriodKey(format), Amount());
    TotalOfNulls(e, "amount");
  }

  /** No two rows of the detailed report share a period and a payment type. */
  lemma {:induction false} RevenueReportKeysDistinct(payments: seq<Row>, start: Val, end: Val, groupBy: Val)
    ensures var r := GetRevenueReport(payments, start, end, groupBy);
            forall i, j :: 0 <= i < j < |r| ==>
              Get(r[i], "period") != Get(r[j], "period") || Get(r[i], "payment_type") != Get(r[j], "payment_type")
  {
    var format := GroupFormat(groupBy);
    var e := Settlements(payments, COMPLETED, start, end);
    var gs := Groups(e, PeriodKey(format));
    GroupKeysDistinct(e, PeriodKey(format));
    var r := PeriodRows(format, gs);
    forall i, j | 0 <= i < j < |r|
      ensures Get(r[i], "period") != Get(r[j], "period") || Get(r[i], "payment_type") != Get(r[j], "payment_type") {
      KeyOfRow(format, gs[i]);
      KeyOfRow(format, gs[j]);
    }
  }

  /** A report row shows its group's key. */
  lemma KeyOfRow(format: string, g: seq<Row>)
    requires KnownFormat(format) && |g| > 0
    ensures PeriodKey(format)(g[0]) == List([Get(PeriodRow(format, g), "period"), Get(PeriodRow(format, g), "payment_type")])
  {
  }

  /** `JOIN properties p ON pm.property_id = p.id`, selecting the property's id, name and city. */
  function PropertyJoin(properties: Table): Join {
    Join(properties, "property_id", [("p.id", PRIMARY_KEY), ("property_name", "name"), ("city", "city")], true)
  }

  /** The join adds none of the payment columns the statement tests or counts. */
  lemma PropertyJoinKeeps(properties: Table)
    ensures NoAlias([PropertyJoin(properties)], "payment_date") && NoAlias([PropertyJoin(properties)], "status")
    ensures NoAlias([PropertyJoin(properties)], "property_id") && NoAlias([PropertyJoin(properties)], PRIMARY_KEY)
  {
  }

  /** A payment generateRevenueReport counts: settled, and on the property asked for when one is given. */
  predicate SettledAt(start: Val, end: Val, propertyId: Val, row: Row) {
    Settled(COMPLETED, start, end, row) && (Truthy(propertyId) ==> Holds(Get(row, "property_id"), Eq, propertyId))
  }

  function SettledAtBy(start: Val, end: Val, propertyId: Val): Row -> bool {
    row => SettledAt(start, end, propertyId, row)
  }

  /**
   generateRevenueReport's WHERE clause and parameters: the date range, and
   `pm.property_id = ?` with its parameter only when propertyId is truthy.
   */
  function PropertyRevenueWhere(start: Val, end: Val, propertyId: Val): (r: (seq<Cond>, seq<Val>))
    ensures Holes(r.0) == |r.1|
    ensures r.1 == if Truthy(propertyId) then [start, end, propertyId] else [start, end]
    ensures forall row: Row :: Satisfies(row, r.0, r.1) <==> SettledAt(start, end, propertyId, row)
  {
    var extra := Optional(Truthy(propertyId), Bound("property_id", Eq), propertyId);
    forall row: Row ensures Holes(RevenueWhere(COMPLETED) + extra.0) == |[start, end] + extra.1|
      && (Satisfies(row, RevenueWhere(COMPLETED) + extra.0, [start, end] + extra.1) <==> SettledAt(start, end, propertyId, row)) {
      SatisfiesAppend(row, RevenueWhere(COMPLETED), extra.0, [start, end], extra.1);
      assert [propertyId][..1] == [propertyId];
    }
    HolesAppend(RevenueWhere(COMPLETED), extra.0);
    (RevenueWhere(COMPLETED) + extra.0, [start, end] + extra.1)
  }

  /** One row of generateRevenueReport: the property's name and city, its number of payments and their total. */
  function PropertyRevenueRow(g: seq<Row>): Row
    requires |g| > 0
  {
    map["property_name" := Get(g[0], "property_name"),
        "city" := Get(g[0], "city"),
        "total_payments" := Int(|Filter(g, NonNull(PRIMARY_KEY))|),
        "total_revenue" := SumColumn(g, "amount")]
  }

  function PropertyRevenueRows(gs: seq<seq<Row>>): (r: seq<Row>)
    requires forall i :: 0 <= i < |gs| ==> |gs[i]| > 0
    ensures |r| == |gs|
    ensures forall i :: 0 <= i < |gs| ==> r[i] == PropertyRevenueRow(gs[i])
  {
    if |gs| == 0 then [] else [PropertyRevenueRow(gs[0])] + PropertyRevenueRows(gs[1..])
  }

  /** The GROUP BY key of generateRevenueReport: the property's id. */
  function PropertyKey(): Row -> Val {
    x => Get(x, "p.id")
  }

  /** The joined payments generateRevenueReport selects, before grouping. */
  function PropertyRevenueRowsSelected(payments: Table, properties: Table, start: Val, end: Val, propertyId: Val): seq<Row> {
    var (w, params) := PropertyRevenueWhere(start, end, propertyId);
    Filter(Joined(payments.rows, [PropertyJoin(properties)]), Matching(w, params))
  }

  /** Report::generateRevenueReport: the settled payments, on one property when one is given, totalled per property. */
  function GenerateRevenueReport(payments: Table, properties: Table, start: Val, end: Val, propertyId: Val := Null): (r: seq<Row>)
    ensures forall i :: 0 <= i < |r| ==> "total_payments" in r[i] && "total_revenue" in r[i]
  {
    var selected := PropertyRevenueRowsSelected(payments, properties, start, end, propertyId);
    var gs := Groups(selected, PropertyKey());
    var rows := PropertyRevenueRows(gs);
    forall i | 0 <= i < |rows| ensures "total_payments" in rows[i] && "total_revenue" in rows[i] {
      var row := PropertyRevenueRow(gs[i]);
      assert rows[i] == row && "total_payments" in row && "total_revenue" in row;
    }
    rows
  }

  /** With every row of every group carrying an id, the payment counts add up to the number of rows grouped. */
  lemma {:induction false} PropertyRowsCount(gs: seq<seq<Row>>)
    requires forall i :: 0 <= i < |gs| ==> |gs[i]| > 0
    requires forall i, x :: 0 <= i < |gs| && x in gs[i] ==> Get(x, PRIMARY_KEY) != Null
    ensures Total(PropertyRevenueRows(gs), Column("total_payments")) == Sizes(gs)
  {
    if |gs| > 0 {
      assert forall i :: 0 <= i < |gs| - 1 ==> gs[1..][i] == gs[i + 1];
      PropertyRowsCount(gs[1..]);
      assert forall k :: 0 <= k < |gs[0]| ==> gs[0][k] in gs[0];
      FilterAll(gs[0], NonNull(PRIMARY_KEY));
      assert PropertyRevenueRows(gs)[1..] == PropertyRevenueRows(gs[1..]);
    }
  }

  /** The WHERE clause reads only payment columns, which the property join leaves as they are. */
  lemma {:induction false} SelectedBeforeJoin(payments: Table, properties: Table, start: Val, end: Val, propertyId: Val)
    ensures PropertyRevenueRowsSelected(payments, properties, start, end, propertyId)
            == Joined(Filter(payments.rows, SettledAtBy(start, end, propertyId)), [PropertyJoin(properties)])
  {
    var (w, params) := PropertyRevenueWhere(start, end, propertyId);
    var js := [PropertyJoin(properties)];
    var rows := payments.rows;
    forall i | 0 <= i < |rows| && JoinAll(rows[i], js).Some?
      ensures Matching(w, params)(JoinAll(rows[i], js).value) == Matching(w, params)(rows[i]) {
      SettledAtIgnoresJoin(properties, start, end, propertyId, rows[i]);
    }
    FilterJoined(rows, js, Matching(w, params));
    FilterAgree(rows, Matching(w, params), SettledAtBy(start, end, propertyId));
  }

  /** Joining a payment's property changes neither its date, its status nor its property, so not whether it is counted. */
  lemma SettledAtIgnoresJoin(properties: Table, start: Val, end: Val, propertyId: Val, row: Row)
    requires JoinAll(row, [PropertyJoin(properties)]).Some?
    ensures SettledAt(start, end, propertyId, JoinAll(row, [PropertyJoin(properties)]).value) == SettledAt(start, end, propertyId, row)
  {
    var js := [PropertyJoin(properties)];
    var joined := JoinAll(row, js).value;
    PropertyJoinKeeps(properties);
    JoinKeeps(row, js, "payment_date");
    JoinKeeps(row, js, "status");
    JoinKeeps(row, js, "property_id");
    assert Within(joined, "payment_date", start, end) == Within(row, "payment_date", start, end);
    assert Is(joined, "status", COMPLETED) == Is(row, "status", COMPLETED);
    assert Holds(Get(joined, "property_id"), Eq, propertyId) == Holds(Get(row, "property_id"), Eq, propertyId);
  }

  /**
   When every payment has an id and its property exists, the per-property
   payment counts of generateRevenueReport add up to the number of settled
   payments in the range, on the property asked for when one is given.
   */
  lemma {:induction false} PropertyRevenueCounts(payments: Table, properties: Table, start: Val, end: Val, propertyId: Val)
    requires forall i :: 0 <= i < |payments.rows| ==> Get(payments.rows[i], PRIMARY_KEY) != Null
    requires forall i :: 0 <= i < |payments.rows| ==> JoinAll(payments.rows[i], [PropertyJoin(properties)]).Some?
    ensures Total(GenerateRevenueReport(payments, properties, start, end, propertyId), Column("total_payments"))
            == |Filter(payments.rows, SettledAtBy(start, end, propertyId))|
  {
    var js := [PropertyJoin(properties)];
    var kept := Filter(payments.rows, SettledAtBy(start, end, propertyId));
    var selected := PropertyRevenueRowsSelected(payments, properties, start, end, propertyId);
    SelectedBeforeJoin(payments, properties, start, end, propertyId);
    assert forall i :: 0 <= i < |kept| ==> kept[i] in payments.rows by {
      forall i | 0 <= i < |kept| ensures kept[i] in payments.rows {
        assert kept[i] in kept;
      }
    }
    JoinedKeepsAll(kept, js);
    PropertyJoinKeeps(properties);
    forall x | x in selected ensures Get(x, PRIMARY_KEY) != Null {
      JoinedFrom(kept, js, x);
      var row :| row in kept && JoinAll(row, js) == Some(x);
      JoinKeeps(row, js, PRIMARY_KEY);
    }
    var gs := Groups(selected, PropertyKey());
    PropertyRowsCount(gs);
    GroupsPartition(selected, PropertyKey(), Amount());
  }
}
