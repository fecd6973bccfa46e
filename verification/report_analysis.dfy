/**
 Report::generatePaymentAnalysis and Report::getDashboardStats: the payments
 of the last months grouped by calendar month, and the single row of
 counters the dashboard shows. CURDATE() is the parameter `today`. Both
 statements test the status 'completed', which the payments table never
 holds; the corrected variants test 'paid', the status PaymentsController
 records.
 */
module ReportAnalysis {
  import opened Php
  import opened Wrappers
  import opened Rows
  import opened Sql
  import opened BaseModel
  import opened Constants
  import opened Store
  import opened Aggregates
  import opened Dates
  import opened MysqlDates
  import ReportRevenue
  import ReportOccupancy
  import PaymentModel

  // ---------------------------------------------------------------- payment analysis

  /** `DATE_SUB(CURDATE(), INTERVAL months MONTH)` as the value payment_date is compared with: its 'Y-m-d' text, or NULL. */
  function Cutoff(today: Date, months: int): (v: Val)
    requires InRange(today)
    ensures v.Null? <==> DateSubMonths(today, months).None?
    ensures v.Str? ==> IsValidDate(v.s) && DateOf(v.s) == DateSubMonths(today, months).value
  {
    match DateSubMonths(today, months)
    case Some(d) =>
      FormatIsValid(d);
      ParseFormat(d);
      Str(Format(d))
    case None => Null
  }

  /** `payment_date >= cutoff`. */
  function RecentBy(cutoff: Val): Row -> bool {
    x => Holds(Get(x, "payment_date"), Ge, cutoff)
  }

  /** The GROUP BY key: `DATE_FORMAT(payment_date, '%Y-%m')`. */
  function MonthKey(): Row -> Val {
    x => DateFormat(Get(x, "payment_date"), MONTH_FORMAT)
  }

  /** One row of the analysis: a month, its number of payments, their total, and the totals of the settled and the pending ones. */
  function MonthRow(g: seq<Row>, settled: string): (r: Row)
    requires |g| > 0
    ensures Get(r, "month") == MonthKey()(g[0])
    ensures Get(r, "payment_count") == Int(|g|)
    ensures Get(r, "total_amount") == SumColumn(g, "amount")
    ensures Get(r, "paid_amount") == Int(Total(g, When("status", settled, ReportRevenue.Amount())))
    ensures Get(r, "pending_amount") == Int(Total(g, When("status", PaymentModel.PAYMENT_PENDING, ReportRevenue.Amount())))
  {
    map["month" := MonthKey()(g[0]),
        "payment_count" := Int(|g|),
        "total_amount" := SumColumn(g, "amount"),
        "paid_amount" := Sum(g, When("status", settled, ReportRevenue.Amount())),
        "pending_amount" := Sum(g, When("status", PaymentModel.PAYMENT_PENDING, ReportRevenue.Amount()))]
  }

  function MonthRows(gs: seq<seq<Row>>, settled: string): (r: seq<Row>)
    requires forall i :: 0 <= i < |gs| ==> |gs[i]| > 0
    ensures |r| == |gs|
    ensures forall i :: 0 <= i < |gs| ==> r[i] == MonthRow(gs[i], settled)
  {
    if |gs| == 0 then [] else [MonthRow(gs[0], settled)] + MonthRows(gs[1..], settled)
  }

  /** The payments of the window, grouped by month. */
  function MonthGroups(payments: seq<Row>, today: Date, months: int): (gs: seq<seq<Row>>)
    requires InRange(today)
    ensures forall i :: 0 <= i < |gs| ==> |gs[i]| > 0
  {
    Groups(Filter(payments, RecentBy(Cutoff(today, months))), MonthKey())
  }

  /** The analysis statement, counting the payments with status `settled` as paid. */
  function AnalysisOf(payments: seq<Row>, today: Date, months: int, settled: string): (r: seq<Row>)
    requires InRange(today)
    ensures |r| == |MonthGroups(payments, today, months)|
    ensures forall i :: 0 <= i < |r| ==> r[i] == MonthRow(MonthGroups(payments, today, months)[i], settled)
  {
    MonthRows(MonthGroups(payments, today, months), settled)
  }

  /** Report::generatePaymentAnalysis as written: six months back by default, 'completed' counting as paid. */
  function GeneratePaymentAnalysis(payments: seq<Row>, today: Date, months: int := 6): (r: seq<Row>)
    requires InRange(today)
    ensures r == AnalysisOf(payments, today, months, ReportRevenue.COMPLETED)
  {
    AnalysisOf(payments, today, months, ReportRevenue.COMPLETED)
  }

  /** The analysis as evidently intended: 'paid' counting as paid. */
  function CorrectedPaymentAnalysis(payments: seq<Row>, today: Date, months: int := 6): (r: seq<Row>)
    requires InRange(today)
    ensures r == AnalysisOf(payments, today, months, PAYMENT_PAID)
  {
    AnalysisOf(payments, today, months, PAYMENT_PAID)
  }

  /** The rows' counts and totals add up over the groups. */
  lemma {:induction false} MonthRowsAddUp(gs: seq<seq<Row>>, settled: string)
    requires forall i :: 0 <= i < |gs| ==> |gs[i]| > 0
    ensures Total(MonthRows(gs, settled), Column("payment_count")) == Sizes(gs)
    ensures Total(MonthRows(gs, settled), Column("total_amount")) == Totals(gs, ReportRevenue.Amount())
  {
    if |gs| > 0 {
      assert forall i :: 0 <= i < |gs| - 1 ==> gs[1..][i] == gs[i + 1];
      MonthRowsAddUp(gs[1..], settled);
      TotalOfNulls(gs[0], "amount");
      assert MonthRows(gs, settled)[1..] == MonthRows(gs[1..], settled);
    }
  }

  /**
   Every payment dated on or after the cutoff is counted in exactly one
   month: the payment counts add up to the number of such payments and the
   totals to their amounts.
   */
  lemma {:induction false} AnalysisCoversWindow(payments: seq<Row>, today: Date, months: int, settled: string)
    requires InRange(today)
    ensures var r := AnalysisOf(payments, today, months, settled);
            var recent := Filter(payments, RecentBy(Cutoff(today, months)));
            && Total(r, Column("payment_count")) == |recent|
            && Total(r, Column("total_amount")) == Total(recent, ReportRevenue.Amount())
  {
    var recent := Filter(payments, RecentBy(Cutoff(today, months)));
    var gs := MonthGroups(payments, today, months);
    MonthRowsAddUp(gs, settled);
    GroupsPartition(recent, MonthKey(), ReportRevenue.Amount());
  }

  /** No two rows of the analysis show the same month. */
  lemma {:induction false} AnalysisMonthsDistinct(payments: seq<Row>, today: Date, months: int, settled: string)
    requires InRange(today)
    ensures var r := AnalysisOf(payments, today, months, settled);
            forall i, j :: 0 <= i < j < |r| ==> Get(r[i], "month") != Get(r[j], "month")
  {
    var recent := Filter(payments, RecentBy(Cutoff(today, months)));
    GroupKeysDistinct(recent, MonthKey());
  }

  /** A window reaching outside the years 0 to 9999 makes the cutoff NULL, and the comparison keeps no payment. */
  lemma {:induction false} AnalysisEmptyOutOfRange(payments: seq<Row>, today: Date, months: int, settled: string)
    requires InRange(today) && DateSubMonths(today, months).None?
    ensures AnalysisOf(payments, today, months, settled) == []
  {
    FilterNone(payments, RecentBy(Cutoff(today, months)));
  }

  /** With no months to go back the window starts today; going back at least one month it starts before today. */
  lemma AnalysisWindowStart(today: Date, months: int)
    requires InRange(today) && months >= 0 && DateSubMonths(today, months).Some?
    ensures months == 0 ==> Cutoff(today, months) == Str(Format(today))
    ensures months > 0 ==> Before(DateOf(Cutoff(today, months).s), today)
  {
    DateSubNothing(today);
    DateSubGoesBack(today, months);
  }

  /** Every row of a month's group is one of the payments. */
  lemma GroupsOfPayments(payments: seq<Row>, today: Date, months: int)
    requires InRange(today)
    ensures var gs := MonthGroups(payments, today, months);
            forall i, x :: 0 <= i < |gs| && x in gs[i] ==> x in payments
  {
  }

  /** A group of payments none of which has status `v` totals 0 in that status's column. */
  lemma GroupWithout(g: seq<Row>, payments: seq<Row>, v: string)
    requires forall x :: x in g ==> x in payments
    requires forall i :: 0 <= i < |payments| ==> OneOf(payments[i], "status", PAYMENT_STATUSES)
    requires v !in PAYMENT_STATUSES
    ensures Total(g, When("status", v, ReportRevenue.Amount())) == 0
  {
    forall i | 0 <= i < |g| ensures Get(g[i], "status").Str? && Get(g[i], "status").s != v {
      assert g[i] in g;
      var j :| 0 <= j < |payments| && payments[j] == g[i];
      assert OneOf(payments[j], "status", PAYMENT_STATUSES);
    }
    WhenNone(g, "status", v, ReportRevenue.Amount());
  }

  /**
   As written, every month's paid_amount is 0: no payment the table admits
   has the status 'completed'.
   */
  lemma {:induction false} AnalysisPaidNeverCounted(payments: seq<Row>, today: Date, months: int)
    requires InRange(today)
    requires forall i :: 0 <= i < |payments| ==> OneOf(payments[i], "status", PAYMENT_STATUSES)
    ensures var r := GeneratePaymentAnalysis(payments, today, months);
            forall i :: 0 <= i < |r| ==> Get(r[i], "paid_amount") == Int(0)
  {
    var gs := MonthGroups(payments, today, months);
    var r := GeneratePaymentAnalysis(payments, today, months);
    GroupsOfPayments(payments, today, months);
    forall i | 0 <= i < |r| ensures Get(r[i], "paid_amount") == Int(0) {
      assert r[i] == MonthRow(gs[i], ReportRevenue.COMPLETED);
      GroupPaidNothing(gs[i], payments);
    }
  }

  /** A month's row, as written, has paid_amount 0 when its payments all have statuses the table admits. */
  lemma GroupPaidNothing(g: seq<Row>, payments: seq<Row>)
    requires |g| > 0
    requires forall x :: x in g ==> x in payments
    requires forall i :: 0 <= i < |payments| ==> OneOf(payments[i], "status", PAYMENT_STATUSES)
    ensures Get(MonthRow(g, ReportRevenue.COMPLETED), "paid_amount") == Int(0)
  {
    GroupWithout(g, payments, ReportRevenue.COMPLETED);
  }

  /**
   Corrected, a month's paid and pending amounts are the totals of its paid
   and its pending payments, and together with the overdue and cancelled
   ones they make up the month's total when every status is one the table
   admits.
   */
  lemma {:induction false} CorrectedAnalysisSplitsTotal(payments: seq<Row>, today: Date, months: int)
    requires InRange(today)
    requires forall i :: 0 <= i < |payments| ==> OneOf(payments[i], "status", PAYMENT_STATUSES)
    ensures var r := CorrectedPaymentAnalysis(payments, today, months);
            var gs := MonthGroups(payments, today, months);
            forall i :: 0 <= i < |r| ==>
              Number(Get(r[i], "paid_amount")) + Number(Get(r[i], "pending_amount"))
              + Total(gs[i], When("status", "overdue", ReportRevenue.Amount()))
              + Total(gs[i], When("status", "cancelled", ReportRevenue.Amount()))
              == Number(Get(r[i], "total_amount"))
  {
    var gs := MonthGroups(payments, today, months);
    var r := CorrectedPaymentAnalysis(payments, today, months);
    GroupsOfPayments(payments, today, months);
    forall i | 0 <= i < |r|
      ensures Number(Get(r[i], "paid_amount")) + Number(Get(r[i], "pending_amount"))
              + Total(gs[i], When("status", "overdue", ReportRevenue.Amount()))
              + Total(gs[i], When("status", "cancelled", ReportRevenue.Amount()))
              == Number(Get(r[i], "total_amount")) {
      assert r[i] == MonthRow(gs[i], PAYMENT_PAID);
      MonthRowSplits(gs[i], payments);
    }
  }

  /** One month's row: its paid and pending amounts and the overdue and cancelled totals make up its total. */
  lemma MonthRowSplits(g: seq<Row>, payments: seq<Row>)
    requires |g| > 0
    requires forall x :: x in g ==> x in payments
    requires forall i :: 0 <= i < |payments| ==> OneOf(payments[i], "status", PAYMENT_STATUSES)
    ensures var r := MonthRow(g, PAYMENT_PAID);
            Number(Get(r, "paid_amount")) + Number(Get(r, "pending_amount"))
            + Total(g, When("status", "overdue", ReportRevenue.Amount()))
            + Total(g, When("status", "cancelled", ReportRevenue.Amount()))
            == Number(Get(r, "total_amount"))
  {
    GroupSplits(g, payments);
    TotalOfNulls(g, "amount");
  }

  /** The four status columns of one group add up to its total. */
  lemma {:induction false} GroupSplits(g: seq<Row>, payments: seq<Row>)
    requires forall x :: x in g ==> x in payments
    requires forall i :: 0 <= i < |payments| ==> OneOf(payments[i], "status", PAYMENT_STATUSES)
    ensures Total(g, When("status", "pending", ReportRevenue.Amount())) + Total(g, When("status", "paid", ReportRevenue.Amount()))
            + Total(g, When("status", "overdue", ReportRevenue.Amount())) + Total(g, When("status", "cancelled", ReportRevenue.Amount()))
            == Total(g, ReportRevenue.Amount())
  {
    forall i | 0 <= i < |g| ensures OneOf(g[i], "status", PAYMENT_STATUSES) {
      assert g[i] in g;
      var j :| 0 <= j < |payments| && payments[j] == g[i];
    }
    var v := PAYMENT_STATUSES;
    var f := ReportRevenue.Amount();
    assert Distinct(v);
    CasesCoverAll(g, "status", v, f);
    TotalOfNulls(g, "amount");
    assert v[1..][1..][1..][1..] == [];
    assert CaseTotals(g, "status", v[1..][1..][1..], f) == Total(g, When("status", "cancelled", f));
    assert CaseTotals(g, "status", v[1..][1..], f) == Total(g, When("status", "overdue", f)) + CaseTotals(g, "status", v[1..][1..][1..], f);
    assert CaseTotals(g, "status", v[1..], f) == Total(g, When("status", "paid", f)) + CaseTotals(g, "status", v[1..][1..], f);
  }

  // ---------------------------------------------------------------- dashboard

  /** `MONTH(payment_date) = MONTH(CURDATE()) AND YEAR(payment_date) = YEAR(CURDATE())`; NULL, and false, for a value that is not a date. */
  predicate InMonthOf(today: Date, row: Row) {
    var v := Get(row, "payment_date");
    v.Str? && IsValidDate(v.s) && DateOf(v.s).year == today.year && DateOf(v.s).month == today.month
  }

  /** The payments monthly_revenue totals: status `settled`, dated in today's month. */
  function ThisMonthBy(today: Date, settled: string): Row -> bool {
    x => Is(x, "status", settled) && InMonthOf(today, x)
  }

  /** The payments overdue_payments counts: pending, with the column `dated` before today. */
  function PendingBeforeBy(today: string, dated: string): Row -> bool {
    x => Is(x, "status", PaymentModel.PAYMENT_PENDING) && Holds(Get(x, dated), Lt, Str(today))
  }

  /** The dashboard's six counters. */
  datatype Counters = Counters(available: nat, occupied: nat, tenants: nat, maintenance: nat, revenue: int, overdue: nat)

  /** The row PDO fetches: one column per counter. */
  function CountersRow(c: Counters): (r: Row)
    ensures Get(r, "available_properties") == Int(c.available) && Get(r, "occupied_properties") == Int(c.occupied)
    ensures Get(r, "active_tenants") == Int(c.tenants) && Get(r, "pending_maintenance") == Int(c.maintenance)
    ensures Get(r, "monthly_revenue") == Int(c.revenue) && Get(r, "overdue_payments") == Int(c.overdue)
  {
    map["available_properties" := Int(c.available),
        "occupied_properties" := Int(c.occupied),
        "active_tenants" := Int(c.tenants),
        "pending_maintenance" := Int(c.maintenance),
        "monthly_revenue" := Int(c.revenue),
        "overdue_payments" := Int(c.overdue)]
  }

  /** The dashboard statement, summing the payments with status `settled` and calling overdue the pending ones whose column `dated` has passed. */
  function DashboardOf(db: Db, today: Date, settled: string, dated: string): (r: Row)
    requires InRange(today)
    ensures Get(r, "available_properties") == Int(|Filter(db.properties.rows, ReportOccupancy.WithStatus(PROPERTY_AVAILABLE))|)
    ensures Get(r, "occupied_properties") == Int(|Filter(db.properties.rows, ReportOccupancy.WithStatus(PROPERTY_OCCUPIED))|)
    ensures Get(r, "active_tenants") == Int(|Filter(db.tenants.rows, ReportOccupancy.WithStatus(ReportOccupancy.TENANT_ACTIVE))|)
    ensures Get(r, "pending_maintenance") == Int(|Filter(db.maintenance.rows, ReportOccupancy.WithStatus("pending"))|)
    ensures Get(r, "monthly_revenue") == Int(Total(Filter(db.payments.rows, ThisMonthBy(today, settled)), ReportRevenue.Amount()))
    ensures Get(r, "overdue_payments") == Int(|Filter(db.payments.rows, PendingBeforeBy(Format(today), dated))|)
  {
    CountersRow(Counters(
      |Filter(db.properties.rows, ReportOccupancy.WithStatus(PROPERTY_AVAILABLE))|,
      |Filter(db.properties.rows, ReportOccupancy.WithStatus(PROPERTY_OCCUPIED))|,
      |Filter(db.tenants.rows, ReportOccupancy.WithStatus(ReportOccupancy.TENANT_ACTIVE))|,
      |Filter(db.maintenance.rows, ReportOccupancy.WithStatus("pending"))|,
      Total(Filter(db.payments.rows, ThisMonthBy(today, settled)), ReportRevenue.Amount()),
      |Filter(db.payments.rows, PendingBeforeBy(Format(today), dated))|))
  }

  /** Report::getDashboardStats as written: 'completed' payments as revenue, pending payments whose payment_date has passed as overdue. */
  function GetDashboardStats(db: Db, today: Date): (r: Row)
    requires InRange(today)
    ensures r == DashboardOf(db, today, ReportRevenue.COMPLETED, "payment_date")
  {
    DashboardOf(db, today, ReportRevenue.COMPLETED, "payment_date")
  }

  /** The dashboard as evidently intended: 'paid' payments as revenue, and overdue as Payment::getOverduePayments means it, by due date. */
  function CorrectedDashboardStats(db: Db, today: Date): (r: Row)
    requires InRange(today)
    ensures r == DashboardOf(db, today, PAYMENT_PAID, "due_date")
  {
    DashboardOf(db, today, PAYMENT_PAID, "due_date")
  }

  /**
   The dashboard's property counters are the corrected occupancy summary's,
   and, every property having one of the statuses the table admits, the
   available and occupied properties together are at most all properties.
   */
  lemma {:induction false} DashboardAgreesWithOccupancy(db: Db, today: Date)
    requires InRange(today)
    requires forall i :: 0 <= i < |db.properties.rows| ==> OneOf(db.properties.rows[i], "status", PROPERTY_STATUSES)
    ensures var r := GetDashboardStats(db, today);
            var s := ReportOccupancy.CorrectedOccupancySummary(db.properties.rows, db.tenants.rows);
            && Number(Get(r, "available_properties")) == Number(Get(s, "available_properties"))
            && Number(Get(r, "occupied_properties")) == Number(Get(s, "occupied_properties"))
            && Number(Get(r, "available_properties")) + Number(Get(r, "occupied_properties")) <= |db.properties.rows|
  {
    var ps := db.properties.rows;
    StatusCounted(ps, PROPERTY_AVAILABLE);
    StatusCounted(ps, PROPERTY_OCCUPIED);
    StatusCounted(ps, PROPERTY_MAINTENANCE);
    ReportOccupancy.CorrectedStatusesAddUp(ps, db.tenants.rows);
  }

  /** A counting CASE column over the properties is the number of properties with that status. */
  lemma StatusCounted(ps: seq<Row>, v: string)
    ensures Number(Sum(ps, When("status", v, One()))) == |Filter(ps, ReportOccupancy.WithStatus(v))|
  {
    CaseCountIsFilter(ps, "status", v);
    FilterAgree(ps, x => Is(x, "status", v), ReportOccupancy.WithStatus(v));
  }

  /** As written, monthly_revenue is 0 whenever every payment's status is one the table admits. */
  lemma {:induction false} MonthlyRevenueNeverCounted(db: Db, today: Date)
    requires InRange(today)
    requires forall i :: 0 <= i < |db.payments.rows| ==> OneOf(db.payments.rows[i], "status", PAYMENT_STATUSES)
    ensures Get(GetDashboardStats(db, today), "monthly_revenue") == Int(0)
  {
    var ps := db.payments.rows;
    forall i | 0 <= i < |ps| ensures !ThisMonthBy(today, ReportRevenue.COMPLETED)(ps[i]) {
      AdmittedNotCompleted(ps[i]);
    }
    FilterNone(ps, ThisMonthBy(today, ReportRevenue.COMPLETED));
  }

  /** A payment whose status the table admits is not 'completed'. */
  lemma AdmittedNotCompleted(x: Row)
    requires OneOf(x, "status", PAYMENT_STATUSES)
    ensures !Is(x, "status", ReportRevenue.COMPLETED)
  {
    StrEqHolds(Get(x, "status").s, ReportRevenue.COMPLETED);
  }

  /** The database with one more payment row. */
  function WithPayment(db: Db, x: Row): Db {
    db.(payments := db.payments.(rows := db.payments.rows + [x]))
  }

  /** Corrected, a payment paid today adds its amount to monthly_revenue. */
  lemma {:induction false} CorrectedCountsPaidToday(db: Db, today: Date, x: Row)
    requires InRange(today)
    requires Get(x, "status") == Str(PAYMENT_PAID) && Get(x, "payment_date") == Str(Format(today))
    ensures Number(Get(CorrectedDashboardStats(WithPayment(db, x), today), "monthly_revenue"))
            == Number(Get(CorrectedDashboardStats(db, today), "monthly_revenue")) + Number(Get(x, "amount"))
  {
    var p := ThisMonthBy(today, PAYMENT_PAID);
    var before := Filter(db.payments.rows, p);
    PaidTodayThisMonth(today, x);
    ReportRevenue.FilterSnoc(db.payments.rows, x, p);
    TotalAppend(before, [x], ReportRevenue.Amount());
    assert [x][1..] == [];
    CorrectedRevenue(db, today);
    CorrectedRevenue(WithPayment(db, x), today);
  }

  /** A payment paid today is one of this month's paid payments. */
  lemma PaidTodayThisMonth(today: Date, x: Row)
    requires InRange(today)
    requires Get(x, "status") == Str(PAYMENT_PAID) && Get(x, "payment_date") == Str(Format(today))
    ensures ThisMonthBy(today, PAYMENT_PAID)(x)
  {
    DateOfFormat(today);
    assert InMonthOf(today, x);
    StrEqHolds(PAYMENT_PAID, PAYMENT_PAID);
    assert Is(x, "status", PAYMENT_PAID);
  }

  /** The corrected monthly_revenue as a number: the total of this month's paid payments. */
  lemma CorrectedRevenue(db: Db, today: Date)
    requires InRange(today)
    ensures Number(Get(CorrectedDashboardStats(db, today), "monthly_revenue"))
            == Total(Filter(db.payments.rows, ThisMonthBy(today, PAYMENT_PAID)), ReportRevenue.Amount())
  {
  }

  /**
   As written, a pending payment dated before today counts as overdue even
   when its due date is still to come, which Payment::getOverduePayments
   does not list.
   */
  lemma {:induction false} OverdueByPaymentDate(db: Db, today: Date, x: Row)
    requires InRange(today)
    requires Get(x, "status") == Str(PaymentModel.PAYMENT_PENDING)
    requires Holds(Get(x, "payment_date"), Lt, Str(Format(today))) && !Holds(Get(x, "due_date"), Lt, Str(Format(today)))
    ensures Number(Get(GetDashboardStats(WithPayment(db, x), today), "overdue_payments"))
            == Number(Get(GetDashboardStats(db, today), "overdue_payments")) + 1
    ensures !PaymentModel.Overdue(Format(today), x)
  {
    ReportRevenue.FilterSnoc(db.payments.rows, x, PendingBeforeBy(Format(today), "payment_date"));
  }

  /** Corrected, overdue_payments counts exactly the payments Payment::getOverduePayments selects. */
  lemma {:induction false} CorrectedOverdueIsListing(db: Db, today: Date)
    requires InRange(today)
    ensures Number(Get(CorrectedDashboardStats(db, today), "overdue_payments"))
            == |Filter(db.payments.rows, PaymentModel.OverdueBy(Format(today)))|
  {
    FilterAgree(db.payments.rows, PendingBeforeBy(Format(today), "due_date"), PaymentModel.OverdueBy(Format(today)));
  }
}
