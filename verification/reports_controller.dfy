/**
 ReportsController: the admin-only report endpoints. Each one checks its
 filters in a fixed order, answers the first failure with a 400, and
 otherwise hands the filters to the Report model; a database exception
 becomes a 500, which the model takes as the parameter `raises`. The export
 endpoint answers with a file, a CSV table or a JSON document, instead of
 an envelope.

 The query string and the request body are rows of PHP values. The current
 date, used for the default range and for the file names, is a parameter.
 */
module ReportsController {
  import opened Php
  import opened Wrappers
  import opened Http
  import opened Store
  import opened Dates
  import opened Constants
  import opened Validate
  import AuthMiddleware
  import RoleMiddleware
  import ReportRevenue
  import ReportOccupancy
  import ReportMaintenance
  import ReportPerformance

  /** The group_by values the revenue endpoint allows. */
  const GROUP_BYS: seq<string> := ["day", "week", "month", "year"]

  /** The report types the export endpoint allows. */
  const REPORT_TYPES: seq<string> := ["revenue", "occupancy", "maintenance", "property_performance"]

  /** The export formats. */
  const FORMATS: seq<string> := ["csv", "json"]

  /*
   The columns of each report's rows, in the order of their SELECT lists
   (the order fputcsv writes them in). The averages, minima and maxima the
   statements also select are not part of the model.
   */
  const REVENUE_COLUMNS: seq<string> := ["period", "payment_type", "transaction_count", "total_amount"]
  const OCCUPANCY_COLUMNS: seq<string> :=
    ["property_id", "property_name", "city", "property_status", "tenant_count", "active_tenants", "monthly_rent"]
  const PERFORMANCE_COLUMNS: seq<string> :=
    ["id", "name", "city", "monthly_rent", "payment_count", "total_revenue", "maintenance_count", "maintenance_cost", "net_income"]

  /** ReportsController::isValidDate on a PHP value: a string spelling a real date as `Y-m-d`. */
  predicate ValidDate(v: Val) {
    v.Str? && IsValidDate(v.s)
  }

  /** `strtotime($startDate) > strtotime($endDate)` on two valid dates. */
  predicate Reversed(start: Val, end: Val)
    requires ValidDate(start) && ValidDate(end)
  {
    Before(DateOf(end.s), DateOf(start.s))
  }

  /** `date('Y-m-01')`. */
  function MonthStart(today: Date): Val
    requires InRange(today)
  {
    Str(Format(FirstOfMonth(today)))
  }

  /** `date('Y-m-t')`. */
  function MonthEnd(today: Date): Val
    requires InRange(today)
  {
    Str(Format(LastOfMonth(today)))
  }

  function BadDates(): Outcome { Error("Invalid date format. Use YYYY-MM-DD") }

  function BadStart(): Outcome { Error("Invalid start_date format. Use YYYY-MM-DD") }

  function BadEnd(): Outcome { Error("Invalid end_date format. Use YYYY-MM-DD") }

  function StartAfterEnd(): Outcome { Error("Start date must be before end date") }

  function BadGroupBy(): Outcome { Error("Invalid group_by parameter. Use: day, week, month, or year") }

  function BadStatus(): Outcome { Error("Invalid status. Use: pending, in_progress, completed, or cancelled") }

  function BadReportType(): Outcome {
    Error("Invalid report_type. Use: revenue, occupancy, maintenance, or property_performance")
  }

  function BadFormat(): Outcome { Error("Invalid format. Use: csv or json") }

  function NoData(): Outcome { Error("No data available for export", "NOT_FOUND", Arr(map[]), 404) }

  /** The 500 a database exception ends with. */
  function Failed(message: string): Outcome { Error(message, "SERVER_ERROR", Arr(map[]), 500) }

  /** What the revenue and maintenance endpoints accept as a range: two valid dates, the start not after the end. */
  predicate RangeOk(start: Val, end: Val) {
    ValidDate(start) && ValidDate(end) && !Reversed(start, end)
  }

  /** The date checks of revenue and maintenance: first both formats, then the order. */
  function CheckRange(start: Val, end: Val): (s: Step<bool>)
    ensures s.Halt? ==> !IsSuccess(s.out)
    ensures s.Next? <==> RangeOk(start, end)
    ensures !(ValidDate(start) && ValidDate(end)) ==> s == Halt(BadDates())
    ensures ValidDate(start) && ValidDate(end) && Reversed(start, end) ==> s == Halt(StartAfterEnd())
  {
    if !ValidDate(start) || !ValidDate(end) then Halt(BadDates())
    else if Reversed(start, end) then Halt(StartAfterEnd())
    else Next(true)
  }

  /** The allowed values are all words, so the loose in_array checks compare them as strings. */
  lemma AllowedAreWords()
    ensures Words(GROUP_BYS) && Words(MAINTENANCE_STATUSES) && Words(REPORT_TYPES) && Words(FORMATS)
  {
  }

  /** The default range, this month's first and last day, passes the date checks. */
  lemma ThisMonthInOrder(today: Date)
    requires InRange(today)
    ensures RangeOk(MonthStart(today), MonthEnd(today))
  {
    MonthRangeValid(today);
    DateOfFormat(FirstOfMonth(today));
    DateOfFormat(LastOfMonth(today));
  }

  /** Boolean true is loosely equal to every non-empty word, so it passes both export checks. */
  lemma TruePassesExportChecks()
    ensures InArrayLoose(Bool(true), StrList(REPORT_TYPES)) && InArrayLoose(Bool(true), StrList(FORMATS))
  {
    assert LooseEq(Bool(true), StrList(REPORT_TYPES)[0]);
    assert LooseEq(Bool(true), StrList(FORMATS)[0]);
  }

  // ----- GET /reports/revenue -----

  /** The revenue filters with their defaults: this month's first and last day, grouped by month. */
  function RevenueFilters(query: Row, today: Date): (Val, Val, Val)
    requires InRange(today)
  {
    (Coalesce(query, "start_date", MonthStart(today)),
     Coalesce(query, "end_date", MonthEnd(today)),
     Coalesce(query, "group_by", Str("month")))
  }

  /** The revenue filters pass: a range in order and a group_by loosely among the four. */
  predicate RevenueAccepts(query: Row, today: Date)
    requires InRange(today)
  {
    var (start, end, groupBy) := RevenueFilters(query, today);
    RangeOk(start, end) && InArrayLoose(groupBy, StrList(GROUP_BYS))
  }

  /** The success payload of the revenue endpoint. */
  function RevenuePayload(db: Db, start: Val, end: Val, groupBy: Val): (r: Row)
    ensures "status" !in r
  {
    map["summary" := Arr(ReportRevenue.GetRevenueSummary(db.payments.rows, start, end)),
        "detailed_data" := RowsVal(ReportRevenue.GetRevenueReport(db.payments.rows, start, end, groupBy)),
        "filters" := Arr(map["start_date" := start, "end_date" := end, "group_by" := groupBy])]
  }

  /** The filter checks of revenue in their order: both date formats, the order of the dates, then the grouping. */
  function RevenueCheck(start: Val, end: Val, groupBy: Val): (s: Step<bool>)
    ensures s.Halt? ==> !IsSuccess(s.out)
    ensures s.Next? <==> RangeOk(start, end) && InArrayLoose(groupBy, StrList(GROUP_BYS))
    ensures !(ValidDate(start) && ValidDate(end)) ==> s == Halt(BadDates())
    ensures ValidDate(start) && ValidDate(end) && Reversed(start, end) ==> s == Halt(StartAfterEnd())
    ensures RangeOk(start, end) && !InArrayLoose(groupBy, StrList(GROUP_BYS)) ==> s == Halt(BadGroupBy())
  {
    var range := CheckRange(start, end);
    if range.Halt? then range
    else Check(InArrayLoose(groupBy, StrList(GROUP_BYS)), BadGroupBy())
  }

  /** The revenue answer on the filters: the first failing check, a 500, or the report. */
  function RevenueAnswer(db: Db, start: Val, end: Val, groupBy: Val, raises: bool): (o: Outcome)
    ensures IsSuccess(o) <==> RangeOk(start, end) && InArrayLoose(groupBy, StrList(GROUP_BYS)) && !raises
    ensures RevenueCheck(start, end, groupBy).Halt? ==> o == RevenueCheck(start, end, groupBy).out
    ensures RevenueCheck(start, end, groupBy).Next? && raises ==> o == Failed("Failed to generate revenue report")
    ensures RevenueCheck(start, end, groupBy).Next? && !raises ==> o == Ok(RevenuePayload(db, start, end, groupBy))
  {
    var check := RevenueCheck(start, end, groupBy);
    if check.Halt? then check.out
    else if raises then Failed("Failed to generate revenue report")
    else RevenueReport(db, start, end, groupBy)
  }

  /** The revenue report sent as a success. */
  function RevenueReport(db: Db, start: Val, end: Val, groupBy: Val): (o: Outcome)
    ensures IsSuccess(o) && o == Ok(RevenuePayload(db, start, end, groupBy))
  {
    Ok(RevenuePayload(db, start, end, groupBy))
  }

  /**
   ReportsController::revenue: admins only; the filters, with their
   defaults, are answered as RevenueAnswer answers them.
   */
  function Revenue(db: Db, req: AuthMiddleware.Request, query: Row, today: Date, raises: bool): (o: Outcome)
    requires InRange(today)
    ensures IsSuccess(o) <==> RoleMiddleware.AdminOnly(req).Next? && RevenueAccepts(query, today) && !raises
    ensures RoleMiddleware.AdminOnly(req).Halt? ==> o == RoleMiddleware.AdminOnly(req).out
    ensures var (start, end, groupBy) := RevenueFilters(query, today);
            RoleMiddleware.AdminOnly(req).Next? ==> o == RevenueAnswer(db, start, end, groupBy, raises)
  {
    var gate := RoleMiddleware.AdminOnly(req);
    if gate.Halt? then gate.out
    else
      var (start, end, groupBy) := RevenueFilters(query, today);
      RevenueAnswer(db, start, end, groupBy, raises)
  }

  /**
   Without filters an admin gets this month's report: the defaults are two
   valid dates in order and "month" is an allowed grouping.
   */
  lemma RevenueDefaultsToThisMonth(db: Db, req: AuthMiddleware.Request, today: Date)
    requires InRange(today) && RoleMiddleware.AdminOnly(req).Next?
    ensures Revenue(db, req, map[], today, false) == Ok(RevenuePayload(db, MonthStart(today), MonthEnd(today), Str("month")))
  {
    var start, end := MonthStart(today), MonthEnd(today);
    assert RevenueFilters(map[], today) == (start, end, Str("month"));
    ThisMonthInOrder(today);
    AllowedAreWords();
    LooseInWords("month", GROUP_BYS);
    assert RevenueCheck(start, end, Str("month")).Next?;
  }

  /** With a range in order, a string group_by is accepted exactly when it is one of day, week, month and year. */
  lemma GroupByIsOneOfFour(db: Db, req: AuthMiddleware.Request, query: Row, today: Date, groupBy: string)
    requires InRange(today) && RoleMiddleware.AdminOnly(req).Next?
    requires RangeOk(RevenueFilters(query, today).0, RevenueFilters(query, today).1)
    requires Get(query, "group_by") == Str(groupBy)
    ensures IsSuccess(Revenue(db, req, query, today, false)) <==> groupBy in GROUP_BYS
  {
    var (start, end, g) := RevenueFilters(query, today);
    assert g == Str(groupBy);
    assert Revenue(db, req, query, today, false) == RevenueAnswer(db, start, end, g, false);
    AllowedAreWords();
    LooseInWords(groupBy, GROUP_BYS);
  }

  // ----- GET /reports/occupancy -----

  /** The occupancy filters: both dates optional, each checked only when PHP considers it true. */
  predicate OccupancyAccepts(start: Val, end: Val) {
    && (Truthy(start) ==> ValidDate(start))
    && (Truthy(end) ==> ValidDate(end))
    && (Truthy(start) && Truthy(end) ==> !Reversed(start, end))
  }

  function OccupancyPayload(db: Db, start: Val, end: Val): (r: Row)
    ensures "status" !in r
  {
    map["summary" := Arr(ReportOccupancy.GetOccupancySummary(db.properties.rows, db.tenants.rows)),
        "properties" := RowsVal(ReportOccupancy.GetOccupancyReport(db.properties.rows, db.tenants.rows, start, end)),
        "filters" := Arr(map["start_date" := start, "end_date" := end])]
  }

  /** The occupancy filter checks in their order: a given start date, a given end date, then the order of the two. */
  function OccupancyCheck(start: Val, end: Val): (s: Step<bool>)
    ensures s.Halt? ==> !IsSuccess(s.out)
    ensures s.Next? <==> OccupancyAccepts(start, end)
    ensures Truthy(start) && !ValidDate(start) ==> s == Halt(BadStart())
    ensures (Truthy(start) ==> ValidDate(start)) && Truthy(end) && !ValidDate(end) ==> s == Halt(BadEnd())
    ensures ValidDate(start) && ValidDate(end) && Truthy(start) && Truthy(end) && Reversed(start, end) ==> s == Halt(StartAfterEnd())
  {
    if Truthy(start) && !ValidDate(start) then Halt(BadStart())
    else if Truthy(end) && !ValidDate(end) then Halt(BadEnd())
    else if Truthy(start) && Truthy(end) && Reversed(start, end) then Halt(StartAfterEnd())
    else Next(true)
  }

  /** The occupancy answer on the filters: the first failing check, a 500, or the report. */
  function OccupancyAnswer(db: Db, start: Val, end: Val, raises: bool): (o: Outcome)
    ensures IsSuccess(o) <==> OccupancyAccepts(start, end) && !raises
    ensures OccupancyCheck(start, end).Halt? ==> o == OccupancyCheck(start, end).out
    ensures OccupancyCheck(start, end).Next? && raises ==> o == Failed("Failed to generate occupancy report")
    ensures OccupancyCheck(start, end).Next? && !raises ==> o == Ok(OccupancyPayload(db, start, end))
  {
    var check := OccupancyCheck(start, end);
    if check.Halt? then check.out
    else if raises then Failed("Failed to generate occupancy report")
    else Ok(OccupancyPayload(db, start, end))
  }

  /**
   ReportsController::occupancy: admins only; a given start date is checked,
   then a given end date, then the order when both are given.
   */
  function Occupancy(db: Db, req: AuthMiddleware.Request, query: Row, raises: bool): (o: Outcome)
    ensures var start, end := Coalesce(query, "start_date", Null), Coalesce(query, "end_date", Null);
            && (IsSuccess(o) <==> RoleMiddleware.AdminOnly(req).Next? && OccupancyAccepts(start, end) && !raises)
            && (RoleMiddleware.AdminOnly(req).Halt? ==> o == RoleMiddleware.AdminOnly(req).out)
            && (RoleMiddleware.AdminOnly(req).Next? ==> o == OccupancyAnswer(db, start, end, raises))
  {
    var gate := RoleMiddleware.AdminOnly(req);
    if gate.Halt? then gate.out
    else OccupancyAnswer(db, Coalesce(query, "start_date", Null), Coalesce(query, "end_date", Null), raises)
  }

  /** With only a valid start date the occupancy answer lists what the undated report lists. */
  lemma OneDateAnswer(db: Db, start: Val)
    requires ValidDate(start)
    ensures var o := OccupancyAnswer(db, start, Null, false);
            IsSuccess(o) && Carries(o, "properties", RowsVal(ReportOccupancy.GetOccupancyReport(db.properties.rows, db.tenants.rows)))
  {
    ReportOccupancy.OccupancyRowsAgree(db.properties.rows, db.tenants.rows,
                                       ReportOccupancy.KeepBy(start, Null), ReportOccupancy.KeepBy(Null, Null));
    assert OccupancyAccepts(start, Null);
    var payload := OccupancyPayload(db, start, Null);
    assert payload["properties"] == RowsVal(ReportOccupancy.GetOccupancyReport(db.properties.rows, db.tenants.rows));
    assert OccupancyAnswer(db, start, Null, false) == Ok(payload);
  }

  /**
   A single date is checked but does not narrow the listing: with only a
   valid start date an admin gets every property the undated report lists.
   */
  lemma OccupancyOneDateIgnored(db: Db, req: AuthMiddleware.Request, query: Row)
    requires RoleMiddleware.AdminOnly(req).Next?
    requires ValidDate(Get(query, "start_date")) && !IsSet(query, "end_date")
    ensures var o := Occupancy(db, req, query, false);
            && IsSuccess(o)
            && Carries(o, "properties", RowsVal(ReportOccupancy.GetOccupancyReport(db.properties.rows, db.tenants.rows)))
  {
    var start := Get(query, "start_date");
    assert Coalesce(query, "start_date", Null) == start && Coalesce(query, "end_date", Null) == Null;
    OneDateAnswer(db, start);
  }

  // ----- GET /reports/maintenance -----

  /** The maintenance filters with their defaults: this month, any status. */
  function MaintenanceFilters(query: Row, today: Date): (Val, Val, Val)
    requires InRange(today)
  {
    (Coalesce(query, "start_date", MonthStart(today)),
     Coalesce(query, "end_date", MonthEnd(today)),
     Coalesce(query, "status", Null))
  }

  /** The maintenance filters pass: a range in order, and a status loosely among the four when one is given. */
  predicate MaintenanceAccepts(query: Row, today: Date)
    requires InRange(today)
  {
    var (start, end, status) := MaintenanceFilters(query, today);
    RangeOk(start, end) && StatusOk(status)
  }

  function MaintenancePayload(db: Db, start: Val, end: Val, status: Val): (r: Row)
    ensures "status" !in r
  {
    map["summary" := Arr(ReportMaintenance.GetMaintenanceSummary(db.maintenance.rows, start, end)),
        "requests" := RowsVal(ReportMaintenance.GetMaintenanceReport(db.maintenance, db.properties, start, end, status)),
        "filters" := Arr(map["start_date" := start, "end_date" := end, "status" := status])]
  }

  /** A given status must be loosely one of the four request statuses; an empty one is not checked. */
  predicate StatusOk(status: Val) {
    Truthy(status) ==> InArrayLoose(status, StrList(MAINTENANCE_STATUSES))
  }

  /** The status check of the maintenance endpoint. */
  function CheckStatus(status: Val): (s: Step<bool>)
    ensures s.Halt? ==> !IsSuccess(s.out)
    ensures s.Next? <==> StatusOk(status)
    ensures s.Halt? ==> s.out == BadStatus()
  {
    if Truthy(status) && !InArrayLoose(status, StrList(MAINTENANCE_STATUSES)) then Halt(BadStatus()) else Next(true)
  }

  /** The maintenance filter checks in their order: the dates as for revenue, then a given status. */
  function MaintenanceCheck(start: Val, end: Val, status: Val): (s: Step<bool>)
    ensures s.Halt? ==> !IsSuccess(s.out)
    ensures s.Next? <==> RangeOk(start, end) && StatusOk(status)
    ensures !(ValidDate(start) && ValidDate(end)) ==> s == Halt(BadDates())
    ensures ValidDate(start) && ValidDate(end) && Reversed(start, end) ==> s == Halt(StartAfterEnd())
    ensures RangeOk(start, end) && !StatusOk(status) ==> s == Halt(BadStatus())
  {
    var range := CheckRange(start, end);
    if range.Halt? then range else CheckStatus(status)
  }

  /** The maintenance answer on the filters: the first failing check, a 500, or the report. */
  function MaintenanceAnswer(db: Db, start: Val, end: Val, status: Val, raises: bool): (o: Outcome)
    ensures IsSuccess(o) <==> RangeOk(start, end) && StatusOk(status) && !raises
    ensures MaintenanceCheck(start, end, status).Halt? ==> o == MaintenanceCheck(start, end, status).out
    ensures MaintenanceCheck(start, end, status).Next? && raises ==> o == Failed("Failed to generate maintenance report")
    ensures MaintenanceCheck(start, end, status).Next? && !raises ==> o == Ok(MaintenancePayload(db, start, end, status))
  {
    var check := MaintenanceCheck(start, end, status);
    if check.Halt? then check.out
    else if raises then Failed("Failed to generate maintenance report")
    else MaintenanceReport(db, start, end, status)
  }

  /** The maintenance report sent as a success. */
  function MaintenanceReport(db: Db, start: Val, end: Val, status: Val): (o: Outcome)
    ensures IsSuccess(o) && o == Ok(MaintenancePayload(db, start, end, status))
  {
    Ok(MaintenancePayload(db, start, end, status))
  }

  /**
   ReportsController::maintenance: admins only; the dates are checked as for
   revenue, then a given status against the four request statuses.
   */
  function Maintenance(db: Db, req: AuthMiddleware.Request, query: Row, today: Date, raises: bool): (o: Outcome)
    requires InRange(today)
    ensures IsSuccess(o) <==> RoleMiddleware.AdminOnly(req).Next? && MaintenanceAccepts(query, today) && !raises
    ensures RoleMiddleware.AdminOnly(req).Halt? ==> o == RoleMiddleware.AdminOnly(req).out
    ensures var (start, end, status) := MaintenanceFilters(query, today);
            RoleMiddleware.AdminOnly(req).Next? ==> o == MaintenanceAnswer(db, start, end, status, raises)
  {
    var gate := RoleMiddleware.AdminOnly(req);
    if gate.Halt? then gate.out
    else
      var (start, end, status) := MaintenanceFilters(query, today);
      MaintenanceAnswer(db, start, end, status, raises)
  }

  /** With a range in order, a given string status is accepted exactly when it is a request status. */
  lemma StatusIsARequestStatus(db: Db, req: AuthMiddleware.Request, query: Row, today: Date, status: string)
    requires InRange(today) && RoleMiddleware.AdminOnly(req).Next?
    requires RangeOk(MaintenanceFilters(query, today).0, MaintenanceFilters(query, today).1)
    requires Get(query, "status") == Str(status) && Truthy(Str(status))
    ensures IsSuccess(Maintenance(db, req, query, today, false)) <==> status in MAINTENANCE_STATUSES
  {
    var filters := MaintenanceFilters(query, today);
    assert filters.2 == Str(status);
    assert StatusOk(filters.2) <==> status in MAINTENANCE_STATUSES by {
      AllowedAreWords();
      LooseInWords(status, MAINTENANCE_STATUSES);
    }
    assert Maintenance(db, req, query, today, false) == MaintenanceAnswer(db, filters.0, filters.1, filters.2, false);
  }

  /** Every report endpoint answers 401 to a request no authentication middleware has run on. */
  lemma ReportsNeedAuthentication(db: Db, env: AuthMiddleware.Env, query: Row, body: Body, today: Date, raises: bool)
    requires InRange(today)
    ensures var unauthorized := Error("Authentication required", "UNAUTHORIZED", Arr(map[]), 401);
            var req := AuthMiddleware.Begin(env);
            && Revenue(db, req, query, today, raises) == unauthorized
            && Occupancy(db, req, query, raises) == unauthorized
            && Maintenance(db, req, query, today, raises) == unauthorized
            && Export(db, req, body, today, raises) == unauthorized
  {
    RoleMiddleware.FreshRequestUnauthenticated(env, [ROLE_ADMIN]);
  }

  // ----- POST /reports/export -----

  /**
   ReportsController::getReportData: a strict match on the report type, the
   model's default filters for the rest, and an empty list for anything else.
   */
  function ReportData(db: Db, reportType: Val, start: Val, end: Val): (r: seq<Row>)
    ensures !(reportType.Str? && reportType.s in REPORT_TYPES) ==> r == []
    ensures reportType == Str("revenue") ==> r == ReportRevenue.GetRevenueReport(db.payments.rows, start, end)
    ensures reportType == Str("occupancy") ==> r == ReportOccupancy.GetOccupancyReport(db.properties.rows, db.tenants.rows, start, end)
    ensures reportType == Str("maintenance") ==> r == ReportMaintenance.GetMaintenanceReport(db.maintenance, db.properties, start, end)
    ensures reportType == Str("property_performance") ==>
              r == ReportPerformance.GetPropertyPerformance(db.properties.rows, db.payments.rows, db.maintenance.rows, start, end)
  {
    if reportType == Str("revenue") then ReportRevenue.GetRevenueReport(db.payments.rows, start, end)
    else if reportType == Str("occupancy") then ReportOccupancy.GetOccupancyReport(db.properties.rows, db.tenants.rows, start, end)
    else if reportType == Str("maintenance") then ReportMaintenance.GetMaintenanceReport(db.maintenance, db.properties, start, end)
    else if reportType == Str("property_performance") then
      ReportPerformance.GetPropertyPerformance(db.properties.rows, db.payments.rows, db.maintenance.rows, start, end)
    else []
  }

  /** The columns of a report type's rows, in SELECT order. */
  function Columns(reportType: Val): seq<string> {
    if reportType == Str("revenue") then REVENUE_COLUMNS
    else if reportType == Str("occupancy") then OCCUPANCY_COLUMNS
    else if reportType == Str("maintenance") then ReportMaintenance.LISTED_COLUMNS
    else PERFORMANCE_COLUMNS
  }

  /** One fputcsv line: the row's values in column order. */
  function CsvLine(row: Row, columns: seq<string>): (line: seq<Val>)
    ensures |line| == |columns|
    ensures forall j :: 0 <= j < |columns| ==> line[j] == Get(row, columns[j])
  {
    seq(|columns|, j requires 0 <= j < |columns| => Get(row, columns[j]))
  }

  /** The CSV table: the header line, then one line per row. */
  function Csv(data: seq<Row>, columns: seq<string>): (lines: seq<seq<Val>>)
    ensures |lines| == |data| + 1 && lines[0] == StrList(columns)
    ensures forall i :: 0 <= i < |data| ==> lines[i + 1] == CsvLine(data[i], columns)
  {
    [StrList(columns)] + seq(|data|, i requires 0 <= i < |data| => CsvLine(data[i], columns))
  }

  /**
   Reading the table back: every cell under a header holds the value the
   row has in that column, so each line gives back the row's columns.
   */
  lemma {:induction false} CsvReadsBack(data: seq<Row>, columns: seq<string>, i: nat, j: nat)
    requires i < |data| && j < |columns|
    ensures var lines := Csv(data, columns);
            && lines[0][j].Str?
            && j < |lines[i + 1]|
            && lines[i + 1][j] == Get(data[i], lines[0][j].s)
  {
    var lines := Csv(data, columns);
    assert lines[i + 1] == CsvLine(data[i], columns);
  }

  /** ReportsController::exportCSV: no rows answer 404, anything else a table. */
  function ExportCsv(data: seq<Row>, reportType: Val): (o: Outcome)
    ensures |data| == 0 <==> o == NoData()
    ensures |data| > 0 ==> o == CsvFile(ToStr(reportType), Csv(data, Columns(reportType)))
  {
    if |data| == 0 then NoData() else CsvFile(ToStr(reportType), Csv(data, Columns(reportType)))
  }

  /** The export filters with their defaults: no report type, CSV, this month. */
  function ExportFilters(input: Row, today: Date): (Val, Val, Val, Val)
    requires InRange(today)
  {
    (Coalesce(input, "report_type", Null),
     Coalesce(input, "format", Str("csv")),
     Coalesce(input, "start_date", MonthStart(today)),
     Coalesce(input, "end_date", MonthEnd(today)))
  }

  /** The export filters pass: the type and the format loosely allowed, the two dates valid, in any order. */
  predicate ExportAccepts(input: Row, today: Date)
    requires InRange(today)
  {
    var (reportType, format, start, end) := ExportFilters(input, today);
    InArrayLoose(reportType, StrList(REPORT_TYPES)) && InArrayLoose(format, StrList(FORMATS))
    && ValidDate(start) && ValidDate(end)
  }

  /** The export checks on the filters, in order: the type, the format, then the two dates. */
  function ExportCheck(reportType: Val, format: Val, start: Val, end: Val): (s: Step<bool>)
    ensures !InArrayLoose(reportType, StrList(REPORT_TYPES)) ==> s == Halt(BadReportType())
    ensures InArrayLoose(reportType, StrList(REPORT_TYPES)) && !InArrayLoose(format, StrList(FORMATS)) ==> s == Halt(BadFormat())
    ensures (InArrayLoose(reportType, StrList(REPORT_TYPES)) && InArrayLoose(format, StrList(FORMATS))
             && !(ValidDate(start) && ValidDate(end))) ==> s == Halt(BadDates())
    ensures s.Next? <==> InArrayLoose(reportType, StrList(REPORT_TYPES)) && InArrayLoose(format, StrList(FORMATS))
                         && ValidDate(start) && ValidDate(end)
  {
    if !InArrayLoose(reportType, StrList(REPORT_TYPES)) then Halt(BadReportType())
    else if !InArrayLoose(format, StrList(FORMATS)) then Halt(BadFormat())
    else if !ValidDate(start) || !ValidDate(end) then Halt(BadDates())
    else Next(true)
  }

  /** The file of an accepted export: a 500 when the query fails, CSV for exactly "csv", JSON otherwise. */
  function ExportFile(db: Db, reportType: Val, format: Val, start: Val, end: Val, raises: bool): (o: Outcome)
    ensures raises ==> o == Failed("Failed to export report")
    ensures !raises && format == Str("csv") ==> o == ExportCsv(ReportData(db, reportType, start, end), reportType)
    ensures !raises && format != Str("csv") ==> o == JsonFile(ToStr(reportType), ReportData(db, reportType, start, end))
  {
    if raises then Failed("Failed to export report")
    else
      var data := ReportData(db, reportType, start, end);
      if format == Str("csv") then ExportCsv(data, reportType)
      else JsonFile(ToStr(reportType), data)
  }

  /** The export checks and answer on the filters: the first failing check, else the file. */
  function ExportAnswer(db: Db, reportType: Val, format: Val, start: Val, end: Val, raises: bool): (o: Outcome)
    ensures ExportCheck(reportType, format, start, end).Halt? ==> o == ExportCheck(reportType, format, start, end).out
    ensures ExportCheck(reportType, format, start, end).Next? ==> o == ExportFile(db, reportType, format, start, end, raises)
  {
    var check := ExportCheck(reportType, format, start, end);
    if check.Halt? then check.out else ExportFile(db, reportType, format, start, end, raises)
  }

  /**
   ReportsController::export: admins only; the body must decode; then the
   type, the format and the dates are checked, in that order, and the order
   of the dates is not. The data of the strictly matched type is sent as CSV
   when the format is exactly the string "csv" and as JSON otherwise.
   */
  function Export(db: Db, req: AuthMiddleware.Request, body: Body, today: Date, raises: bool): (o: Outcome)
    requires InRange(today)
    ensures RoleMiddleware.AdminOnly(req).Halt? ==> o == RoleMiddleware.AdminOnly(req).out
    ensures RoleMiddleware.AdminOnly(req).Next? && JsonError(body) ==> o == InvalidJson()
    ensures var (reportType, format, start, end) := ExportFilters(Input(body), today);
            RoleMiddleware.AdminOnly(req).Next? && !JsonError(body) ==>
              o == ExportAnswer(db, reportType, format, start, end, raises)
  {
    var gate := RoleMiddleware.AdminOnly(req);
    if gate.Halt? then gate.out
    else if JsonError(body) then InvalidJson()
    else
      var (reportType, format, start, end) := ExportFilters(Input(body), today);
      ExportAnswer(db, reportType, format, start, end, raises)
  }

  /** A body giving all four filters is read as given. */
  lemma FullBodyFilters(reportType: Val, format: Val, start: Val, end: Val, today: Date)
    requires InRange(today) && reportType != Null && format != Null && start != Null && end != Null
    ensures var input := map["report_type" := reportType, "format" := format, "start_date" := start, "end_date" := end];
            ExportFilters(input, today) == (reportType, format, start, end)
  {
  }

  /** A body giving the type and the format exports this month. */
  lemma TypeAndFormatFilters(reportType: Val, format: Val, today: Date)
    requires InRange(today) && reportType != Null && format != Null
    ensures var input := map["report_type" := reportType, "format" := format];
            ExportFilters(input, today) == (reportType, format, MonthStart(today), MonthEnd(today))
  {
  }

  /** The export of a decoded array body is the answer on its filters. */
  lemma ExportOfInput(db: Db, req: AuthMiddleware.Request, input: Row, today: Date, raises: bool)
    requires InRange(today) && RoleMiddleware.AdminOnly(req).Next?
    ensures var (reportType, format, start, end) := ExportFilters(input, today);
            Export(db, req, Decoded(Arr(input)), today, raises) == ExportAnswer(db, reportType, format, start, end, raises)
  {
    var body := Decoded(Arr(input));
    assert Input(body) == input && !JsonError(body);
    var (reportType, format, start, end) := ExportFilters(input, today);
    assert Export(db, req, body, today, raises) == ExportAnswer(db, reportType, format, start, end, raises);
  }

  /** On valid dates a report type of boolean true exports no rows, which as CSV is a 404. */
  lemma TrueTypeAnswer(db: Db, start: Val, end: Val)
    requires ValidDate(start) && ValidDate(end)
    ensures ExportAnswer(db, Bool(true), Str("csv"), start, end, false) == NoData()
  {
    TruePassesExportChecks();
    FormatListed("csv");
    CsvExport(db, Bool(true), start, end);
    assert ReportData(db, Bool(true), start, end) == [];
  }

  /** An accepted export asking for "csv" answers the report's rows as CSV. */
  lemma CsvExport(db: Db, reportType: Val, start: Val, end: Val)
    requires ExportCheck(reportType, Str("csv"), start, end).Next?
    ensures ExportAnswer(db, reportType, Str("csv"), start, end, false) == ExportCsv(ReportData(db, reportType, start, end), reportType)
  {
  }

  /**
   A report type of boolean true passes the loose in_array check but
   matches no arm of the strict match: the export has no rows, and as CSV
   (the default format) it answers 404.
   */
  lemma TrueReportTypeFindsNothing(db: Db, req: AuthMiddleware.Request, today: Date)
    requires InRange(today) && RoleMiddleware.AdminOnly(req).Next?
    ensures Export(db, req, Decoded(Arr(map["report_type" := Bool(true)])), today, false) == NoData()
  {
    ThisMonthInOrder(today);
    TypeOnlyExport(db, req, Bool(true), today);
    TrueTypeAnswer(db, MonthStart(today), MonthEnd(today));
  }

  /** A body giving only a report type exports this month's range as CSV. */
  lemma TypeOnlyExport(db: Db, req: AuthMiddleware.Request, reportType: Val, today: Date)
    requires InRange(today) && RoleMiddleware.AdminOnly(req).Next? && reportType != Null
    ensures Export(db, req, Decoded(Arr(map["report_type" := reportType])), today, false)
            == ExportAnswer(db, reportType, Str("csv"), MonthStart(today), MonthEnd(today), false)
  {
    var input := map["report_type" := reportType];
    ExportOfInput(db, req, input, today, false);
    assert "format" !in input && "start_date" !in input && "end_date" !in input;
    assert ExportFilters(input, today) == (reportType, Str("csv"), MonthStart(today), MonthEnd(today));
  }

  /** On valid dates a format of boolean true exports the occupancy report as JSON. */
  lemma TrueFormatAnswer(db: Db, start: Val, end: Val)
    requires ValidDate(start) && ValidDate(end)
    ensures ExportAnswer(db, Str("occupancy"), Bool(true), start, end, false)
            == JsonFile("occupancy", ReportOccupancy.GetOccupancyReport(db.properties.rows, db.tenants.rows, start, end))
  {
    TypeListed("occupancy");
    TruePassesExportChecks();
    JsonExport(db, "occupancy", Bool(true), start, end);
    OccupancyData(db, start, end);
  }

  /** An accepted export in any format but "csv" answers the report's rows as JSON. */
  lemma JsonExport(db: Db, reportType: string, format: Val, start: Val, end: Val)
    requires ExportCheck(Str(reportType), format, start, end).Next? && format != Str("csv")
    ensures ExportAnswer(db, Str(reportType), format, start, end, false) == JsonFile(reportType, ReportData(db, Str(reportType), start, end))
  {
    AcceptedExport(db, Str(reportType), format, start, end);
    assert ToStr(Str(reportType)) == reportType;
    assert ExportFile(db, Str(reportType), format, start, end, false)
           == JsonFile(ToStr(Str(reportType)), ReportData(db, Str(reportType), start, end));
  }

  /** An accepted export answers with its file. */
  lemma AcceptedExport(db: Db, reportType: Val, format: Val, start: Val, end: Val)
    requires ExportCheck(reportType, format, start, end).Next?
    ensures ExportAnswer(db, reportType, format, start, end, false) == ExportFile(db, reportType, format, start, end, false)
  {
  }

  /** The rows exported for "occupancy" are the occupancy report's. */
  lemma OccupancyData(db: Db, start: Val, end: Val)
    ensures ReportData(db, Str("occupancy"), start, end) == ReportOccupancy.GetOccupancyReport(db.properties.rows, db.tenants.rows, start, end)
  {
  }

  /** A report type of the whitelist passes the export's type check. */
  lemma TypeListed(reportType: string)
    requires reportType in REPORT_TYPES
    ensures InArrayLoose(Str(reportType), StrList(REPORT_TYPES))
  {
    AllowedAreWords();
    LooseInWords(reportType, REPORT_TYPES);
  }

  /** A format of the whitelist passes the export's format check. */
  lemma FormatListed(format: string)
    requires format in FORMATS
    ensures InArrayLoose(Str(format), StrList(FORMATS))
  {
    AllowedAreWords();
    LooseInWords(format, FORMATS);
  }

  /** A format of boolean true passes the format check and, not being the string "csv", exports JSON. */
  lemma TrueFormatExportsJson(db: Db, req: AuthMiddleware.Request, today: Date)
    requires InRange(today) && RoleMiddleware.AdminOnly(req).Next?
    ensures var body := Decoded(Arr(map["report_type" := Str("occupancy"), "format" := Bool(true)]));
            Export(db, req, body, today, false)
              == JsonFile("occupancy", ReportOccupancy.GetOccupancyReport(db.properties.rows, db.tenants.rows,
                                                                          MonthStart(today), MonthEnd(today)))
  {
    ThisMonthInOrder(today);
    var input := map["report_type" := Str("occupancy"), "format" := Bool(true)];
    ExportOfInput(db, req, input, today, false);
    TypeAndFormatFilters(Str("occupancy"), Bool(true), today);
    TrueFormatAnswer(db, MonthStart(today), MonthEnd(today));
  }

  /** On any two valid dates the performance report is exported as JSON, one row per property. */
  lemma PerformanceAnswer(db: Db, start: Val, end: Val)
    requires ValidDate(start) && ValidDate(end)
    ensures var o := ExportAnswer(db, Str("property_performance"), Str("json"), start, end, false);
            && o.JsonFile?
            && o.data == ReportPerformance.GetPropertyPerformance(db.properties.rows, db.payments.rows, db.maintenance.rows, start, end)
            && |o.data| == |db.properties.rows|
  {
    TypeListed("property_performance");
    FormatListed("json");
    JsonExport(db, "property_performance", Str("json"), start, end);
    PerformanceData(db, start, end);
  }

  /** The rows exported for "property_performance" are the performance report's, one per property. */
  lemma PerformanceData(db: Db, start: Val, end: Val)
    ensures ReportData(db, Str("property_performance"), start, end)
            == ReportPerformance.GetPropertyPerformance(db.properties.rows, db.payments.rows, db.maintenance.rows, start, end)
    ensures |ReportData(db, Str("property_performance"), start, end)| == |db.properties.rows|
  {
  }

  /**
   Unlike the report endpoints, the export does not check the order of the
   dates: a reversed range still exports the performance of every property.
   */
  lemma ExportAcceptsReversedRange(db: Db, req: AuthMiddleware.Request, today: Date, start: string, end: string)
    requires InRange(today) && RoleMiddleware.AdminOnly(req).Next?
    requires IsValidDate(start) && IsValidDate(end) && Before(DateOf(end), DateOf(start))
    ensures var body := Decoded(Arr(map["report_type" := Str("property_performance"), "format" := Str("json"),
                                        "start_date" := Str(start), "end_date" := Str(end)]));
            var o := Export(db, req, body, today, false);
            && o.JsonFile?
            && o.data == ReportPerformance.GetPropertyPerformance(db.properties.rows, db.payments.rows, db.maintenance.rows, Str(start), Str(end))
            && |o.data| == |db.properties.rows|
  {
    var input := map["report_type" := Str("property_performance"), "format" := Str("json"),
                     "start_date" := Str(start), "end_date" := Str(end)];
    ExportOfInput(db, req, input, today, false);
    FullBodyFilters(Str("property_performance"), Str("json"), Str(start), Str(end), today);
    PerformanceAnswer(db, Str(start), Str(end));
  }

  /** An accepted CSV export of a non-empty report is a header line and one line per row. */
  lemma CsvExportHasALinePerRow(db: Db, req: AuthMiddleware.Request, body: Body, today: Date)
    requires InRange(today) && RoleMiddleware.AdminOnly(req).Next? && !JsonError(body)
    requires ExportAccepts(Input(body), today) && ExportFilters(Input(body), today).1 == Str("csv")
    ensures var (reportType, _, start, end) := ExportFilters(Input(body), today);
            var data := ReportData(db, reportType, start, end);
            var o := Export(db, req, body, today, false);
            && (|data| == 0 ==> IsError(o, "NOT_FOUND", 404))
            && (|data| > 0 ==> o.CsvFile? && |o.lines| == |data| + 1 && o.lines[0] == StrList(Columns(reportType)))
  {
    var (reportType, _, start, end) := ExportFilters(Input(body), today);
    if |ReportData(db, reportType, start, end)| == 0 {
      ErrorIsError("No data available for export", "NOT_FOUND", Arr(map[]), 404);
    }
  }
}
