/**
 The maintenance statements of Report: the requests raised within a date
 range listed with their property (getMaintenanceReport), totalled per
 property (generateMaintenanceReport), and summarised by status and
 priority (getMaintenanceSummary).
 */
module ReportMaintenance {
  import opened Php
  import opened Wrappers
  import opened Rows
  import opened Sql
  import opened BaseModel
  import opened Joins
  import opened Constants
  import opened Aggregates
  import ReportRevenue

  const URGENT: string := "urgent"
  const EMERGENCY: string := "emergency"

  /** The columns getMaintenanceReport selects, days_to_resolve aside. */
  const LISTED_COLUMNS: seq<string> :=
    [PRIMARY_KEY, "title", "description", "priority", "status", "category", "cost",
     "created_at", "completed_at", "property_name", "city"]

  /** The request was raised within the range: `created_at BETWEEN start AND end`. */
  function RaisedWithin(start: Val, end: Val): Row -> bool {
    row => Within(row, "created_at", start, end)
  }

  // ---------------------------------------------------------------- listing

  /** A request getMaintenanceReport lists: raised within the range, and with the status asked for when one is given. */
  predicate Raised(start: Val, end: Val, status: Val, row: Row) {
    Within(row, "created_at", start, end) && (Truthy(status) ==> Holds(Get(row, "status"), Eq, status))
  }

  function RaisedBy(start: Val, end: Val, status: Val): Row -> bool {
    row => Raised(start, end, status, row)
  }

  /**
   getMaintenanceReport's WHERE clause and parameters: the date range, and
   `m.status = ?` with its parameter only when a status is given.
   */
  function MaintenanceWhere(start: Val, end: Val, status: Val): (r: (seq<Cond>, seq<Val>))
    ensures Holes(r.0) == |r.1|
    ensures r.1 == if Truthy(status) then [start, end, status] else [start, end]
    ensures forall row: Row :: Satisfies(row, r.0, r.1) <==> Raised(start, end, status, row)
  {
    var range := [Between("created_at")];
    var extra := Optional(Truthy(status), Bound("status", Eq), status);
    assert range[1..] == [];
    forall row: Row ensures Holes(range + extra.0) == |[start, end] + extra.1|
      && (Satisfies(row, range + extra.0, [start, end] + extra.1) <==> Raised(start, end, status, row)) {
      SatisfiesAppend(row, range, extra.0, [start, end], extra.1);
      var args := [start, end];
      assert args[..2] == args && args[2..] == [];
    }
    HolesAppend(range, extra.0);
    (range + extra.0, [start, end] + extra.1)
  }

  /** The join adds none of the request columns the statements test, count or list. */
  lemma PropertyJoinKeepsRequests(properties: Table)
    ensures var js := [ReportRevenue.PropertyJoin(properties)];
            && NoAlias(js, "created_at") && NoAlias(js, "status") && NoAlias(js, "priority")
            && NoAlias(js, PRIMARY_KEY) && NoAlias(js, "property_id")
  {
  }

  /** Each row narrowed to the columns `columns`. */
  function ProjectEach(rows: seq<Row>, columns: seq<string>): (r: seq<Row>)
    ensures |r| == |rows|
    ensures forall i :: 0 <= i < |r| ==> r[i] == Project(rows[i], columns)
  {
    if |rows| == 0 then [] else [Project(rows[0], columns)] + ProjectEach(rows[1..], columns)
  }

  /** Report::getMaintenanceReport: the requests raised in the range (with the status asked for), each with its property's name and city. */
  function GetMaintenanceReport(maintenance: Table, properties: Table, start: Val, end: Val, status: Val := Null): (r: seq<Row>)
    ensures forall i :: 0 <= i < |r| ==> r[i].Keys == set k | k in LISTED_COLUMNS
  {
    var (w, params) := MaintenanceWhere(start, end, status);
    var selected := Filter(Joined(maintenance.rows, [ReportRevenue.PropertyJoin(properties)]), Matching(w, params));
    ProjectEach(selected, LISTED_COLUMNS)
  }

  /** The WHERE clause reads only request columns, so it may as well run before the join. */
  lemma {:induction false} ListedBeforeJoin(maintenance: Table, properties: Table, start: Val, end: Val, status: Val)
    ensures var (w, params) := MaintenanceWhere(start, end, status);
            Filter(Joined(maintenance.rows, [ReportRevenue.PropertyJoin(properties)]), Matching(w, params))
            == Joined(Filter(maintenance.rows, RaisedBy(start, end, status)), [ReportRevenue.PropertyJoin(properties)])
  {
    var (w, params) := MaintenanceWhere(start, end, status);
    var js := [ReportRevenue.PropertyJoin(properties)];
    var rows := maintenance.rows;
    PropertyJoinKeepsRequests(properties);
    forall i | 0 <= i < |rows| && JoinAll(rows[i], js).Some?
      ensures Matching(w, params)(JoinAll(rows[i], js).value) == Matching(w, params)(rows[i]) {
      JoinKeeps(rows[i], js, "created_at");
      JoinKeeps(rows[i], js, "status");
    }
    FilterJoined(rows, js, Matching(w, params));
    FilterAgree(rows, Matching(w, params), RaisedBy(start, end, status));
  }

  /** Every request's property exists: the foreign key holds. */
  predicate PropertiesExist(maintenance: Table, properties: Table) {
    forall i :: 0 <= i < |maintenance.rows| ==> JoinAll(maintenance.rows[i], [ReportRevenue.PropertyJoin(properties)]).Some?
  }

  /** A listed row carries its request's id, status and date. */
  lemma ListedRow(row: Row, properties: Table)
    requires JoinAll(row, [ReportRevenue.PropertyJoin(properties)]).Some?
    ensures var x := Project(JoinAll(row, [ReportRevenue.PropertyJoin(properties)]).value, LISTED_COLUMNS);
            && Get(x, PRIMARY_KEY) == Get(row, PRIMARY_KEY)
            && Get(x, "status") == Get(row, "status")
            && Get(x, "created_at") == Get(row, "created_at")
  {
    var js := [ReportRevenue.PropertyJoin(properties)];
    PropertyJoinKeepsRequests(properties);
    JoinKeeps(row, js, PRIMARY_KEY);
    JoinKeeps(row, js, "status");
    JoinKeeps(row, js, "created_at");
    assert PRIMARY_KEY in LISTED_COLUMNS && "status" in LISTED_COLUMNS && "created_at" in LISTED_COLUMNS;
  }

  /**
   When every request's property exists, the report lists exactly the
   requests raised in the range, and with a status given only requests
   with that status, in table order, each with its own id, status and date.
   */
  lemma {:induction false} ListsRaisedRequests(maintenance: Table, properties: Table, start: Val, end: Val, status: Val)
    requires PropertiesExist(maintenance, properties)
    ensures var r := GetMaintenanceReport(maintenance, properties, start, end, status);
            var raised := Filter(maintenance.rows, RaisedBy(start, end, status));
            && |r| == |raised|
            && forall i :: 0 <= i < |r| ==>
                 && Get(r[i], PRIMARY_KEY) == Get(raised[i], PRIMARY_KEY)
                 && Get(r[i], "status") == Get(raised[i], "status")
                 && Get(r[i], "created_at") == Get(raised[i], "created_at")
                 && Raised(start, end, status, r[i])
  {
    var js := [ReportRevenue.PropertyJoin(properties)];
    var raised := Filter(maintenance.rows, RaisedBy(start, end, status));
    ListedBeforeJoin(maintenance, properties, start, end, status);
    var joined := Joined(raised, js);
    var r := GetMaintenanceReport(maintenance, properties, start, end, status);
    assert r == ProjectEach(joined, LISTED_COLUMNS);
    FilteredJoinable(maintenance, properties, RaisedBy(start, end, status));
    FilterAll(raised, Joinable(js));
    forall i | 0 <= i < |r|
      ensures Get(r[i], PRIMARY_KEY) == Get(raised[i], PRIMARY_KEY)
      ensures Get(r[i], "status") == Get(raised[i], "status")
      ensures Get(r[i], "created_at") == Get(raised[i], "created_at")
      ensures Raised(start, end, status, r[i]) {
      assert JoinAll(raised[i], js) == Some(joined[i]);
      assert raised[i] in raised;
      ListedRaisedRow(raised[i], properties, start, end, status);
    }
  }

  /** When every request's property exists, every request a filter keeps joins. */
  lemma FilteredJoinable(maintenance: Table, properties: Table, p: Row -> bool)
    requires PropertiesExist(maintenance, properties)
    ensures var kept := Filter(maintenance.rows, p);
            forall i :: 0 <= i < |kept| ==> Joinable([ReportRevenue.PropertyJoin(properties)])(kept[i])
  {
    var kept := Filter(maintenance.rows, p);
    forall i | 0 <= i < |kept| ensures Joinable([ReportRevenue.PropertyJoin(properties)])(kept[i]) {
      assert kept[i] in kept;
      var k :| 0 <= k < |maintenance.rows| && maintenance.rows[k] == kept[i];
    }
  }

  /** A raised request, once joined and listed, is still raised and keeps its id, status and date. */
  lemma ListedRaisedRow(row: Row, properties: Table, start: Val, end: Val, status: Val)
    requires JoinAll(row, [ReportRevenue.PropertyJoin(properties)]).Some? && Raised(start, end, status, row)
    ensures var x := Project(JoinAll(row, [ReportRevenue.PropertyJoin(properties)]).value, LISTED_COLUMNS);
            && Get(x, PRIMARY_KEY) == Get(row, PRIMARY_KEY)
            && Get(x, "status") == Get(row, "status")
            && Get(x, "created_at") == Get(row, "created_at")
            && Raised(start, end, status, x)
  {
    ListedRow(row, properties);
  }

  // ---------------------------------------------------------------- summary

  /**
   The summary statement over the requests raised in the range, with the
   priority counted as urgent given as `urgent`.
   */
  function SummaryOf(maintenance: seq<Row>, start: Val, end: Val, urgent: string): (r: Row)
    ensures var e := Filter(maintenance, RaisedWithin(start, end));
            && Get(r, "total_requests") == Int(|e|)
            && Get(r, "pending_requests") == Sum(e, When("status", "pending", One()))
            && Get(r, "in_progress_requests") == Sum(e, When("status", "in_progress", One()))
            && Get(r, "completed_requests") == Sum(e, When("status", "completed", One()))
            && Get(r, "cancelled_requests") == Sum(e, When("status", "cancelled", One()))
            && Get(r, "urgent_requests") == Sum(e, When("priority", urgent, One()))
            && Get(r, "total_cost") == SumColumn(e, "cost")
  {
    var e := Filter(maintenance, RaisedWithin(start, end));
    SummaryRow(Int(|e|),
               Sum(e, When("status", "pending", One())),
               Sum(e, When("status", "in_progress", One())),
               Sum(e, When("status", "completed", One())),
               Sum(e, When("status", "cancelled", One())),
               Sum(e, When("priority", urgent, One())),
               SumColumn(e, "cost"))
  }

  /** The summary row's seven columns, each holding its own value. */
  function SummaryRow(total: Val, pending: Val, inProgress: Val, completed: Val, cancelled: Val, urgent: Val, cost: Val): (r: Row)
    ensures Get(r, "total_requests") == total && Get(r, "pending_requests") == pending
    ensures Get(r, "in_progress_requests") == inProgress && Get(r, "completed_requests") == completed
    ensures Get(r, "cancelled_requests") == cancelled && Get(r, "urgent_requests") == urgent
    ensures Get(r, "total_cost") == cost
  {
    map["total_requests" := total,
        "pending_requests" := pending,
        "in_progress_requests" := inProgress,
        "completed_requests" := completed,
        "cancelled_requests" := cancelled,
        "urgent_requests" := urgent,
        "total_cost" := cost]
  }

  /** Report::getMaintenanceSummary as written: urgent requests are those with priority 'urgent'. */
  function GetMaintenanceSummary(maintenance: seq<Row>, start: Val, end: Val): (r: Row)
    ensures r == SummaryOf(maintenance, start, end, URGENT)
  {
    SummaryOf(maintenance, start, end, URGENT)
  }

  /** The summary as evidently intended: urgent requests are those of the highest priority the table admits, 'emergency'. */
  function CorrectedMaintenanceSummary(maintenance: seq<Row>, start: Val, end: Val): (r: Row)
    ensures r == SummaryOf(maintenance, start, end, EMERGENCY)
  {
    SummaryOf(maintenance, start, end, EMERGENCY)
  }

  lemma MaintenanceStatusesDistinct()
    ensures Distinct(MAINTENANCE_STATUSES)
  {
  }

  /** Every request in the range has one of the statuses the table admits. */
  predicate KnownStatuses(maintenance: seq<Row>) {
    forall i :: 0 <= i < |maintenance| ==> OneOf(maintenance[i], "status", MAINTENANCE_STATUSES)
  }

  /** When every request has a status the table admits, the four status counts add up to the number of requests. */
  lemma {:induction false} StatusCountsAddUp(maintenance: seq<Row>, start: Val, end: Val, urgent: string)
    requires KnownStatuses(maintenance)
    ensures var r := SummaryOf(maintenance, start, end, urgent);
            Number(Get(r, "pending_requests")) + Number(Get(r, "in_progress_requests"))
            + Number(Get(r, "completed_requests")) + Number(Get(r, "cancelled_requests"))
            == Number(Get(r, "total_requests"))
  {
    var e := Filter(maintenance, RaisedWithin(start, end));
    forall i | 0 <= i < |e| ensures OneOf(e[i], "status", MAINTENANCE_STATUSES) {
      assert e[i] in e;
    }
    MaintenanceStatusesDistinct();
    CasesCoverAll(e, "status", MAINTENANCE_STATUSES, One());
    TotalOne(e);
    var v := MAINTENANCE_STATUSES;
    var c := "status";
    assert v[1..][1..][1..][1..] == [];
    assert CaseTotals(e, c, v[1..][1..][1..], One()) == Total(e, When(c, "cancelled", One()));
    assert CaseTotals(e, c, v[1..][1..], One())
           == Total(e, When(c, "completed", One())) + CaseTotals(e, c, v[1..][1..][1..], One());
    assert CaseTotals(e, c, v[1..], One())
           == Total(e, When(c, "in_progress", One())) + CaseTotals(e, c, v[1..][1..], One());
  }

  /** Every request has one of the priorities the table admits. */
  predicate KnownPriorities(maintenance: seq<Row>) {
    forall i :: 0 <= i < |maintenance| ==> OneOf(maintenance[i], "priority", MAINTENANCE_PRIORITIES)
  }

  /** As written, urgent_requests counts nothing: 'urgent' is not a priority the table admits. */
  lemma {:induction false} UrgentNeverCounted(maintenance: seq<Row>, start: Val, end: Val)
    requires KnownPriorities(maintenance)
    ensures Number(Get(GetMaintenanceSummary(maintenance, start, end), "urgent_requests")) == 0
  {
    var e := Filter(maintenance, RaisedWithin(start, end));
    forall i | 0 <= i < |e| ensures Get(e[i], "priority").Str? && Get(e[i], "priority").s != URGENT {
      assert e[i] in e;
      assert OneOf(e[i], "priority", MAINTENANCE_PRIORITIES);
    }
    WhenNone(e, "priority", URGENT, One());
  }

  /** Corrected, urgent_requests is the number of emergency requests raised in the range. */
  lemma {:induction false} CorrectedUrgentCounts(maintenance: seq<Row>, start: Val, end: Val)
    ensures var e := Filter(maintenance, RaisedWithin(start, end));
            Number(Get(CorrectedMaintenanceSummary(maintenance, start, end), "urgent_requests"))
            == |Filter(e, x => Is(x, "priority", EMERGENCY))|
  {
    var e := Filter(maintenance, RaisedWithin(start, end));
    CaseCountIsFilter(e, "priority", EMERGENCY);
  }

  /** The counterexample: one emergency request raised on the day asked about, and the summary reports no urgent request. */
  lemma EmergencyNotUrgent()
    ensures var day := Str("2024-05-10");
            var m := map["created_at" := day, "priority" := Str(EMERGENCY), "status" := Str("pending")];
            && Get(GetMaintenanceSummary([m], day, day), "urgent_requests") == Int(0)
            && Get(CorrectedMaintenanceSummary([m], day, day), "urgent_requests") == Int(1)
  {
    var day := Str("2024-05-10");
    var m := map["created_at" := day, "priority" := Str(EMERGENCY), "status" := Str("pending")];
    assert Get(m, "created_at") == day;
    assert Compare(day, day) == Some(0);
    assert Within(m, "created_at", day, day);
    assert Filter([m], RaisedWithin(day, day)) == [m] by {
      assert [m][1..] == [];
    }
    assert Is(m, "priority", EMERGENCY) && !Is(m, "priority", URGENT);
    assert [m][1..] == [];
    assert Total([m], When("priority", URGENT, One())) == 0 + Total([m][1..], When("priority", URGENT, One()));
    assert Total([m], When("priority", EMERGENCY, One())) == 1 + Total([m][1..], When("priority", EMERGENCY, One()));
  }

  // ------------------------------------------------------------ generation

  /** The requests raised in the range, joined with their property, before grouping. */
  function GeneratedSelected(maintenance: Table, properties: Table, start: Val, end: Val): seq<Row> {
    var range := [Between("created_at")];
    assert range[1..] == [];
    Filter(Joined(maintenance.rows, [ReportRevenue.PropertyJoin(properties)]), Matching(range, [start, end]))
  }

  /** The statuses generateMaintenanceReport counts, each in its own column. */
  const COUNTED_STATUSES: seq<string> := ["completed", "pending", "in_progress"]

  /** One row of generateMaintenanceReport: a property's requests counted, by status, and costed. */
  function GeneratedRow(g: seq<Row>): (r: Row)
    requires |g| > 0
    ensures Get(r, "total_requests") == Int(|Filter(g, NonNull(PRIMARY_KEY))|)
    ensures Get(r, "completed_requests") == Sum(g, When("status", "completed", One()))
    ensures Get(r, "pending_requests") == Sum(g, When("status", "pending", One()))
    ensures Get(r, "in_progress_requests") == Sum(g, When("status", "in_progress", One()))
  {
    map["property_name" := Get(g[0], "property_name"),
        "city" := Get(g[0], "city"),
        "total_requests" := Int(|Filter(g, NonNull(PRIMARY_KEY))|),
        "completed_requests" := Sum(g, When("status", "completed", One())),
        "pending_requests" := Sum(g, When("status", "pending", One())),
        "in_progress_requests" := Sum(g, When("status", "in_progress", One())),
        "total_cost" := SumColumn(g, "cost")]
  }

  function GeneratedRows(gs: seq<seq<Row>>): (r: seq<Row>)
    requires forall i :: 0 <= i < |gs| ==> |gs[i]| > 0
    ensures |r| == |gs|
    ensures forall i :: 0 <= i < |gs| ==> r[i] == GeneratedRow(gs[i])
  {
    if |gs| == 0 then [] else [GeneratedRow(gs[0])] + GeneratedRows(gs[1..])
  }

  /** Report::generateMaintenanceReport: the requests raised in the range, counted per property. */
  function GenerateMaintenanceReport(maintenance: Table, properties: Table, start: Val, end: Val): (r: seq<Row>)
    ensures r == GeneratedRows(Groups(GeneratedSelected(maintenance, properties, start, end), ReportRevenue.PropertyKey()))
  {
    GeneratedRows(Groups(GeneratedSelected(maintenance, properties, start, end), ReportRevenue.PropertyKey()))
  }

  /** Every request has an id and a status string, as the table's columns guarantee. */
  predicate WellFormedRequests(maintenance: Table) {
    forall i :: 0 <= i < |maintenance.rows| ==>
      Get(maintenance.rows[i], PRIMARY_KEY) != Null && Get(maintenance.rows[i], "status").Str?
  }

  /** The selected rows are the requests raised in the range, joined. */
  lemma {:induction false} GeneratedBeforeJoin(maintenance: Table, properties: Table, start: Val, end: Val)
    ensures GeneratedSelected(maintenance, properties, start, end)
            == Joined(Filter(maintenance.rows, RaisedWithin(start, end)), [ReportRevenue.PropertyJoin(properties)])
  {
    var range := [Between("created_at")];
    var js := [ReportRevenue.PropertyJoin(properties)];
    var rows := maintenance.rows;
    assert range[1..] == [];
    var m := Matching(range, [start, end]);
    PropertyJoinKeepsRequests(properties);
    forall i | 0 <= i < |rows| && JoinAll(rows[i], js).Some?
      ensures m(JoinAll(rows[i], js).value) == m(rows[i]) {
      RangeIgnoresJoin(js, start, end, rows[i]);
    }
    FilterJoined(rows, js, m);
    forall i | 0 <= i < |rows| ensures m(rows[i]) == RaisedWithin(start, end)(rows[i]) {
      var args := [start, end];
      assert args[..2] == args && args[2..] == [];
    }
    FilterAgree(rows, m, RaisedWithin(start, end));
  }

  /** Joins that add no created_at do not change whether a request was raised in the range. */
  lemma RangeIgnoresJoin(js: seq<Join>, start: Val, end: Val, row: Row)
    requires JoinAll(row, js).Some? && NoAlias(js, "created_at")
    ensures Matching([Between("created_at")], [start, end])(JoinAll(row, js).value)
            == Matching([Between("created_at")], [start, end])(row)
  {
    JoinKeeps(row, js, "created_at");
  }

  /** Every selected row is a well-formed request, joined. */
  lemma SelectedWellFormed(maintenance: Table, properties: Table, start: Val, end: Val)
    requires WellFormedRequests(maintenance)
    ensures forall x :: x in GeneratedSelected(maintenance, properties, start, end) ==>
              Get(x, PRIMARY_KEY) != Null && Get(x, "status").Str?
  {
    var js := [ReportRevenue.PropertyJoin(properties)];
    var kept := Filter(maintenance.rows, RaisedWithin(start, end));
    GeneratedBeforeJoin(maintenance, properties, start, end);
    PropertyJoinKeepsRequests(properties);
    forall x | x in GeneratedSelected(maintenance, properties, start, end)
      ensures Get(x, PRIMARY_KEY) != Null && Get(x, "status").Str? {
      JoinedFrom(kept, js, x);
      var row :| row in kept && JoinAll(row, js) == Some(x);
      JoinKeeps(row, js, PRIMARY_KEY);
      JoinKeeps(row, js, "status");
      var k :| 0 <= k < |maintenance.rows| && maintenance.rows[k] == row;
    }
  }

  /** The per-property request counts add up over the groups. */
  lemma {:induction false} GeneratedRowsCount(gs: seq<seq<Row>>)
    requires forall i :: 0 <= i < |gs| ==> |gs[i]| > 0
    requires forall i, x :: 0 <= i < |gs| && x in gs[i] ==> Get(x, PRIMARY_KEY) != Null
    ensures Total(GeneratedRows(gs), Column("total_requests")) == Sizes(gs)
  {
    if |gs| > 0 {
      assert forall i :: 0 <= i < |gs| - 1 ==> gs[1..][i] == gs[i + 1];
      GeneratedRowsCount(gs[1..]);
      assert forall k :: 0 <= k < |gs[0]| ==> gs[0][k] in gs[0];
      FilterAll(gs[0], NonNull(PRIMARY_KEY));
      assert GeneratedRows(gs)[1..] == GeneratedRows(gs[1..]);
    }
  }

  /**
   When the requests are well formed and their properties exist, the
   per-property counts add up to the number of requests raised in the range.
   */
  lemma {:induction false} GeneratedCountsAddUp(maintenance: Table, properties: Table, start: Val, end: Val)
    requires WellFormedRequests(maintenance) && PropertiesExist(maintenance, properties)
    ensures Total(GenerateMaintenanceReport(maintenance, properties, start, end), Column("total_requests"))
            == |Filter(maintenance.rows, RaisedWithin(start, end))|
  {
    var js := [ReportRevenue.PropertyJoin(properties)];
    var kept := Filter(maintenance.rows, RaisedWithin(start, end));
    var selected := GeneratedSelected(maintenance, properties, start, end);
    GeneratedBeforeJoin(maintenance, properties, start, end);
    FilteredJoinable(maintenance, properties, RaisedWithin(start, end));
    JoinedKeepsAll(kept, js);
    SelectedWellFormed(maintenance, properties, start, end);
    var gs := Groups(selected, ReportRevenue.PropertyKey());
    GeneratedRowsCount(gs);
    GroupsPartition(selected, ReportRevenue.PropertyKey(), One());
  }

  /** In one property's row the completed, pending and in-progress requests are among its requests. */
  lemma GroupStatusesWithin(g: seq<Row>)
    requires |g| > 0
    requires forall x :: x in g ==> Get(x, PRIMARY_KEY) != Null && Get(x, "status").Str?
    ensures var r := GeneratedRow(g);
            Number(Get(r, "completed_requests")) + Number(Get(r, "pending_requests"))
            + Number(Get(r, "in_progress_requests")) <= Number(Get(r, "total_requests"))
  {
    assert forall k :: 0 <= k < |g| ==> g[k] in g;
    FilterAll(g, NonNull(PRIMARY_KEY));
    CasesAtMostRows(g, "status", COUNTED_STATUSES);
    var v := COUNTED_STATUSES;
    assert v[1..][1..][1..] == [];
    assert CaseTotals(g, "status", v[1..][1..], One()) == Total(g, When("status", "in_progress", One()));
  }

  /** In every row of the well-formed requests the completed, pending and in-progress requests are among the row's requests. */
  lemma {:induction false} GeneratedStatusesWithin(maintenance: Table, properties: Table, start: Val, end: Val)
    requires WellFormedRequests(maintenance)
    ensures var r := GenerateMaintenanceReport(maintenance, properties, start, end);
            forall i :: 0 <= i < |r| ==>
              Number(Get(r[i], "completed_requests")) + Number(Get(r[i], "pending_requests"))
              + Number(Get(r[i], "in_progress_requests")) <= Number(Get(r[i], "total_requests"))
  {
    var selected := GeneratedSelected(maintenance, properties, start, end);
    SelectedWellFormed(maintenance, properties, start, end);
    var gs := Groups(selected, ReportRevenue.PropertyKey());
    var r := GenerateMaintenanceReport(maintenance, properties, start, end);
    forall i | 0 <= i < |r|
      ensures Number(Get(r[i], "completed_requests")) + Number(Get(r[i], "pending_requests"))
              + Number(Get(r[i], "in_progress_requests")) <= Number(Get(r[i], "total_requests")) {
      assert r[i] == GeneratedRow(gs[i]);
      GroupStatusesWithin(gs[i]);
    }
  }
}
