/**
 The occupancy statements of Report. They all read `properties p LEFT JOIN
 tenants t ON p.id = t.property_id`, which makes one row per tenancy of a
 property, or a single row with the tenancy's columns NULL when it has none.
 Here a joined row is the property's row with the tenancy's columns added
 under `t.` names. getOccupancyReport and generateOccupancyReport group
 those rows per property; getOccupancySummary aggregates all of them at once.
 */
module ReportOccupancy {
  import opened Php
  import opened Wrappers
  import opened Rows
  import opened Sql
  import opened BaseModel
  import opened Constants
  import opened Aggregates

  const TENANT_ACTIVE: string := "active"

  /** The tenancy is on the property: `p.id = t.property_id`. */
  predicate OnProperty(p: Row, t: Row) {
    Holds(Get(t, "property_id"), Eq, Get(p, PRIMARY_KEY))
  }

  /** The tenancies on a property, in table order. */
  function TenanciesOf(tenants: seq<Row>, p: Row): seq<Row> {
    Filter(tenants, t => OnProperty(p, t))
  }

  /** A joined row: the property's columns, and the tenancy's under `t.` names. */
  function Paired(p: Row, t: Row): (r: Row)
    ensures Get(r, "t.id") == Get(t, PRIMARY_KEY) && Get(r, "t.status") == Get(t, "status")
    ensures Get(r, "t.lease_start") == Get(t, "lease_start") && Get(r, "t.lease_end") == Get(t, "lease_end")
    ensures forall k :: k in p && k !in {"t.id", "t.status", "t.lease_start", "t.lease_end"} ==> Get(r, k) == p[k]
  {
    p["t.id" := Get(t, PRIMARY_KEY)]["t.status" := Get(t, "status")]
     ["t.lease_start" := Get(t, "lease_start")]["t.lease_end" := Get(t, "lease_end")]
  }

  /** The property joined with each of the tenancies `ts`. */
  function Pair(p: Row, ts: seq<Row>): (r: seq<Row>)
    ensures |r| == |ts|
    ensures forall i :: 0 <= i < |ts| ==> r[i] == Paired(p, ts[i])
  {
    if |ts| == 0 then [] else [Paired(p, ts[0])] + Pair(p, ts[1..])
  }

  /** The rows the LEFT JOIN makes of one property: one per tenancy, or one with NULL tenancy columns. */
  function PropertyPairs(p: Row, tenants: seq<Row>): (r: seq<Row>)
    ensures |r| > 0
  {
    var ts := TenanciesOf(tenants, p);
    if |ts| == 0 then [Paired(p, map[])] else Pair(p, ts)
  }

  /** `properties p LEFT JOIN tenants t ON p.id = t.property_id`, property by property. */
  function LeftJoinTenants(properties: seq<Row>, tenants: seq<Row>): seq<Row> {
    if |properties| == 0 then [] else PropertyPairs(properties[0], tenants) + LeftJoinTenants(properties[1..], tenants)
  }

  /** The number of joined rows a property makes: its tenancies, and at least one. */
  function Fanout(tenants: seq<Row>): Row -> int {
    p => if |TenanciesOf(tenants, p)| == 0 then 1 else |TenanciesOf(tenants, p)|
  }

  predicate HasStatus(row: Row, status: string) {
    Is(row, "status", status)
  }

  // ---------------------------------------------------------------- summary

  /** A joined row whose tenancy is active. */
  function ActiveTenancy(): Row -> bool {
    x => Is(x, "t.status", TENANT_ACTIVE)
  }

  /**
   Report::getOccupancySummary as written: COUNT(DISTINCT p.id) counts the
   properties, but the three status columns add 1 per joined row, so a
   property counts once per tenancy on it.
   */
  function GetOccupancySummary(properties: seq<Row>, tenants: seq<Row>): (r: Row)
    ensures Get(r, "total_properties") == Int(|properties|)
    ensures Get(r, "occupied_properties") == Sum(LeftJoinTenants(properties, tenants), When("status", PROPERTY_OCCUPIED, One()))
  {
    var rows := LeftJoinTenants(properties, tenants);
    map["total_properties" := Int(|properties|),
        "occupied_properties" := Sum(rows, When("status", PROPERTY_OCCUPIED, One())),
        "available_properties" := Sum(rows, When("status", PROPERTY_AVAILABLE, One())),
        "maintenance_properties" := Sum(rows, When("status", PROPERTY_MAINTENANCE, One())),
        "active_tenants" := Int(|Filter(rows, ActiveTenancy())|)]
  }

  /** The joined rows of one property all have the property's status. */
  lemma {:induction false} PairsKeepStatus(p: Row, tenants: seq<Row>, v: string)
    ensures Total(PropertyPairs(p, tenants), When("status", v, One())) == if HasStatus(p, v) then Fanout(tenants)(p) else 0
  {
    var ts := TenanciesOf(tenants, p);
    var rows := PropertyPairs(p, tenants);
    assert forall i :: 0 <= i < |rows| ==> Get(rows[i], "status") == Get(p, "status");
    StatusCount(rows, Get(p, "status"), v);
  }

  /** Rows that all share one status value are counted all or not at all. */
  lemma {:induction false} StatusCount(rows: seq<Row>, s: Val, v: string)
    requires forall i :: 0 <= i < |rows| ==> Get(rows[i], "status") == s
    ensures Total(rows, When("status", v, One())) == if Holds(s, Eq, Str(v)) then |rows| else 0
  {
    if |rows| > 0 {
      assert forall i :: 0 <= i < |rows| - 1 ==> rows[1..][i] == rows[i + 1];
      StatusCount(rows[1..], s, v);
    }
  }

  /** The properties with status `v`. */
  function WithStatus(v: string): Row -> bool {
    p => HasStatus(p, v)
  }

  /** The joined rows a status column counts: the fan-out of every property with that status. */
  lemma {:induction false} StatusCountsJoinRows(properties: seq<Row>, tenants: seq<Row>, v: string)
    ensures Total(LeftJoinTenants(properties, tenants), When("status", v, One()))
            == Total(Filter(properties, WithStatus(v)), Fanout(tenants))
  {
    if |properties| > 0 {
      var p := properties[0];
      StatusCountsJoinRows(properties[1..], tenants, v);
      TotalAppend(PropertyPairs(p, tenants), LeftJoinTenants(properties[1..], tenants), When("status", v, One()));
      PairsKeepStatus(p, tenants, v);
      assert Filter(properties, WithStatus(v)) == (if HasStatus(p, v) then [p] else []) + Filter(properties[1..], WithStatus(v));
      TotalAppend(if HasStatus(p, v) then [p] else [], Filter(properties[1..], WithStatus(v)), Fanout(tenants));
    }
  }

  /**
   occupied_properties is the number of joined rows of the occupied
   properties: each occupied property counts once per tenancy on it, and
   once when it has none.
   */
  lemma {:induction false} OccupiedCountsJoinRows(properties: seq<Row>, tenants: seq<Row>)
    ensures Number(Get(GetOccupancySummary(properties, tenants), "occupied_properties"))
            == Total(Filter(properties, WithStatus(PROPERTY_OCCUPIED)), Fanout(tenants))
  {
    StatusCountsJoinRows(properties, tenants, PROPERTY_OCCUPIED);
  }

  /**
   The counterexample: one occupied property with two tenancies on it makes
   a summary of one property of which two are occupied.
   */
  lemma OccupiedExceedsTotal()
    ensures var p := map[PRIMARY_KEY := Int(1), "status" := Str(PROPERTY_OCCUPIED)];
            var t1 := map[PRIMARY_KEY := Int(1), "property_id" := Int(1), "status" := Str(TENANT_ACTIVE)];
            var t2 := map[PRIMARY_KEY := Int(2), "property_id" := Int(1), "status" := Str("inactive")];
            var r := GetOccupancySummary([p], [t1, t2]);
            Get(r, "total_properties") == Int(1) && Get(r, "occupied_properties") == Int(2)
  {
    var p := map[PRIMARY_KEY := Int(1), "status" := Str(PROPERTY_OCCUPIED)];
    var t1 := map[PRIMARY_KEY := Int(1), "property_id" := Int(1), "status" := Str(TENANT_ACTIVE)];
    var t2 := map[PRIMARY_KEY := Int(2), "property_id" := Int(1), "status" := Str("inactive")];
    assert OnProperty(p, t1) && OnProperty(p, t2);
    assert [t1, t2][1..] == [t2] && [t2][1..] == [];
    var on := (t: Row) => OnProperty(p, t);
    assert Filter([t2], on) == [t2] + Filter([t2][1..], on);
    assert Filter([t1, t2], on) == [t1] + Filter([t1, t2][1..], on);
    assert TenanciesOf([t1, t2], p) == [t1, t2];
    OccupiedCountsJoinRows([p], [t1, t2]);
    assert Filter([p], WithStatus(PROPERTY_OCCUPIED)) == [p] by {
      assert HasStatus(p, PROPERTY_OCCUPIED);
      assert [p][1..] == [];
    }
    assert Total([p], Fanout([t1, t2])) == 2 by {
      assert [p][1..] == [];
    }
  }

  /**
   The summary as evidently intended: the status columns count properties,
   not joined rows (the active tenants are counted over the join as before).
   */
  function CorrectedOccupancySummary(properties: seq<Row>, tenants: seq<Row>): (r: Row)
    ensures Get(r, "total_properties") == Int(|properties|)
    ensures Get(r, "occupied_properties") == Sum(properties, When("status", PROPERTY_OCCUPIED, One()))
    ensures Get(r, "available_properties") == Sum(properties, When("status", PROPERTY_AVAILABLE, One()))
    ensures Get(r, "maintenance_properties") == Sum(properties, When("status", PROPERTY_MAINTENANCE, One()))
  {
    map["total_properties" := Int(|properties|),
        "occupied_properties" := Sum(properties, When("status", PROPERTY_OCCUPIED, One())),
        "available_properties" := Sum(properties, When("status", PROPERTY_AVAILABLE, One())),
        "maintenance_properties" := Sum(properties, When("status", PROPERTY_MAINTENANCE, One())),
        "active_tenants" := Int(|Filter(LeftJoinTenants(properties, tenants), ActiveTenancy())|)]
  }

  /** Counting properties, each status column is the number of properties with that status, at most the total. */
  lemma {:induction false} CorrectedCountsProperties(properties: seq<Row>, tenants: seq<Row>)
    ensures var r := CorrectedOccupancySummary(properties, tenants);
            && Number(Get(r, "occupied_properties")) == |Filter(properties, WithStatus(PROPERTY_OCCUPIED))|
            && Number(Get(r, "occupied_properties")) <= Number(Get(r, "total_properties"))
  {
    CaseCountIsFilter(properties, "status", PROPERTY_OCCUPIED);
    FilterAgree(properties, x => Is(x, "status", PROPERTY_OCCUPIED), WithStatus(PROPERTY_OCCUPIED));
  }

  lemma PropertyStatusesDistinct()
    ensures Distinct(PROPERTY_STATUSES)
  {
  }

  /** When every property has one of the three statuses the table admits, the corrected three columns add up to the total. */
  lemma {:induction false} CorrectedStatusesAddUp(properties: seq<Row>, tenants: seq<Row>)
    requires forall i :: 0 <= i < |properties| ==> OneOf(properties[i], "status", PROPERTY_STATUSES)
    ensures var r := CorrectedOccupancySummary(properties, tenants);
            Number(Get(r, "occupied_properties")) + Number(Get(r, "available_properties"))
            + Number(Get(r, "maintenance_properties")) == Number(Get(r, "total_properties"))
  {
    PropertyStatusesDistinct();
    CasesCoverAll(properties, "status", PROPERTY_STATUSES, One());
    TotalOne(properties);
    var v := PROPERTY_STATUSES;
    var c := "status";
    assert v[1..][1..][1..] == [];
    assert CaseTotals(properties, c, v[1..][1..], One()) == Total(properties, When(c, PROPERTY_MAINTENANCE, One()));
    assert CaseTotals(properties, c, v[1..], One())
           == Total(properties, When(c, PROPERTY_OCCUPIED, One())) + CaseTotals(properties, c, v[1..][1..], One());
  }

  // ---------------------------------------------------------------- listing

  /** Every tenancy has an id, as its primary key guarantees. */
  predicate IdsPresent(tenants: seq<Row>) {
    forall i :: 0 <= i < |tenants| ==> Get(tenants[i], PRIMARY_KEY) != Null
  }

  /** Both dates were given: PHP's `$startDate && $endDate`. */
  predicate Dated(start: Val, end: Val) {
    Truthy(start) && Truthy(end)
  }

  /** The joined row's tenancy overlaps the range: `t.lease_start <= end AND t.lease_end >= start`. */
  predicate Overlaps(row: Row, start: Val, end: Val) {
    Holds(Get(row, "t.lease_start"), Le, end) && Holds(Get(row, "t.lease_end"), Ge, start)
  }

  /** The same test on the tenancy itself. */
  function LeaseOverlapsBy(start: Val, end: Val): Row -> bool {
    t => Holds(Get(t, "lease_start"), Le, end) && Holds(Get(t, "lease_end"), Ge, start)
  }

  /** The joined rows the listing keeps: all of them without both dates, the overlapping ones with them. */
  function KeepBy(start: Val, end: Val): Row -> bool {
    row => Dated(start, end) ==> Overlaps(row, start, end)
  }

  /**
   The WHERE clause of getOccupancyReport: the overlap test with parameters
   `[end, start]` when both dates are given, and no clause otherwise.
   */
  function OccupancyWhere(start: Val, end: Val): (r: (seq<Cond>, seq<Val>))
    ensures Holes(r.0) == |r.1|
    ensures r.1 == if Dated(start, end) then [end, start] else []
    ensures forall row: Row :: Satisfies(row, r.0, r.1) <==> KeepBy(start, end)(row)
  {
    var a := Optional(Dated(start, end), Bound("t.lease_start", Le), end);
    var b := Optional(Dated(start, end), Bound("t.lease_end", Ge), start);
    forall row: Row ensures Satisfies(row, a.0 + b.0, a.1 + b.1) <==> KeepBy(start, end)(row) {
      SatisfiesAppend(row, a.0, b.0, a.1, b.1);
    }
    HolesAppend(a.0, b.0);
    (a.0 + b.0, a.1 + b.1)
  }

  /** The joined rows of property `p` the WHERE clause keeps: its group. */
  function KeptPairs(p: Row, tenants: seq<Row>, keep: Row -> bool): seq<Row> {
    Filter(PropertyPairs(p, tenants), keep)
  }

  /** A property makes a group when the WHERE clause keeps one of its joined rows. */
  function Listed(tenants: seq<Row>, keep: Row -> bool): Row -> bool {
    p => |KeptPairs(p, tenants, keep)| > 0
  }

  /** The row getOccupancyReport makes of a property's group. */
  function OccupancyRow(p: Row, kept: seq<Row>): (r: Row)
    ensures Get(r, "property_id") == Get(p, PRIMARY_KEY)
    ensures Get(r, "tenant_count") == Int(|Filter(kept, NonNull("t.id"))|)
    ensures Get(r, "active_tenants") == Sum(kept, When("t.status", TENANT_ACTIVE, One()))
  {
    OccupancyRecord(Get(p, PRIMARY_KEY), Get(p, "name"), Get(p, "city"), Get(p, "status"),
                    Int(|Filter(kept, NonNull("t.id"))|), Sum(kept, When("t.status", TENANT_ACTIVE, One())),
                    Get(p, "price"))
  }

  /** The columns of an occupancy row, each holding its own value. */
  function OccupancyRecord(id: Val, name: Val, city: Val, status: Val, count: Val, active: Val, rent: Val): (r: Row)
    ensures Get(r, "property_id") == id && Get(r, "tenant_count") == count && Get(r, "active_tenants") == active
  {
    map["property_id" := id,
        "property_name" := name,
        "city" := city,
        "property_status" := status,
        "tenant_count" := count,
        "active_tenants" := active,
        "monthly_rent" := rent]
  }

  /**
   One row per property with a group, in table order: GROUP BY p.id over
   the kept joined rows, the properties' ids being distinct.
   */
  function OccupancyRows(properties: seq<Row>, tenants: seq<Row>, keep: Row -> bool): (r: seq<Row>)
    ensures var listed := Filter(properties, Listed(tenants, keep));
            && |r| == |listed|
            && forall i :: 0 <= i < |r| ==> r[i] == OccupancyRow(listed[i], KeptPairs(listed[i], tenants, keep))
  {
    if |properties| == 0 then []
    else
      var p := properties[0];
      var kept := KeptPairs(p, tenants, keep);
      var rest := OccupancyRows(properties[1..], tenants, keep);
      var head := if |kept| > 0 then [p] else [];
      assert Filter(properties, Listed(tenants, keep)) == head + Filter(properties[1..], Listed(tenants, keep));
      RowsForAppend(if |kept| > 0 then [OccupancyRow(p, kept)] else [], head,
                    rest, Filter(properties[1..], Listed(tenants, keep)), tenants, keep);
      (if |kept| > 0 then [OccupancyRow(p, kept)] else []) + rest
  }

  /** `r` holds, in order, the rows of the groups of the properties `listed`. */
  predicate RowsFor(r: seq<Row>, listed: seq<Row>, tenants: seq<Row>, keep: Row -> bool) {
    |r| == |listed| && forall i :: 0 <= i < |r| ==> r[i] == OccupancyRow(listed[i], KeptPairs(listed[i], tenants, keep))
  }

  /** The rows of two runs of properties, one after the other, are the rows of both runs. */
  lemma RowsForAppend(r1: seq<Row>, l1: seq<Row>, r2: seq<Row>, l2: seq<Row>, tenants: seq<Row>, keep: Row -> bool)
    requires RowsFor(r1, l1, tenants, keep) && RowsFor(r2, l2, tenants, keep)
    ensures RowsFor(r1 + r2, l1 + l2, tenants, keep)
  {
    forall i | 0 <= i < |r1 + r2|
      ensures (r1 + r2)[i] == OccupancyRow((l1 + l2)[i], KeptPairs((l1 + l2)[i], tenants, keep)) {
      if i < |r1| {
        assert (r1 + r2)[i] == r1[i] && (l1 + l2)[i] == l1[i];
      } else {
        assert (r1 + r2)[i] == r2[i - |r1|] && (l1 + l2)[i] == l2[i - |l1|];
      }
    }
  }

  /** Predicates that agree on every row make the same listing. */
  lemma {:induction false} OccupancyRowsAgree(properties: seq<Row>, tenants: seq<Row>, k1: Row -> bool, k2: Row -> bool)
    requires forall row: Row :: k1(row) == k2(row)
    ensures OccupancyRows(properties, tenants, k1) == OccupancyRows(properties, tenants, k2)
  {
    if |properties| > 0 {
      var pairs := PropertyPairs(properties[0], tenants);
      FilterAgree(pairs, k1, k2);
      OccupancyRowsAgree(properties[1..], tenants, k1, k2);
    }
  }

  /** Report::getOccupancyReport: the groups of the joined rows the optional overlap test keeps. */
  function GetOccupancyReport(properties: seq<Row>, tenants: seq<Row>, start: Val := Null, end: Val := Null): (r: seq<Row>)
    ensures r == OccupancyRows(properties, tenants, KeepBy(start, end))
  {
    var (w, params) := OccupancyWhere(start, end);
    OccupancyRowsAgree(properties, tenants, Matching(w, params), KeepBy(start, end));
    OccupancyRows(properties, tenants, Matching(w, params))
  }

  /** Keeping the joined rows of a property's tenancies keeps as many as the matching test keeps of the tenancies. */
  lemma {:induction false} PairedCount(p: Row, ts: seq<Row>, keep: Row -> bool, tkeep: Row -> bool)
    requires forall t: Row :: keep(Paired(p, t)) == tkeep(t)
    ensures |Filter(Pair(p, ts), keep)| == |Filter(ts, tkeep)|
  {
    if |ts| > 0 {
      assert Pair(p, ts)[1..] == Pair(p, ts[1..]);
      PairedCount(p, ts[1..], keep, tkeep);
    }
  }

  /** Every kept joined row of a tenancy carries the tenancy's id. */
  lemma KeptHaveIds(p: Row, tenants: seq<Row>, keep: Row -> bool)
    requires IdsPresent(tenants) && |TenanciesOf(tenants, p)| > 0
    ensures Filter(KeptPairs(p, tenants, keep), NonNull("t.id")) == KeptPairs(p, tenants, keep)
  {
    var ts := TenanciesOf(tenants, p);
    var kept := KeptPairs(p, tenants, keep);
    var pairs := Pair(p, ts);
    assert PropertyPairs(p, tenants) == pairs;
    forall i | 0 <= i < |kept| ensures NonNull("t.id")(kept[i]) {
      var x := kept[i];
      assert x in pairs;
      var j :| 0 <= j < |ts| && pairs[j] == x;
      assert Get(x, "t.id") == Get(ts[j], PRIMARY_KEY);
      assert ts[j] in tenants;
      var k :| 0 <= k < |tenants| && tenants[k] == ts[j];
    }
    FilterAll(kept, NonNull("t.id"));
  }

  /**
   With both dates, a property's group holds one joined row per tenancy on
   it whose lease overlaps the range, each counted in tenant_count; a
   property with no tenancy makes no group.
   */
  lemma {:induction false} DatedGroup(p: Row, tenants: seq<Row>, start: Val, end: Val)
    requires Dated(start, end) && IdsPresent(tenants)
    ensures var n := |Filter(TenanciesOf(tenants, p), LeaseOverlapsBy(start, end))|;
            var kept := KeptPairs(p, tenants, KeepBy(start, end));
            |kept| == n && |Filter(kept, NonNull("t.id"))| == n
  {
    var ts := TenanciesOf(tenants, p);
    var keep := KeepBy(start, end);
    if |ts| == 0 {
      var lone := Paired(p, map[]);
      assert !keep(lone);
      assert Filter([lone], keep) == [] + Filter([lone][1..], keep);
    } else {
      PairedCount(p, ts, keep, LeaseOverlapsBy(start, end));
      KeptHaveIds(p, tenants, keep);
    }
  }

  /** Without both dates, every joined row is kept and tenant_count counts the property's tenancies. */
  lemma {:induction false} UndatedGroup(p: Row, tenants: seq<Row>, start: Val, end: Val)
    requires !Dated(start, end) && IdsPresent(tenants)
    ensures var kept := KeptPairs(p, tenants, KeepBy(start, end));
            kept == PropertyPairs(p, tenants) && |Filter(kept, NonNull("t.id"))| == |TenanciesOf(tenants, p)|
  {
    var ts := TenanciesOf(tenants, p);
    var keep := KeepBy(start, end);
    FilterAll(PropertyPairs(p, tenants), keep);
    if |ts| == 0 {
      var lone := Paired(p, map[]);
      assert Filter([lone], NonNull("t.id")) == [] + Filter([lone][1..], NonNull("t.id"));
    } else {
      KeptHaveIds(p, tenants, keep);
    }
  }

  /** The properties with a tenancy whose lease overlaps the range. */
  function HasOverlapping(tenants: seq<Row>, start: Val, end: Val): Row -> bool {
    p => |Filter(TenanciesOf(tenants, p), LeaseOverlapsBy(start, end))| > 0
  }

  /**
   Without both dates the report lists every property, in table order,
   with tenant_count the number of tenancies on it (0 for a vacant one).
   */
  lemma {:induction false} UndatedListsEveryProperty(properties: seq<Row>, tenants: seq<Row>, start: Val, end: Val)
    requires !Dated(start, end) && IdsPresent(tenants)
    ensures var r := GetOccupancyReport(properties, tenants, start, end);
            && |r| == |properties|
            && forall i :: 0 <= i < |r| ==>
                 Get(r[i], "property_id") == Get(properties[i], PRIMARY_KEY)
                 && Get(r[i], "tenant_count") == Int(|TenanciesOf(tenants, properties[i])|)
  {
    var keep := KeepBy(start, end);
    var r := GetOccupancyReport(properties, tenants, start, end);
    assert r == OccupancyRows(properties, tenants, keep);
    forall i | 0 <= i < |properties| ensures Listed(tenants, keep)(properties[i]) {
      UndatedGroup(properties[i], tenants, start, end);
    }
    FilterAll(properties, Listed(tenants, keep));
    forall i | 0 <= i < |r|
      ensures Get(r[i], "property_id") == Get(properties[i], PRIMARY_KEY)
      ensures Get(r[i], "tenant_count") == Int(|TenanciesOf(tenants, properties[i])|) {
      var p := properties[i];
      assert r[i] == OccupancyRow(p, KeptPairs(p, tenants, keep));
      UndatedGroup(p, tenants, start, end);
    }
  }

  /**
   With both dates the report lists exactly the properties with a tenancy
   whose lease overlaps the range, in table order, with tenant_count the
   number of those tenancies.
   */
  lemma {:induction false} DatedListsOverlapping(properties: seq<Row>, tenants: seq<Row>, start: Val, end: Val)
    requires Dated(start, end) && IdsPresent(tenants)
    ensures var r := GetOccupancyReport(properties, tenants, start, end);
            var listed := Filter(properties, HasOverlapping(tenants, start, end));
            && |r| == |listed|
            && forall i :: 0 <= i < |r| ==>
                 Get(r[i], "property_id") == Get(listed[i], PRIMARY_KEY)
                 && Get(r[i], "tenant_count") == Int(|Filter(TenanciesOf(tenants, listed[i]), LeaseOverlapsBy(start, end))|)
  {
    var keep := KeepBy(start, end);
    var r := GetOccupancyReport(properties, tenants, start, end);
    assert r == OccupancyRows(properties, tenants, keep);
    forall i | 0 <= i < |properties|
      ensures Listed(tenants, keep)(properties[i]) == HasOverlapping(tenants, start, end)(properties[i]) {
      DatedGroup(properties[i], tenants, start, end);
    }
    FilterAgree(properties, Listed(tenants, keep), HasOverlapping(tenants, start, end));
    var listed := Filter(properties, HasOverlapping(tenants, start, end));
    forall i | 0 <= i < |r|
      ensures Get(r[i], "property_id") == Get(listed[i], PRIMARY_KEY)
      ensures Get(r[i], "tenant_count") == Int(|Filter(TenanciesOf(tenants, listed[i]), LeaseOverlapsBy(start, end))|) {
      var p := listed[i];
      assert r[i] == OccupancyRow(p, KeptPairs(p, tenants, keep));
      DatedGroup(p, tenants, start, end);
    }
  }

  /** Only a joined row of a tenancy has a tenancy status, so an active one carries the tenancy's id. */
  lemma ActiveHasId(p: Row, tenants: seq<Row>, keep: Row -> bool)
    requires IdsPresent(tenants)
    ensures var kept := KeptPairs(p, tenants, keep);
            forall i :: 0 <= i < |kept| && Is(kept[i], "t.status", TENANT_ACTIVE) ==> Get(kept[i], "t.id") != Null
  {
    var ts := TenanciesOf(tenants, p);
    var kept := KeptPairs(p, tenants, keep);
    if |ts| == 0 {
      var lone := Paired(p, map[]);
      forall i | 0 <= i < |kept| ensures !Is(kept[i], "t.status", TENANT_ACTIVE) {
        assert kept[i] in [lone];
      }
    } else {
      forall i | 0 <= i < |kept| ensures Get(kept[i], "t.id") != Null {
        assert kept[i] in Pair(p, ts);
        var j :| 0 <= j < |ts| && Pair(p, ts)[j] == kept[i];
        assert ts[j] in tenants;
      }
    }
  }

  /** In every row of the listing the active tenants are among the counted tenants. */
  lemma {:induction false} ActiveWithinTenantCount(properties: seq<Row>, tenants: seq<Row>, start: Val, end: Val)
    requires IdsPresent(tenants)
    ensures var r := GetOccupancyReport(properties, tenants, start, end);
            forall i :: 0 <= i < |r| ==> Number(Get(r[i], "active_tenants")) <= Number(Get(r[i], "tenant_count"))
  {
    var keep := KeepBy(start, end);
    var r := GetOccupancyReport(properties, tenants, start, end);
    assert r == OccupancyRows(properties, tenants, keep);
    var listed := Filter(properties, Listed(tenants, keep));
    forall i | 0 <= i < |r| ensures Number(Get(r[i], "active_tenants")) <= Number(Get(r[i], "tenant_count")) {
      assert r[i] == OccupancyRow(listed[i], KeptPairs(listed[i], tenants, keep));
      RowActiveWithinCount(listed[i], tenants, keep);
    }
  }

  /** One property's row counts its active tenants among its tenants. */
  lemma RowActiveWithinCount(p: Row, tenants: seq<Row>, keep: Row -> bool)
    requires IdsPresent(tenants)
    ensures var r := OccupancyRow(p, KeptPairs(p, tenants, keep));
            Number(Get(r, "active_tenants")) <= Number(Get(r, "tenant_count"))
  {
    ActiveHasId(p, tenants, keep);
    CaseCountWithin(KeptPairs(p, tenants, keep), "t.status", TENANT_ACTIVE, "t.id");
  }

  // ------------------------------------------------------------ generation

  /** The row generateOccupancyReport makes of a property and all its joined rows. */
  function GeneratedRow(p: Row, pairs: seq<Row>): (r: Row)
    ensures Get(r, PRIMARY_KEY) == Get(p, PRIMARY_KEY)
    ensures Get(r, "total_tenants") == Int(|Filter(pairs, NonNull("t.id"))|)
    ensures Get(r, "active_tenants") == Sum(pairs, When("t.status", TENANT_ACTIVE, One()))
  {
    GeneratedRecord(Get(p, PRIMARY_KEY), Get(p, "name"), Get(p, "city"), Get(p, "status"), Get(p, "bedrooms"),
                    Int(|Filter(pairs, NonNull("t.id"))|), Sum(pairs, When("t.status", TENANT_ACTIVE, One())))
  }

  /** The columns of a generated occupancy row, each holding its own value. */
  function GeneratedRecord(id: Val, name: Val, city: Val, status: Val, bedrooms: Val, total: Val, active: Val): (r: Row)
    ensures Get(r, PRIMARY_KEY) == id && Get(r, "total_tenants") == total && Get(r, "active_tenants") == active
  {
    map[PRIMARY_KEY := id,
        "property_name" := name,
        "city" := city,
        "status" := status,
        "bedrooms" := bedrooms,
        "total_tenants" := total,
        "active_tenants" := active]
  }

  /** Report::generateOccupancyReport: one row per property over the unfiltered LEFT JOIN. */
  function GenerateOccupancyReport(properties: seq<Row>, tenants: seq<Row>): (r: seq<Row>)
    ensures |r| == |properties|
    ensures forall i :: 0 <= i < |r| ==> r[i] == GeneratedRow(properties[i], PropertyPairs(properties[i], tenants))
  {
    if |properties| == 0 then []
    else [GeneratedRow(properties[0], PropertyPairs(properties[0], tenants))] + GenerateOccupancyReport(properties[1..], tenants)
  }

  /**
   Every property is in the generated report with total_tenants the number
   of tenancies on it and at most that many active tenants.
   */
  lemma {:induction false} GeneratedCounts(properties: seq<Row>, tenants: seq<Row>)
    requires IdsPresent(tenants)
    ensures var r := GenerateOccupancyReport(properties, tenants);
            forall i :: 0 <= i < |r| ==>
              && Get(r[i], "total_tenants") == Int(|TenanciesOf(tenants, properties[i])|)
              && Number(Get(r[i], "active_tenants")) <= |TenanciesOf(tenants, properties[i])|
  {
    var all := KeepBy(Null, Null);
    forall i | 0 <= i < |properties|
      ensures |Filter(PropertyPairs(properties[i], tenants), NonNull("t.id"))| == |TenanciesOf(tenants, properties[i])|
      ensures Total(PropertyPairs(properties[i], tenants), When("t.status", TENANT_ACTIVE, One())) <= |TenanciesOf(tenants, properties[i])| {
      UndatedGroup(properties[i], tenants, Null, Null);
      ActiveHasId(properties[i], tenants, all);
      CaseCountWithin(PropertyPairs(properties[i], tenants), "t.status", TENANT_ACTIVE, "t.id");
    }
  }
}
