/**
 Maintenance: the repair requests of the `maintenance_requests` table. The
 admin listing joins each request with its property and its reporter (inner
 joins) and with its tenancy and that tenancy's user (LEFT joins, so a
 request without a tenancy stays listed); it filters by status, priority and
 property. Its count filters by status and priority only.
 */
module MaintenanceModel {
  import opened Php
  import opened Wrappers
  import opened Rows
  import opened Sql
  import opened BaseModel
  import opened Joins
  import opened Store
  import PaymentModel

  const REQUEST_PENDING: string := "pending"

  /** `JOIN properties p ON mr.property_id = p.id`, selecting the property's name. */
  function PropertyJoin(properties: Table): Join {
    Join(properties, "property_id", [("property_name", "name")], true)
  }

  /** `JOIN users u ON mr.reported_by = u.id`, selecting the reporter's name. */
  function ReporterJoin(users: Table): Join {
    Join(users, "reported_by", [("reported_by_name", "full_name")], true)
  }

  /**
   The joins of getAllRequests: the property and the reporter, then
   `LEFT JOIN tenants t ON mr.tenant_id = t.id` (its user as
   `tenant_user_id`) and `LEFT JOIN users ut ON t.user_id = ut.id` (that
   user's name as `tenant_name`).
   */
  function ListJoins(db: Db): seq<Join> {
    StatusJoins(db) + TenancyJoins(db)
  }

  /** The two LEFT joins of getAllRequests: the tenancy's user, and that user's name. */
  function TenancyJoins(db: Db): (js: seq<Join>)
    ensures forall i :: 0 <= i < |js| ==> !js[i].inner
  {
    [Join(db.tenants, "tenant_id", [("tenant_user_id", "user_id")], false),
     Join(db.users, "tenant_user_id", [("tenant_name", "full_name")], false)]
  }

  /** The join of getRequestsByTenant: the property's name. */
  function TenantListJoins(db: Db): seq<Join> {
    [PropertyJoin(db.properties)]
  }

  /** The joins of getRequestsByStatus: the property's and the reporter's names. */
  function StatusJoins(db: Db): seq<Join> {
    [PropertyJoin(db.properties), ReporterJoin(db.users)]
  }

  /** The joins add none of the request columns the queries test. */
  lemma ListJoinsKeep(db: Db)
    ensures NoAlias(ListJoins(db), "status") && NoAlias(ListJoins(db), "priority")
    ensures NoAlias(ListJoins(db), "property_id")
  {
  }

  lemma TenantListJoinsKeep(db: Db)
    ensures NoAlias(TenantListJoins(db), "tenant_id")
  {
  }

  lemma StatusJoinsKeep(db: Db)
    ensures NoAlias(StatusJoins(db), "status")
  {
  }

  /**
   What the admin filters mean for one request: status, priority and
   property are each matched exactly, and a filter that is not set
   (PHP-empty) constrains nothing.
   */
  predicate Listed(filters: Row, row: Row) {
    && (Truthy(Get(filters, "status")) ==> Holds(Get(row, "status"), Eq, Get(filters, "status")))
    && (Truthy(Get(filters, "priority")) ==> Holds(Get(row, "priority"), Eq, Get(filters, "priority")))
    && (Truthy(Get(filters, "property_id")) ==> Holds(Get(row, "property_id"), Eq, Get(filters, "property_id")))
  }

  function ListedBy(filters: Row): Row -> bool {
    row => Listed(filters, row)
  }

  /** What countAllRequests counts: the status and priority filters, without the property filter. */
  predicate Counted(filters: Row, row: Row) {
    && (Truthy(Get(filters, "status")) ==> Holds(Get(row, "status"), Eq, Get(filters, "status")))
    && (Truthy(Get(filters, "priority")) ==> Holds(Get(row, "priority"), Eq, Get(filters, "priority")))
  }

  function CountedBy(filters: Row): Row -> bool {
    row => Counted(filters, row)
  }

  /** The status and priority blocks, which both statements build. */
  function StatusPriorityWhere(filters: Row): (r: (seq<Cond>, seq<Val>))
    ensures Holes(r.0) == |r.1| <= 2
    ensures forall row: Row :: Satisfies(row, r.0, r.1) <==> Counted(filters, row)
  {
    var (w1, a1) := Optional(Truthy(Get(filters, "status")), Bound("status", Eq), Get(filters, "status"));
    var (w2, a2) := Optional(Truthy(Get(filters, "priority")), Bound("priority", Eq), Get(filters, "priority"));
    HolesAppend(w1, w2);
    forall row: Row ensures Satisfies(row, w1 + w2, a1 + a2) <==> Counted(filters, row) {
      SatisfiesAppend(row, w1, w2, a1, a2);
    }
    (w1 + w2, a1 + a2)
  }

  /** getAllRequests' three `if (!empty($filters[...]))` blocks. */
  function ListWhere(filters: Row): (r: (seq<Cond>, seq<Val>))
    ensures Holes(r.0) == |r.1| <= 3
    ensures forall row: Row :: Satisfies(row, r.0, r.1) <==> Listed(filters, row)
  {
    var (w, a) := StatusPriorityWhere(filters);
    var (w3, a3) := Optional(Truthy(Get(filters, "property_id")), Bound("property_id", Eq), Get(filters, "property_id"));
    HolesAppend(w, w3);
    forall row: Row ensures Satisfies(row, w + w3, a + a3) <==> Listed(filters, row) {
      SatisfiesAppend(row, w, w3, a, a3);
    }
    (w + w3, a + a3)
  }

  /** getAllRequests' statement: the filters, `ORDER BY mr.created_at DESC`, then `LIMIT ? OFFSET ?`. */
  function ListQuery(filters: Row, limit: int, offset: int): (q: Select)
    ensures WellFormed(q) && q.limit && q.offset
    ensures LimitOf(q) == limit && OffsetOf(q) == offset
    ensures q.where == ListWhere(filters).0 && q.params[..Holes(q.where)] == ListWhere(filters).1
  {
    var (w, a) := ListWhere(filters);
    PagedSelect(w, [Sort("created_at", "DESC")], a, limit, offset)
  }

  /**
   Maintenance::getAllRequests: the joined requests the filters list,
   `offset` skipped and at most `limit` returned; storage order, the ORDER
   BY is not applied.
   */
  function GetAllRequests(db: Db, limit: nat, offset: nat, filters: Row): (r: seq<Row>)
    ensures r == Page(Filter(Joined(db.maintenance.rows, ListJoins(db)), ListedBy(filters)), limit, offset)
  {
    var q := ListQuery(filters, limit, offset);
    var joined := Joined(db.maintenance.rows, ListJoins(db));
    FilterAgree(joined, Matching(ListWhere(filters).0, ListWhere(filters).1), ListedBy(filters));
    Run(q, joined).value
  }

  /** Maintenance::countAllRequests as written: the requests matching the status and priority filters. */
  function CountAllRequests(db: Db, filters: Row): (n: nat)
    ensures n == |Filter(db.maintenance.rows, CountedBy(filters))|
  {
    var (w, a) := StatusPriorityWhere(filters);
    var q := Select(w, [], false, false, a);
    assert q.params[..Holes(q.where)] == a;
    FilterAgree(db.maintenance.rows, Matching(w, a), CountedBy(filters));
    CountRows(q, db.maintenance.rows).value
  }

  /** The count with all three of the listing's filters, as the listing's pagination needs it. */
  function CountListedRequests(db: Db, filters: Row): (n: nat)
    ensures n == |Filter(db.maintenance.rows, ListedBy(filters))|
  {
    var (w, a) := ListWhere(filters);
    var q := Select(w, [], false, false, a);
    assert q.params[..Holes(q.where)] == a;
    FilterAgree(db.maintenance.rows, Matching(w, a), ListedBy(filters));
    CountRows(q, db.maintenance.rows).value
  }

  /** The joins keep the columns the filters test, so filtering before or after joining is the same. */
  lemma {:induction false} ListedJoined(db: Db, filters: Row)
    ensures Filter(Joined(db.maintenance.rows, ListJoins(db)), ListedBy(filters))
            == Joined(Filter(db.maintenance.rows, ListedBy(filters)), ListJoins(db))
  {
    var js := ListJoins(db);
    var rows := db.maintenance.rows;
    ListJoinsKeep(db);
    forall i | 0 <= i < |rows| && JoinAll(rows[i], js).Some?
      ensures ListedBy(filters)(JoinAll(rows[i], js).value) == ListedBy(filters)(rows[i]) {
      JoinKeeps(rows[i], js, "status");
      JoinKeeps(rows[i], js, "priority");
      JoinKeeps(rows[i], js, "property_id");
    }
    FilterJoined(rows, js, ListedBy(filters));
  }

  /**
   A request whose property and reporter exist survives the listing's
   joins: the tenancy joins are LEFT joins, so a request without a tenancy
   (or whose tenancy is gone) is still listed.
   */
  lemma ListedWithoutTenancy(db: Db, row: Row)
    requires Find(db.properties, Get(row, "property_id")).Some?
    requires Find(db.users, Get(row, "reported_by")).Some?
    ensures JoinAll(row, ListJoins(db)).Some?
  {
    JoinAllAppend(row, StatusJoins(db), TenancyJoins(db));
    StatusJoinsSurvive(db, row);
    LeftJoinsKeepAll(JoinAll(row, StatusJoins(db)).value, TenancyJoins(db));
  }

  /** A request whose property and reporter exist survives the two inner joins. */
  lemma StatusJoinsSurvive(db: Db, row: Row)
    requires Find(db.properties, Get(row, "property_id")).Some?
    requires Find(db.users, Get(row, "reported_by")).Some?
    ensures JoinAll(row, StatusJoins(db)).Some?
  {
    var pj := PropertyJoin(db.properties);
    var rj := ReporterJoin(db.users);
    assert StatusJoins(db) == [pj] + [rj];
    JoinAllAppend(row, [pj], [rj]);
    JoinSingle(row, pj);
    assert NoAlias([pj], "reported_by");
    JoinKeeps(row, [pj], "reported_by");
    JoinSingle(JoinAll(row, [pj]).value, rj);
  }

  /** The admin listing never shows more requests than the filters list. */
  lemma {:induction false} ListingWithinCount(db: Db, filters: Row, limit: nat, offset: nat)
    ensures |GetAllRequests(db, limit, offset, filters)| <= CountListedRequests(db, filters)
  {
    ListedJoined(db, filters);
    var listed := Filter(db.maintenance.rows, ListedBy(filters));
    assert |Joined(listed, ListJoins(db))| <= |listed|;
  }

  /** Every request has its property and its reporter: what the foreign keys guarantee. */
  predicate PartnersExist(db: Db) {
    forall i :: 0 <= i < |db.maintenance.rows| ==>
      Find(db.properties, Get(db.maintenance.rows[i], "property_id")).Some?
      && Find(db.users, Get(db.maintenance.rows[i], "reported_by")).Some?
  }

  /** While the foreign keys hold, the corrected count is exactly the number of requests the listing pages through. */
  lemma {:induction false} CountListedIsListingTotal(db: Db, filters: Row)
    requires PartnersExist(db)
    ensures CountListedRequests(db, filters) == |Filter(Joined(db.maintenance.rows, ListJoins(db)), ListedBy(filters))|
  {
    ListedJoined(db, filters);
    var listed := Filter(db.maintenance.rows, ListedBy(filters));
    forall i | 0 <= i < |listed| ensures JoinAll(listed[i], ListJoins(db)).Some? {
      assert listed[i] in listed;
      ListedWithoutTenancy(db, listed[i]);
    }
    JoinedKeepsAll(listed, ListJoins(db));
  }

  /**
   The count as written ignores `property_id`: with one request on
   property 1 and the filter `property_id = 2`, the listing is empty while
   the total it reports is 1.
   */
  lemma CountAllRequestsIgnoresProperty(db: Db)
    requires db.maintenance.rows == [map["id" := Int(1), "property_id" := Int(1), "reported_by" := Int(1)]]
    ensures var filters := map["property_id" := Int(2)];
            && CountAllRequests(db, filters) == 1
            && |GetAllRequests(db, 10, 0, filters)| == 0
            && CountListedRequests(db, filters) == 0
  {
    var filters := map["property_id" := Int(2)];
    var rows := db.maintenance.rows;
    assert Counted(filters, rows[0]);
    assert !Listed(filters, rows[0]);
    assert rows[1..] == [];
    FilterNone(rows, ListedBy(filters));
    ListedJoined(db, filters);
  }

  /** The count as written is never below the listing total: dropping a filter only admits more requests. */
  lemma {:induction false} CountAllRequestsAtLeastListed(db: Db, filters: Row)
    ensures CountAllRequests(db, filters) >= CountListedRequests(db, filters)
  {
    FilterFilter(db.maintenance.rows, CountedBy(filters), ListedBy(filters));
    FilterAgree(db.maintenance.rows, ListedBy(filters), x => CountedBy(filters)(x) && ListedBy(filters)(x));
  }

  /** getRequestsByTenant's statement: `[tenantId, limit, offset]` for its three placeholders. */
  function TenancyRequestsQuery(tenantId: Val, limit: int, offset: int): (q: Select)
    ensures WellFormed(q) && q.limit && q.offset
    ensures LimitOf(q) == limit && OffsetOf(q) == offset
    ensures q.where == PaymentModel.TenancyWhere() && q.params[..Holes(q.where)] == [tenantId]
  {
    Select(PaymentModel.TenancyWhere(), [Sort("created_at", "DESC")], true, true, [tenantId, Int(limit), Int(offset)])
  }

  /** Maintenance::getRequestsByTenant: one tenancy's requests with their property's name, paged. */
  function GetRequestsByTenant(db: Db, tenantId: Val, limit: nat, offset: nat): (r: seq<Row>)
    ensures r == Page(Filter(Joined(db.maintenance.rows, TenantListJoins(db)), PaymentModel.OfTenancyBy(tenantId)), limit, offset)
  {
    var q := TenancyRequestsQuery(tenantId, limit, offset);
    PaymentModel.TenancyHits(tenantId, Joined(db.maintenance.rows, TenantListJoins(db)));
    Run(q, Joined(db.maintenance.rows, TenantListJoins(db))).value
  }

  /** Maintenance::countRequestsByTenant: the number of that tenancy's requests, without the join. */
  function CountRequestsByTenant(db: Db, tenantId: Val): (n: nat)
    ensures n == |Filter(db.maintenance.rows, PaymentModel.OfTenancyBy(tenantId))|
  {
    var q := Select(PaymentModel.TenancyWhere(), [], false, false, [tenantId]);
    assert [tenantId][..1] == [tenantId];
    PaymentModel.TenancyHits(tenantId, db.maintenance.rows);
    CountRows(q, db.maintenance.rows).value
  }

  /** Every request a tenancy's listing shows is one of that tenancy's requests, joined with its property. */
  lemma {:induction false} TenancyListingIsOwn(db: Db, tenantId: Val, limit: nat, offset: nat, x: Row)
    requires x in GetRequestsByTenant(db, tenantId, limit, offset)
    ensures exists row :: row in db.maintenance.rows && PaymentModel.OfTenancy(tenantId, row)
                          && JoinAll(row, TenantListJoins(db)) == Some(x)
  {
    var js := TenantListJoins(db);
    var all := Filter(Joined(db.maintenance.rows, js), PaymentModel.OfTenancyBy(tenantId));
    assert x in all;
    JoinedFrom(db.maintenance.rows, js, x);
    var row :| row in db.maintenance.rows && JoinAll(row, js) == Some(x);
    TenantListJoinsKeep(db);
    JoinKeeps(row, js, "tenant_id");
  }

  /** A tenancy's page never shows more requests than the total reported for it. */
  lemma {:induction false} TenancyPageWithinCount(db: Db, tenantId: Val, limit: nat, offset: nat)
    ensures |GetRequestsByTenant(db, tenantId, limit, offset)| <= CountRequestsByTenant(db, tenantId)
  {
    var js := TenantListJoins(db);
    var rows := db.maintenance.rows;
    var p := PaymentModel.OfTenancyBy(tenantId);
    TenantListJoinsKeep(db);
    forall i | 0 <= i < |rows| && JoinAll(rows[i], js).Some?
      ensures p(JoinAll(rows[i], js).value) == p(rows[i]) {
      JoinKeeps(rows[i], js, "tenant_id");
    }
    FilterJoined(rows, js, p);
  }

  /** `mr.status = ?`. */
  predicate HasStatus(status: Val, row: Row) {
    Holds(Get(row, "status"), Eq, status)
  }

  function HasStatusBy(status: Val): Row -> bool {
    row => HasStatus(status, row)
  }

  /** Maintenance::getRequestsByStatus: the joined requests with that status; the ORDER BY is not applied. */
  function GetRequestsByStatus(db: Db, status: Val): (r: seq<Row>)
    ensures r == Filter(Joined(db.maintenance.rows, StatusJoins(db)), HasStatusBy(status))
  {
    var w := [Bound("status", Eq)];
    var q := Select(w, [Sort("priority", "DESC"), Sort("created_at", "ASC")], false, false, [status]);
    assert w[1..] == [] && [status][..1] == [status] && [status][1..] == [];
    var joined := Joined(db.maintenance.rows, StatusJoins(db));
    FilterAgree(joined, Matching(w, [status]), HasStatusBy(status));
    Run(q, joined).value
  }

  /** The requests with a status are those of the requests with it whose property and reporter exist. */
  lemma {:induction false} ByStatusFromRequests(db: Db, status: Val)
    ensures GetRequestsByStatus(db, status) == Joined(Filter(db.maintenance.rows, HasStatusBy(status)), StatusJoins(db))
  {
    var js := StatusJoins(db);
    var rows := db.maintenance.rows;
    StatusJoinsKeep(db);
    forall i | 0 <= i < |rows| && JoinAll(rows[i], js).Some?
      ensures HasStatusBy(status)(JoinAll(rows[i], js).value) == HasStatusBy(status)(rows[i]) {
      JoinKeeps(rows[i], js, "status");
    }
    FilterJoined(rows, js, HasStatusBy(status));
  }
}
