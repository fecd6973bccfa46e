/**
 Tenant: the tenancies of the `tenants` table. The listing queries join each
 tenancy with its user and its property; a tenancy is active while its
 status is `active`, and ending it marks it `inactive` with a move-out date.
 DATEDIFF and CURDATE are not computed: the number of days from today to a
 lease's end is the parameter `daysUntil`.
 */
module TenantModel {
  import opened Php
  import opened Wrappers
  import opened Rows
  import opened Sql
  import opened BaseModel
  import opened Joins
  import opened Dates
  import opened Store
  import opened Constants

  const TENANT_ACTIVE: string := "active"
  const TENANT_INACTIVE: string := "inactive"

  /** `t.status = 'active'`. */
  predicate IsActive(row: Row) {
    Holds(Get(row, "status"), Eq, Str(TENANT_ACTIVE))
  }

  /** `JOIN users u ON t.user_id = u.id`, with the user columns a query selects. */
  function UserJoin(users: Table, columns: seq<(string, string)>): Join {
    Join(users, "user_id", columns, true)
  }

  /** `JOIN properties p ON t.property_id = p.id`, with the property columns a query selects. */
  function PropertyJoin(properties: Table, columns: seq<(string, string)>): Join {
    Join(properties, "property_id", columns, true)
  }

  /** The joins of getActiveTenants: the user's name, email and phone, and the property's name. */
  function ActiveJoins(db: Db): seq<Join> {
    [UserJoin(db.users, [("full_name", "full_name"), ("email", "email"), ("phone", "phone")]),
     PropertyJoin(db.properties, [("property_name", "name")])]
  }

  /** What getActiveTenants selects: active tenancies, of the given property when one is given (truthy). */
  predicate ActiveOn(propertyId: Val, row: Row) {
    IsActive(row) && (Truthy(propertyId) ==> Holds(Get(row, "property_id"), Eq, propertyId))
  }

  function ActiveOnBy(propertyId: Val): Row -> bool {
    row => ActiveOn(propertyId, row)
  }

  /** getActiveTenants' WHERE clause: the fixed status test, then `t.property_id = ?` only for a truthy id. */
  function ActiveQuery(propertyId: Val): (q: Select)
    ensures WellFormed(q) && !q.limit
    ensures q.params == (if Truthy(propertyId) then [propertyId] else [])
    ensures forall row: Row :: Satisfies(row, q.where, q.params) <==> ActiveOn(propertyId, row)
  {
    var fixed := [Fixed("status", Eq, Str(TENANT_ACTIVE))];
    var (w, a) := Optional(Truthy(propertyId), Bound("property_id", Eq), propertyId);
    HolesAppend(fixed, w);
    forall row: Row ensures Satisfies(row, fixed + w, a) <==> ActiveOn(propertyId, row) {
      SatisfiesAppend(row, fixed, w, [], a);
      assert [] + a == a;
      assert Satisfies(row, fixed, []) <==> IsActive(row) by {
        assert fixed[1..] == [];
      }
    }
    Select(fixed + w, [Sort("created_at", "DESC")], false, false, a)
  }

  /**
   Tenant::getActiveTenants: the active tenancies (of one property when
   `propertyId` is truthy) joined with their user and property; ORDER BY is
   not applied.
   */
  function GetActiveTenants(db: Db, propertyId: Val): (r: seq<Row>)
    ensures r == Joined(Filter(db.tenants.rows, ActiveOnBy(propertyId)), ActiveJoins(db))
  {
    var q := ActiveQuery(propertyId);
    assert q.params[..Holes(q.where)] == q.params;
    FilterAgree(db.tenants.rows, Matching(q.where, q.params), ActiveOnBy(propertyId));
    Joined(Run(q, db.tenants.rows).value, ActiveJoins(db))
  }

  /** The listing joins add none of the tenancy's own status, user or property columns. */
  lemma ActiveJoinsKeep(db: Db)
    ensures NoAlias(ActiveJoins(db), "status") && NoAlias(ActiveJoins(db), "property_id")
  {
  }

  /** Every tenancy getActiveTenants returns is active, and on the requested property when one is given. */
  lemma {:induction false} ActiveTenantsAreActive(db: Db, propertyId: Val, x: Row)
    requires x in GetActiveTenants(db, propertyId)
    ensures exists row :: row in db.tenants.rows && ActiveOn(propertyId, row) && JoinAll(row, ActiveJoins(db)) == Some(x)
    ensures ActiveOn(propertyId, x)
  {
    JoinedFrom(Filter(db.tenants.rows, ActiveOnBy(propertyId)), ActiveJoins(db), x);
    var row :| row in Filter(db.tenants.rows, ActiveOnBy(propertyId)) && JoinAll(row, ActiveJoins(db)) == Some(x);
    ActiveJoinsKeep(db);
    JoinKeeps(row, ActiveJoins(db), "status");
    JoinKeeps(row, ActiveJoins(db), "property_id");
  }

  /** The joins of getTenantByUserId: only the property, its name, location and city. */
  function CurrentJoins(db: Db): seq<Join> {
    [PropertyJoin(db.properties, [("property_name", "name"), ("location", "location"), ("city", "city")])]
  }

  /** `t.user_id = ? AND t.status = 'active'`. */
  predicate ActiveFor(userId: Val, row: Row) {
    Holds(Get(row, "user_id"), Eq, userId) && IsActive(row)
  }

  function ActiveForBy(userId: Val): Row -> bool {
    row => ActiveFor(userId, row)
  }

  /**
   Tenant::getTenantByUserId: the first active tenancy of that user whose
   property exists, joined with the property; nothing (the PHP `false`)
   when there is none.
   */
  function GetTenantByUserId(db: Db, userId: Val): (r: Option<Row>)
    ensures r.None? <==> |Joined(Filter(db.tenants.rows, ActiveForBy(userId)), CurrentJoins(db))| == 0
    ensures r.Some? ==> r.value == Joined(Filter(db.tenants.rows, ActiveForBy(userId)), CurrentJoins(db))[0]
  {
    var found := Joined(Filter(db.tenants.rows, ActiveForBy(userId)), CurrentJoins(db));
    if |found| == 0 then None else Some(found[0])
  }

  /**
   Who may see a record kept per tenancy (a payment, a maintenance
   request): anyone whose role is not exactly `tenant`, and a tenant only
   when the record's tenancy is (loose `==`) their active tenancy.
   */
  predicate MayView(db: Db, claims: Row, record: Row) {
    Get(claims, "role") == Str(ROLE_TENANT) ==>
      var tenancy := GetTenantByUserId(db, Get(claims, "sub"));
      tenancy.Some? && LooseEq(Get(record, "tenant_id"), Get(tenancy.value, "id"))
  }

  /** The property join adds neither the status nor the user of a tenancy. */
  lemma CurrentJoinsKeep(db: Db)
    ensures NoAlias(CurrentJoins(db), "status") && NoAlias(CurrentJoins(db), "user_id")
  {
  }

  /** The tenancy getTenantByUserId returns belongs to that user and is active. */
  lemma {:induction false} CurrentTenancyIsActive(db: Db, userId: Val)
    requires GetTenantByUserId(db, userId).Some?
    ensures ActiveFor(userId, GetTenantByUserId(db, userId).value)
  {
    var x := GetTenantByUserId(db, userId).value;
    var rows := Filter(db.tenants.rows, ActiveForBy(userId));
    assert x in Joined(rows, CurrentJoins(db));
    JoinedFrom(rows, CurrentJoins(db), x);
    var row :| row in rows && JoinAll(row, CurrentJoins(db)) == Some(x);
    var js := CurrentJoins(db);
    CurrentJoinsKeep(db);
    JoinKeeps(row, js, "status");
    JoinKeeps(row, js, "user_id");
  }

  /** `property_id = ? AND status = 'active'`. */
  function ActiveAt(propertyId: Val): Row -> bool {
    row => Holds(Get(row, "property_id"), Eq, propertyId) && IsActive(row)
  }

  /** Tenant::checkPropertyAvailability: the property has no active tenancy. */
  function CheckPropertyAvailability(t: Table, propertyId: Val): (r: bool)
    ensures r <==> forall i :: 0 <= i < |t.rows| ==> !ActiveAt(propertyId)(t.rows[i])
  {
    if |Filter(t.rows, ActiveAt(propertyId))| == 0 then
      true
    else
      assert Filter(t.rows, ActiveAt(propertyId))[0] in t.rows;
      false
  }

  /**
   Tenant::update, which overrides BaseModel::update with the same
   statement: the given columns of the tenancy with that id, and the
   affected-row count; None for an empty `$data`.
   */
  function Update(t: Table, id: Val, data: Assoc): (r: Option<(Table, nat)>)
    ensures r.None? <==> |data| == 0
    ensures r.Some? ==> r.value == UpdateById(t, id, ToRow(data))
  {
    UpdateRow(t, id, data)
  }

  /** The two columns ending a lease sets. */
  function Termination(moveOutDate: Val): (c: Row)
    ensures c.Keys == {"status", "move_out_date"}
    ensures c["status"] == Str(TENANT_INACTIVE) && c["move_out_date"] == moveOutDate
  {
    map["status" := Str(TENANT_INACTIVE), "move_out_date" := moveOutDate]
  }

  /**
   Tenant::terminateLease: the tenancy with that id becomes inactive with
   that move-out date; every other column and every other tenancy stays.
   */
  function TerminateLease(t: Table, id: Val, moveOutDate: Val): (r: (Table, nat))
    ensures |r.0.rows| == |t.rows| && r.0.nextId == t.nextId
    ensures forall i :: 0 <= i < |t.rows| ==>
              r.0.rows[i] == if HasKey(id)(t.rows[i]) then t.rows[i] + Termination(moveOutDate) else t.rows[i]
  {
    var data := [("status", Str(TENANT_INACTIVE)), ("move_out_date", moveOutDate)];
    assert ToRow(data) == Termination(moveOutDate) by {
      assert data[..1] == [("status", Str(TENANT_INACTIVE))];
      assert data[..1][..0] == [];
    }
    Update(t, id, data).value
  }

  /** A terminated tenancy is inactive, moved out on that date, and otherwise unchanged. */
  lemma TerminatedTenancy(t: Table, id: Val, moveOutDate: Val, i: nat)
    requires i < |t.rows| && HasKey(id)(t.rows[i])
    ensures var row := TerminateLease(t, id, moveOutDate).0.rows[i];
            && Get(row, "status") == Str(TENANT_INACTIVE) && Get(row, "move_out_date") == moveOutDate
            && !IsActive(row)
            && forall k :: k in t.rows[i] && k != "status" && k != "move_out_date" ==> k in row && row[k] == t.rows[i][k]
  {
    var row := TerminateLease(t, id, moveOutDate).0.rows[i];
    var c := Termination(moveOutDate);
    assert row == t.rows[i] + c;
    assert Get(row, "status") == Str(TENANT_INACTIVE);
    assert |TENANT_INACTIVE| != |TENANT_ACTIVE|;
    StrEqHolds(TENANT_INACTIVE, TENANT_ACTIVE);
    assert !IsActive(row);
    TerminationKeepsOthers(t.rows[i], moveOutDate);
  }

  /** Ending a lease leaves every column but the two it sets as it was. */
  lemma TerminationKeepsOthers(row: Row, moveOutDate: Val)
    ensures forall k :: k in row && k != "status" && k != "move_out_date" ==>
              k in row + Termination(moveOutDate) && (row + Termination(moveOutDate))[k] == row[k]
  {
    var c := Termination(moveOutDate);
    forall k | k in row && k != "status" && k != "move_out_date" ensures k in row + c && (row + c)[k] == row[k] {
      assert k !in c.Keys;
      KeptUnderMerge(row, c, k);
    }
  }

  /** Tenant::softDelete: terminateLease with today's date as the move-out date. */
  function SoftDelete(t: Table, id: Val, today: Date): (r: (Table, nat))
    requires Proper(today)
    ensures r == TerminateLease(t, id, Str(Format(today)))
  {
    TerminateLease(t, id, Str(Format(today)))
  }

  /** The joins of getExpiringLeases: the user's name and email, and the property's name. */
  function ExpiringJoins(db: Db): seq<Join> {
    [UserJoin(db.users, [("full_name", "full_name"), ("email", "email")]),
     PropertyJoin(db.properties, [("property_name", "name")])]
  }

  /**
   `t.status = 'active' AND DATEDIFF(t.lease_end_date, CURDATE()) <= ?`,
   with the day difference given by `daysUntil` (None for NULL, which the
   comparison filters out).
   */
  predicate Expiring(days: int, daysUntil: Val -> Option<int>, row: Row) {
    IsActive(row) && daysUntil(Get(row, "lease_end_date")).Some? && daysUntil(Get(row, "lease_end_date")).value <= days
  }

  function ExpiringBy(days: int, daysUntil: Val -> Option<int>): Row -> bool {
    row => Expiring(days, daysUntil, row)
  }

  /** Tenant::getExpiringLeases: the active tenancies whose lease ends within `days` days, joined. */
  function GetExpiringLeases(db: Db, days: int, daysUntil: Val -> Option<int>): (r: seq<Row>)
    ensures r == Joined(Filter(db.tenants.rows, ExpiringBy(days, daysUntil)), ExpiringJoins(db))
  {
    Joined(Filter(db.tenants.rows, ExpiringBy(days, daysUntil)), ExpiringJoins(db))
  }

  /**
   The "expiring" leases include leases that have already ended: an active
   tenancy whose end date is in the past has a negative day difference,
   which passes the `<=` test for any non-negative window.
   */
  lemma {:induction false} EndedLeaseIsExpiring(db: Db, days: int, daysUntil: Val -> Option<int>, row: Row)
    requires row in db.tenants.rows && IsActive(row) && JoinAll(row, ExpiringJoins(db)).Some?
    requires daysUntil(Get(row, "lease_end_date")).Some? && daysUntil(Get(row, "lease_end_date")).value < 0
    requires days >= 0
    ensures JoinAll(row, ExpiringJoins(db)).value in GetExpiringLeases(db, days, daysUntil)
  {
    assert row in Filter(db.tenants.rows, ExpiringBy(days, daysUntil));
    JoinedHas(Filter(db.tenants.rows, ExpiringBy(days, daysUntil)), ExpiringJoins(db), row);
  }
}
