/**
 TenantsController: the list of active tenancies, one tenancy, the
 assignment of a tenant user to an available property, and the caller's own
 tenancy. index and store call RoleMiddleware::adminOnly without
 AuthMiddleware::handle before it, and show calls neither, so on a routed
 request index and store answer 401 and show checks no ownership.
 Property::updateStatus is not defined in Property.php, so it is a parameter.
 */
module TenantsController {
  import opened Text
  import opened Php
  import opened Wrappers
  import opened Http
  import opened Store
  import opened Rows
  import opened BaseModel
  import opened Joins
  import opened Validate
  import opened Constants
  import AuthMiddleware
  import RoleMiddleware
  import PropertyModel
  import UserModel
  import TenantModel

  /** The fields store requires, in the order it checks them. */
  const REQUIRED_FIELDS: seq<string> := ["user_id", "property_id", "lease_start_date", "lease_end_date", "monthly_rent",
                                         "deposit_amount", "emergency_contact_name", "emergency_contact_phone"]

  /** The ten columns of the tenancy store creates. */
  const TENANT_COLUMNS: seq<string> := ["user_id", "property_id", "lease_start_date", "lease_end_date", "monthly_rent",
                                        "deposit_amount", "emergency_contact_name", "emergency_contact_phone",
                                        "move_in_date", "status"]

  /** Property::updateStatus, called but not defined. */
  datatype PropertyOps = PropertyOps(updateStatus: (Table, Val, string) -> Table)

  /** `UPDATE properties SET status = ? WHERE id = ?`: what updateStatus is evidently meant to do. */
  function StatusWrite(t: Table, id: Val, status: string): Table {
    UpdateById(t, id, map["status" := Str(status)]).0
  }

  /** The hypothesis that updateStatus sets the status of the property with that id and nothing else. */
  ghost predicate SetsStatus(ops: PropertyOps) {
    forall t, id, status :: ops.updateStatus(t, id, status) == StatusWrite(t, id, status)
  }

  function TenantNotFound(): Outcome { Error("Tenant not found", "NOT_FOUND", Arr(map[]), 404) }

  function AccessDenied(): Outcome { Error("Access denied", "FORBIDDEN", Arr(map[]), 403) }

  function PropertyMissing(): Outcome { Error("Property not found") }

  function PropertyTaken(): Outcome { Error("Property is not available") }

  function InvalidTenantUser(): Outcome { Error("Invalid tenant user") }

  function AlreadyTenant(): Outcome { Error("User is already a tenant at another property") }

  function LeaseOrder(): Outcome { Error("Lease end date must be after start date") }

  function NotATenant(): Outcome { Error("User is not a tenant") }

  function NoTenancy(): Outcome { Error("Tenant record not found", "NOT_FOUND", Arr(map[]), 404) }

  /**
   TenantsController::index: after adminOnly, the active tenancies of the
   `property_id` query parameter (all of them when it is absent or empty).
   The page, limit and status it reads are never used.
   */
  function Index(db: Db, req: AuthMiddleware.Request, query: Row): (o: Outcome)
    ensures RoleMiddleware.AdminOnly(req).Halt? ==> o == RoleMiddleware.AdminOnly(req).out
    ensures RoleMiddleware.AdminOnly(req).Next? ==>
              IsSuccess(o) && Carries(o, "tenants", RowsVal(TenantModel.GetActiveTenants(db, Coalesce(query, "property_id", Null))))
  {
    var role := RoleMiddleware.AdminOnly(req);
    if role.Halt? then role.out
    else Ok(map["tenants" := RowsVal(TenantModel.GetActiveTenants(db, Coalesce(query, "property_id", Null)))])
  }

  /** The listing does not depend on the page, limit or status the query asks for. */
  lemma IndexIgnoresPaging(db: Db, req: AuthMiddleware.Request, query: Row, page: Val, limit: Val, status: Val)
    ensures Index(db, req, query["page" := page]["limit" := limit]["status" := status]) == Index(db, req, query)
  {
    var q := query["page" := page]["limit" := limit]["status" := status];
    assert Coalesce(q, "property_id", Null) == Coalesce(query, "property_id", Null);
  }

  /** Whether the stored user is a tenant: `$user['role'] === ROLE_TENANT`, false without a user. */
  predicate CallerIsTenant(req: AuthMiddleware.Request) {
    req.user.Some? && Get(req.user.value, "role") == Str(ROLE_TENANT)
  }

  /** The `sub` of the stored user, null without one. */
  function CallerSub(req: AuthMiddleware.Request): Val {
    if req.user.Some? then Get(req.user.value, "sub") else Null
  }

  /**
   TenantsController::show: the tenancy, or 404; a caller whose role is
   tenant gets 403 for a tenancy of another user (loose `!=`).
   */
  function Show(db: Db, req: AuthMiddleware.Request, id: Val): (o: Outcome)
    ensures BaseModel.Find(db.tenants, id).None? ==> o == TenantNotFound()
    ensures (BaseModel.Find(db.tenants, id).Some? && CallerIsTenant(req)
             && !LooseEq(Get(BaseModel.Find(db.tenants, id).value, "user_id"), CallerSub(req))) ==> o == AccessDenied()
    ensures (BaseModel.Find(db.tenants, id).Some?
             && (CallerIsTenant(req) ==> LooseEq(Get(BaseModel.Find(db.tenants, id).value, "user_id"), CallerSub(req)))) ==>
              IsSuccess(o) && Carries(o, "tenant", Arr(BaseModel.Find(db.tenants, id).value))
  {
    match BaseModel.Find(db.tenants, id)
    case None => TenantNotFound()
    case Some(tenant) =>
      if CallerIsTenant(req) && !LooseEq(Get(tenant, "user_id"), CallerSub(req)) then AccessDenied()
      else Ok(map["tenant" := Arr(tenant)])
  }

  /**
   show authenticates no one, so on a routed request there is no stored
   user and any tenancy is answered to anyone.
   */
  lemma ShowSkipsOwnershipWithoutUser(db: Db, env: AuthMiddleware.Env, id: Val)
    requires BaseModel.Find(db.tenants, id).Some?
    ensures IsSuccess(Show(db, AuthMiddleware.Begin(env), id))
    ensures Carries(Show(db, AuthMiddleware.Begin(env), id), "tenant", Arr(BaseModel.Find(db.tenants, id).value))
  {
  }

  /** A tenant caller who is answered a tenancy is that tenancy's user. */
  lemma ShowToTenantIsOwn(db: Db, req: AuthMiddleware.Request, id: Val)
    requires CallerIsTenant(req) && IsSuccess(Show(db, req, id))
    ensures BaseModel.Find(db.tenants, id).Some?
    ensures LooseEq(Get(BaseModel.Find(db.tenants, id).value, "user_id"), CallerSub(req))
  {
  }

  /**
   `$leaseEnd <= $leaseStart` on two strtotime results, a failed parse
   being `false`: false is below or equal to everything, and an integer
   compared with false is compared as a boolean.
   */
  predicate LeaseRejected(start: Option<int>, end: Option<int>) {
    if end.None? then true
    else if start.None? then end.value == 0
    else end.value <= start.value
  }

  /** With both dates parsed, the lease is accepted exactly when it ends after it starts; an unparsable end is always refused. */
  lemma LeaseRejectedMeaning(start: Option<int>, end: Option<int>)
    ensures start.Some? && end.Some? ==> (LeaseRejected(start, end) <==> end.value <= start.value)
    ensures end.None? ==> LeaseRejected(start, end)
  {
  }

  /** store's property check: it exists (the id being the input's `property_id`) and its status is `available`. */
  function PropertyCheck(db: Db, input: Row): (s: Step<bool>)
    ensures PropertyModel.Find(db.properties, Get(input, "property_id")).None? ==> s == Halt(PropertyMissing())
    ensures (PropertyModel.Find(db.properties, Get(input, "property_id")).Some?
             && Get(PropertyModel.Find(db.properties, Get(input, "property_id")).value, "status") != Str(PROPERTY_AVAILABLE)) ==>
              s == Halt(PropertyTaken())
    ensures s.Next? <==> PropertyModel.Find(db.properties, Get(input, "property_id")).Some?
                         && Get(PropertyModel.Find(db.properties, Get(input, "property_id")).value, "status") == Str(PROPERTY_AVAILABLE)
    ensures s.Halt? ==> !IsSuccess(s.out)
  {
    match PropertyModel.Find(db.properties, Get(input, "property_id"))
    case None => Halt(PropertyMissing())
    case Some(property) => if Get(property, "status") != Str(PROPERTY_AVAILABLE) then Halt(PropertyTaken()) else Next(true)
  }

  /** store's user check: the user exists and its role is exactly `tenant`. */
  function UserCheck(db: Db, input: Row): (s: Step<bool>)
    ensures s.Next? <==> UserModel.FindUser(db.users, Get(input, "user_id")).Some?
                         && Get(UserModel.FindUser(db.users, Get(input, "user_id")).value, "role") == Str(ROLE_TENANT)
    ensures s.Halt? ==> s.out == InvalidTenantUser() && !IsSuccess(s.out)
  {
    var user := UserModel.FindUser(db.users, Get(input, "user_id"));
    Check(user.Some? && Get(user.value, "role") == Str(ROLE_TENANT), InvalidTenantUser())
  }

  /** The checks of store in their order; the first that fails answers. */
  function StoreChecks(db: Db, req: AuthMiddleware.Request, input: Row, strtotime: string -> Option<int>): (s: Step<bool>)
    ensures s.Halt? ==> !IsSuccess(s.out)
    ensures s.Next? <==> RoleMiddleware.AdminOnly(req).Next? && RequireFields(input, REQUIRED_FIELDS).Next?
                         && PropertyCheck(db, input).Next? && UserCheck(db, input).Next?
                         && TenancyCheck(db, input).Next? && LeaseCheck(input, strtotime).Next?
  {
    var role := RoleMiddleware.AdminOnly(req);
    if role.Halt? then role
    else
      var fields := RequireFields(input, REQUIRED_FIELDS);
      if fields.Halt? then fields
      else
        var property := PropertyCheck(db, input);
        if property.Halt? then property
        else
          var user := UserCheck(db, input);
          if user.Halt? then user
          else
            var tenancy := TenancyCheck(db, input);
            if tenancy.Halt? then tenancy else LeaseCheck(input, strtotime)
  }

  /** store's tenancy check: the user has no active tenancy yet. */
  function TenancyCheck(db: Db, input: Row): (s: Step<bool>)
    ensures s.Next? <==> TenantModel.GetTenantByUserId(db, Get(input, "user_id")).None?
    ensures s.Halt? ==> s.out == AlreadyTenant() && !IsSuccess(s.out)
  {
    Check(TenantModel.GetTenantByUserId(db, Get(input, "user_id")).None?, AlreadyTenant())
  }

  /** store's lease check on the two dates as strtotime reads them. */
  function LeaseCheck(input: Row, strtotime: string -> Option<int>): (s: Step<bool>)
    ensures s.Next? <==> !LeaseRejected(strtotime(ToStr(Get(input, "lease_start_date"))), strtotime(ToStr(Get(input, "lease_end_date"))))
    ensures s.Halt? ==> s.out == LeaseOrder() && !IsSuccess(s.out)
  {
    Check(!LeaseRejected(strtotime(ToStr(Get(input, "lease_start_date"))), strtotime(ToStr(Get(input, "lease_end_date")))), LeaseOrder())
  }

  /** One column of the new tenancy: money in cents, the contact trimmed, moved in on the lease start, active. */
  function TenantField(k: string, input: Row, cents: Val -> int): (v: Val)
    ensures k == "status" ==> v == Str(TenantModel.TENANT_ACTIVE)
    ensures k == "move_in_date" ==> v == Get(input, "lease_start_date")
    ensures k in ["user_id", "property_id", "lease_start_date", "lease_end_date"] ==> v == Get(input, k)
    ensures k in ["monthly_rent", "deposit_amount"] ==> v == Int(cents(Get(input, k)))
    ensures k in ["emergency_contact_name", "emergency_contact_phone"] ==> v == Str(PhpTrim(ToStr(Get(input, k))))
  {
    if k in ["monthly_rent", "deposit_amount"] then Int(cents(Get(input, k)))
    else if k in ["emergency_contact_name", "emergency_contact_phone"] then Str(PhpTrim(ToStr(Get(input, k))))
    else if k == "move_in_date" then Get(input, "lease_start_date")
    else if k == "status" then Str(TenantModel.TENANT_ACTIVE)
    else Get(input, k)
  }

  /** The array store hands Tenant::create (BaseModel::create inserts exactly these columns). */
  function NewTenant(input: Row, cents: Val -> int): (row: Row)
    ensures row.Keys == set k | k in TENANT_COLUMNS
    ensures forall k :: k in row ==> row[k] == TenantField(k, input, cents)
  {
    map k | k in TENANT_COLUMNS :: TenantField(k, input, cents)
  }

  /** The end of a successful store: the tenancy inserted, the property marked occupied, the new id answered. */
  function Assigned(db: Db, input: Row, ops: PropertyOps, cents: Val -> int): (r: Served)
    ensures r.db == db.(tenants := Add(db.tenants, NewTenant(input, cents)).0,
                        properties := ops.updateStatus(db.properties, Get(input, "property_id"), PROPERTY_OCCUPIED))
    ensures IsSuccess(r.out) && Carries(r.out, "tenant_id", Str(IntToString(db.tenants.nextId)))
  {
    var (t, id) := Add(db.tenants, NewTenant(input, cents));
    Served(db.(tenants := t, properties := ops.updateStatus(db.properties, Get(input, "property_id"), PROPERTY_OCCUPIED)),
           Ok(map["tenant_id" := Str(IntToString(id))], Some("Tenant assigned successfully")))
  }

  /**
   TenantsController::store. The checks, in order: adminOnly, the eight
   required fields, the property exists and is available, the user exists
   with role tenant, the user has no active tenancy, the lease ends after it
   starts. The body is not checked for a JSON error: an undecodable body has
   no fields and fails the first required field.
   */
  function StoreTenant(db: Db, req: AuthMiddleware.Request, body: Body, ops: PropertyOps,
                       strtotime: string -> Option<int>, cents: Val -> int): (r: Served)
    ensures StoreChecks(db, req, Input(body), strtotime).Halt? ==>
              r == Served(db, StoreChecks(db, req, Input(body), strtotime).out)
    ensures StoreChecks(db, req, Input(body), strtotime).Next? ==> r == Assigned(db, Input(body), ops, cents)
  {
    var input := Input(body);
    var checks := StoreChecks(db, req, input, strtotime);
    if checks.Halt? then Served(db, checks.out) else Assigned(db, input, ops, cents)
  }

  /** As routed, store runs adminOnly on an unauthenticated request: 401, nothing written. */
  lemma StoreNeedsPriorAuthentication(db: Db, env: AuthMiddleware.Env, body: Body, ops: PropertyOps,
                                      strtotime: string -> Option<int>, cents: Val -> int)
    ensures StoreTenant(db, AuthMiddleware.Begin(env), body, ops, strtotime, cents)
            == Served(db, Error("Authentication required", "UNAUTHORIZED", Arr(map[]), 401))
  {
    RoleMiddleware.FreshRequestUnauthenticated(env, [ROLE_ADMIN]);
  }

  /** As routed, index runs adminOnly on an unauthenticated request: always 401. */
  lemma IndexNeedsPriorAuthentication(db: Db, env: AuthMiddleware.Env, query: Row)
    ensures Index(db, AuthMiddleware.Begin(env), query) == Error("Authentication required", "UNAUTHORIZED", Arr(map[]), 401)
  {
    RoleMiddleware.FreshRequestUnauthenticated(env, [ROLE_ADMIN]);
  }

  /**
   A property that is not available is refused once the caller is admitted
   and the fields are present, whatever the user and the lease.
   */
  lemma {:induction false} TakenPropertyRefused(db: Db, req: AuthMiddleware.Request, body: Body, ops: PropertyOps,
                                                strtotime: string -> Option<int>, cents: Val -> int)
    requires RoleMiddleware.AdminOnly(req).Next? && RequireFields(Input(body), REQUIRED_FIELDS).Next?
    requires PropertyModel.Find(db.properties, Get(Input(body), "property_id")).Some?
    requires Get(PropertyModel.Find(db.properties, Get(Input(body), "property_id")).value, "status") != Str(PROPERTY_AVAILABLE)
    ensures StoreTenant(db, req, body, ops, strtotime, cents) == Served(db, PropertyTaken())
  {
  }

  /**
   A user with an active tenancy is refused once the earlier checks pass,
   whatever the lease dates.
   */
  lemma {:induction false} SecondTenancyRefused(db: Db, req: AuthMiddleware.Request, body: Body, ops: PropertyOps,
                                                strtotime: string -> Option<int>, cents: Val -> int)
    requires RoleMiddleware.AdminOnly(req).Next? && RequireFields(Input(body), REQUIRED_FIELDS).Next?
    requires PropertyCheck(db, Input(body)).Next? && UserCheck(db, Input(body)).Next?
    requires TenantModel.GetTenantByUserId(db, Get(Input(body), "user_id")).Some?
    ensures StoreTenant(db, req, body, ops, strtotime, cents) == Served(db, AlreadyTenant())
  {
  }

  /**
   A successful store passed every check: the property was available, the
   user a tenant with no active tenancy, and the lease (when both dates
   parse) ends after it starts.
   */
  lemma {:induction false} StoreSucceeded(db: Db, req: AuthMiddleware.Request, body: Body, ops: PropertyOps,
                                          strtotime: string -> Option<int>, cents: Val -> int)
    requires IsSuccess(StoreTenant(db, req, body, ops, strtotime, cents).out)
    ensures RoleMiddleware.AdminOnly(req).Next?
    ensures PropertyModel.Find(db.properties, Get(Input(body), "property_id")).Some?
    ensures Get(PropertyModel.Find(db.properties, Get(Input(body), "property_id")).value, "status") == Str(PROPERTY_AVAILABLE)
    ensures UserModel.FindUser(db.users, Get(Input(body), "user_id")).Some?
    ensures Get(UserModel.FindUser(db.users, Get(Input(body), "user_id")).value, "role") == Str(ROLE_TENANT)
    ensures TenantModel.GetTenantByUserId(db, Get(Input(body), "user_id")).None?
    ensures !LeaseRejected(strtotime(ToStr(Get(Input(body), "lease_start_date"))), strtotime(ToStr(Get(Input(body), "lease_end_date"))))
  {
    ChecksPassed(db, req, Input(body), strtotime);
  }

  /** Passing the checks of store means each of them held. */
  lemma ChecksPassed(db: Db, req: AuthMiddleware.Request, input: Row, strtotime: string -> Option<int>)
    requires StoreChecks(db, req, input, strtotime).Next?
    ensures RoleMiddleware.AdminOnly(req).Next?
    ensures PropertyModel.Find(db.properties, Get(input, "property_id")).Some?
    ensures Get(PropertyModel.Find(db.properties, Get(input, "property_id")).value, "status") == Str(PROPERTY_AVAILABLE)
    ensures UserModel.FindUser(db.users, Get(input, "user_id")).Some?
    ensures Get(UserModel.FindUser(db.users, Get(input, "user_id")).value, "role") == Str(ROLE_TENANT)
    ensures TenantModel.GetTenantByUserId(db, Get(input, "user_id")).None?
    ensures !LeaseRejected(strtotime(ToStr(Get(input, "lease_start_date"))), strtotime(ToStr(Get(input, "lease_end_date"))))
  {
  }

  /** The row store inserts is active, moved in on the lease start, for the user and property asked for. */
  lemma NewTenantShape(input: Row, cents: Val -> int)
    ensures var row := NewTenant(input, cents);
            && "status" in row && row["status"] == Str(TenantModel.TENANT_ACTIVE)
            && "move_in_date" in row && row["move_in_date"] == Get(input, "lease_start_date")
            && "user_id" in row && row["user_id"] == Get(input, "user_id")
            && "property_id" in row && row["property_id"] == Get(input, "property_id")
  {
    var cols := TENANT_COLUMNS;
    assert cols[0] == "user_id" && cols[1] == "property_id" && cols[8] == "move_in_date" && cols[9] == "status";
  }

  /** The tenancy store creates is found under the new id, active, and moved in on the lease start. */
  lemma {:induction false} AssignedTenancy(t: Table, input: Row, cents: Val -> int)
    requires Keyed(t)
    ensures var found := BaseModel.Find(Add(t, NewTenant(input, cents)).0, Int(t.nextId));
            && found.Some?
            && Get(found.value, "status") == Str(TenantModel.TENANT_ACTIVE)
            && Get(found.value, "move_in_date") == Get(input, "lease_start_date")
            && Get(found.value, "user_id") == Get(input, "user_id")
            && Get(found.value, "property_id") == Get(input, "property_id")
  {
    AddThenFind(t, NewTenant(input, cents));
    NewTenantShape(input, cents);
  }

  /** With updateStatus doing what it is meant to, the assigned property ends up occupied. */
  lemma {:induction false} AssignedPropertyOccupied(db: Db, input: Row, ops: PropertyOps, cents: Val -> int, i: nat)
    requires SetsStatus(ops)
    requires i < |db.properties.rows| && HasKey(Get(input, "property_id"))(db.properties.rows[i])
    ensures var t := Assigned(db, input, ops, cents).db.properties;
            i < |t.rows| && Get(t.rows[i], "status") == Str(PROPERTY_OCCUPIED)
  {
    assert ops.updateStatus(db.properties, Get(input, "property_id"), PROPERTY_OCCUPIED)
        == StatusWrite(db.properties, Get(input, "property_id"), PROPERTY_OCCUPIED);
  }

  /** getCurrentTenant once authenticated, given the caller's active tenancy if any. */
  function TenancyAnswer(claims: Row, tenancy: Option<Row>): (o: Outcome)
    ensures Get(claims, "role") != Str(ROLE_TENANT) ==> o == NotATenant()
    ensures Get(claims, "role") == Str(ROLE_TENANT) && tenancy.None? ==> o == NoTenancy()
    ensures Get(claims, "role") == Str(ROLE_TENANT) && tenancy.Some? ==> IsSuccess(o) && Carries(o, "tenant", Arr(tenancy.value))
  {
    if Get(claims, "role") != Str(ROLE_TENANT) then NotATenant()
    else match tenancy
      case None => NoTenancy()
      case Some(tenant) => Ok(map["tenant" := Arr(tenant)])
  }

  /**
   TenantsController::getCurrentTenant: authenticate; a caller whose role
   is not exactly tenant gets VALIDATION_ERROR, a tenant with no active
   tenancy 404, and otherwise the tenancy, looked up by the token's `sub`.
   */
  function GetCurrentTenant(db: Db, req: AuthMiddleware.Request): (o: Outcome)
    ensures AuthMiddleware.Handle(req).Halt? ==> o == AuthMiddleware.Handle(req).out
    ensures AuthMiddleware.Handle(req).Next? ==>
              o == TenancyAnswer(AuthMiddleware.Handle(req).value.1,
                                 TenantModel.GetTenantByUserId(db, Get(AuthMiddleware.Handle(req).value.1, "sub")))
  {
    var auth := AuthMiddleware.Handle(req);
    if auth.Halt? then auth.out else TenancyAnswer(auth.value.1, TenantModel.GetTenantByUserId(db, Get(auth.value.1, "sub")))
  }

  /** The tenancy getCurrentTenant answers is the caller's own, and active. */
  lemma CurrentTenantIsOwn(db: Db, req: AuthMiddleware.Request)
    requires IsSuccess(GetCurrentTenant(db, req))
    ensures AuthMiddleware.Handle(req).Next?
    ensures TenantModel.GetTenantByUserId(db, Get(AuthMiddleware.Handle(req).value.1, "sub")).Some?
    ensures TenantModel.ActiveFor(Get(AuthMiddleware.Handle(req).value.1, "sub"),
                                  TenantModel.GetTenantByUserId(db, Get(AuthMiddleware.Handle(req).value.1, "sub")).value)
  {
    TenantModel.CurrentTenancyIsActive(db, Get(AuthMiddleware.Handle(req).value.1, "sub"));
  }
}
