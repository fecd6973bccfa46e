/**
 MaintenanceController: the request listing (all requests for an admin, the
 caller's own tenancy's requests otherwise), one request, submitting a
 request with its photos, the admin's update of its progress, and deleting
 a request. update calls RoleMiddleware::adminOnly without
 AuthMiddleware::handle before it, so on a routed request it answers 401.
 The log lines are left out.
 */
module MaintenanceController {
  import opened Text
  import opened Php
  import opened Wrappers
  import opened Http
  import opened Store
  import opened Rows
  import opened BaseModel
  import opened Joins
  import opened Validate
  import opened Dates
  import opened Constants
  import opened Sql
  import AuthMiddleware
  import RoleMiddleware
  import FileUpload
  import TenantModel
  import PaymentModel
  import MaintenanceModel

  /** The fields store requires, in the order it checks them. */
  const REQUIRED_FIELDS: seq<string> := ["property_id", "title", "description", "priority", "category"]

  /** The fields update copies from the input, when set. */
  const UPDATE_FIELDS: seq<string> := ["status", "assigned_to", "estimated_cost", "actual_cost", "completion_date"]

  /** The nine columns of the request store records. */
  const REQUEST_COLUMNS: seq<string> := ["property_id", "tenant_id", "reported_by", "title", "description", "priority",
                                         "category", "status", "images"]

  /** The directory request photos are stored under. */
  const IMAGE_DIR: string := "maintenance"

  function TenancyMissing(): Outcome { Error("Tenant record not found", "NOT_FOUND", Arr(map[]), 404) }

  function RequestNotFound(): Outcome { Error("Maintenance request not found", "NOT_FOUND", Arr(map[]), 404) }

  function AccessDenied(): Outcome { Error("Access denied", "FORBIDDEN", Arr(map[]), 403) }

  function NotYourProperty(): Outcome {
    Error("You can only submit requests for your assigned property", "FORBIDDEN", Arr(map[]), 403)
  }

  function NotYourRequest(): Outcome {
    Error("You can only delete your own maintenance requests", "FORBIDDEN", Arr(map[]), 403)
  }

  /**
   The requests index shows and the total it reports: for an admin (role
   exactly `admin`) the filtered requests of everyone with the count as
   written; for anyone else the requests of their active tenancy, and
   nothing when they have none.
   */
  function Visible(db: Db, claims: Row, query: Row): (r: Option<(seq<Row>, nat)>)
    ensures Get(claims, "role") == Str(ROLE_ADMIN) ==>
              r == Some((MaintenanceModel.GetAllRequests(db, Paginate(query).limit, Paginate(query).offset, query),
                         MaintenanceModel.CountAllRequests(db, query)))
    ensures Get(claims, "role") != Str(ROLE_ADMIN) ==>
              (r.None? <==> TenantModel.GetTenantByUserId(db, Get(claims, "sub")).None?)
  {
    var p := Paginate(query);
    if Get(claims, "role") == Str(ROLE_ADMIN) then
      Some((MaintenanceModel.GetAllRequests(db, p.limit, p.offset, query), MaintenanceModel.CountAllRequests(db, query)))
    else match TenantModel.GetTenantByUserId(db, Get(claims, "sub"))
      case None => None
      case Some(tenancy) =>
        var id := Get(tenancy, "id");
        Some((MaintenanceModel.GetRequestsByTenant(db, id, p.limit, p.offset), MaintenanceModel.CountRequestsByTenant(db, id)))
  }

  /** index once authenticated: 404 without visible requests, the listing otherwise. */
  function ListingAnswer(visible: Option<(seq<Row>, nat)>, p: Paging): (o: Outcome)
    requires p.limit >= 1
    ensures visible.None? ==> o == TenancyMissing()
    ensures visible.Some? ==> IsSuccess(o) && Carries(o, "requests", RowsVal(visible.value.0))
    ensures visible.Some? ==> Carries(o, "pagination", PaginationVal(p, visible.value.1))
  {
    match visible
    case None => TenancyMissing()
    case Some((requests, total)) => Ok(map["requests" := RowsVal(requests), "pagination" := PaginationVal(p, total)])
  }

  /**
   MaintenanceController::index: authenticate, then the visible requests
   with their pagination, or 404 for a non-admin without an active tenancy.
   */
  function Index(db: Db, req: AuthMiddleware.Request, query: Row): (o: Outcome)
    ensures AuthMiddleware.Handle(req).Halt? ==> o == AuthMiddleware.Handle(req).out
    ensures AuthMiddleware.Handle(req).Next? ==>
              o == ListingAnswer(Visible(db, AuthMiddleware.Handle(req).value.1, query), Paginate(query))
  {
    var auth := AuthMiddleware.Handle(req);
    if auth.Halt? then auth.out else ListingAnswer(Visible(db, auth.value.1, query), Paginate(query))
  }

  /** A caller who is not an admin sees only requests of their own active tenancy. */
  lemma {:induction false} TenantSeesOwnRequests(db: Db, claims: Row, query: Row, x: Row)
    requires Get(claims, "role") != Str(ROLE_ADMIN)
    requires Visible(db, claims, query).Some? && x in Visible(db, claims, query).value.0
    ensures TenantModel.GetTenantByUserId(db, Get(claims, "sub")).Some?
    ensures TenantModel.ActiveFor(Get(claims, "sub"), TenantModel.GetTenantByUserId(db, Get(claims, "sub")).value)
    ensures exists row :: row in db.maintenance.rows
                          && PaymentModel.OfTenancy(Get(TenantModel.GetTenantByUserId(db, Get(claims, "sub")).value, "id"), row)
                          && JoinAll(row, MaintenanceModel.TenantListJoins(db)) == Some(x)
  {
    var tenancy := TenantModel.GetTenantByUserId(db, Get(claims, "sub")).value;
    TenantModel.CurrentTenancyIsActive(db, Get(claims, "sub"));
    var p := Paginate(query);
    MaintenanceModel.TenancyListingIsOwn(db, Get(tenancy, "id"), p.limit, p.offset, x);
  }

  /**
   An admin's page holds at most `limit` requests and never more than the
   total reported; that total can be larger than the number of requests
   the filters list, because it ignores the property filter.
   */
  lemma {:induction false} AdminPageWithinTotal(db: Db, claims: Row, query: Row)
    requires Get(claims, "role") == Str(ROLE_ADMIN)
    ensures |Visible(db, claims, query).value.0| <= Paginate(query).limit
    ensures |Visible(db, claims, query).value.0| <= MaintenanceModel.CountListedRequests(db, query)
                                                  <= Visible(db, claims, query).value.1
  {
    var p := Paginate(query);
    MaintenanceModel.ListingWithinCount(db, query, p.limit, p.offset);
    MaintenanceModel.CountAllRequestsAtLeastListed(db, query);
  }

  /**
   show once authenticated: 404 without the request, 403 for a tenant when
   it is not of their active tenancy, the request otherwise.
   */
  function ShowAnswer(db: Db, claims: Row, request: Option<Row>): (o: Outcome)
    ensures request.None? ==> o == RequestNotFound()
    ensures request.Some? && !TenantModel.MayView(db, claims, request.value) ==> o == AccessDenied()
    ensures request.Some? && TenantModel.MayView(db, claims, request.value) ==>
              IsSuccess(o) && Carries(o, "request", Arr(request.value))
  {
    match request
    case None => RequestNotFound()
    case Some(row) => if TenantModel.MayView(db, claims, row) then Ok(map["request" := Arr(row)]) else AccessDenied()
  }

  /** MaintenanceController::show: authenticate, then the request if the caller may see it. */
  function Show(db: Db, req: AuthMiddleware.Request, id: Val): (o: Outcome)
    ensures AuthMiddleware.Handle(req).Halt? ==> o == AuthMiddleware.Handle(req).out
    ensures AuthMiddleware.Handle(req).Next? ==>
              o == ShowAnswer(db, AuthMiddleware.Handle(req).value.1, Find(db.maintenance, id))
  {
    var auth := AuthMiddleware.Handle(req);
    if auth.Halt? then auth.out else ShowAnswer(db, auth.value.1, Find(db.maintenance, id))
  }

  /** A tenant shown a request is shown one of their own active tenancy. */
  lemma TenantShownOwnRequest(db: Db, req: AuthMiddleware.Request, id: Val)
    requires AuthMiddleware.Handle(req).Next? && Get(AuthMiddleware.Handle(req).value.1, "role") == Str(ROLE_TENANT)
    requires IsSuccess(Show(db, req, id))
    ensures Find(db.maintenance, id).Some?
    ensures var sub := Get(AuthMiddleware.Handle(req).value.1, "sub");
            && TenantModel.GetTenantByUserId(db, sub).Some?
            && LooseEq(Get(Find(db.maintenance, id).value, "tenant_id"), Get(TenantModel.GetTenantByUserId(db, sub).value, "id"))
  {
    ErrorIsError("Maintenance request not found", "NOT_FOUND", Arr(map[]), 404);
    ErrorIsError("Access denied", "FORBIDDEN", Arr(map[]), 403);
  }

  /**
   `$tenants[0]['id'] ?? null` over getActiveTenants: the id of the first
   active tenancy of the property, null when it has none.
   */
  function CurrentTenantForProperty(db: Db, propertyId: Val): (v: Val)
    ensures |TenantModel.GetActiveTenants(db, propertyId)| == 0 ==> v == Null
  {
    var tenants := TenantModel.GetActiveTenants(db, propertyId);
    if |tenants| == 0 then Null else Coalesce(tenants[0], PRIMARY_KEY, Null)
  }

  /** getActiveTenants' joins leave a tenancy's id alone. */
  lemma ActiveJoinsKeepId(db: Db)
    ensures NoAlias(TenantModel.ActiveJoins(db), PRIMARY_KEY)
  {
  }

  /** A tenancy the property lookup answers is an active tenancy of that property. */
  lemma {:induction false} CurrentTenantIsActive(db: Db, propertyId: Val)
    requires Truthy(propertyId) && CurrentTenantForProperty(db, propertyId) != Null
    ensures exists row :: row in db.tenants.rows && TenantModel.IsActive(row)
                          && Holds(Get(row, "property_id"), Eq, propertyId)
                          && Get(row, PRIMARY_KEY) == CurrentTenantForProperty(db, propertyId)
  {
    var x := TenantModel.GetActiveTenants(db, propertyId)[0];
    TenantModel.ActiveTenantsAreActive(db, propertyId, x);
    var row :| row in db.tenants.rows && TenantModel.ActiveOn(propertyId, row)
               && JoinAll(row, TenantModel.ActiveJoins(db)) == Some(x);
    ActiveJoinsKeepId(db);
    JoinKeeps(row, TenantModel.ActiveJoins(db), PRIMARY_KEY);
  }

  /**
   The tenancy a submitted request is filed under: a tenant's own active
   tenancy, which must be on the property given (403 otherwise); for anyone
   else the `tenant_id` given, or else the property's current tenancy.
   */
  function FiledUnder(db: Db, claims: Row, input: Row): (s: Step<Val>)
    ensures Get(claims, "role") == Str(ROLE_TENANT) ==>
              var tenancy := TenantModel.GetTenantByUserId(db, Get(claims, "sub"));
              && (s.Next? <==> tenancy.Some? && LooseEq(Get(tenancy.value, "property_id"), Get(input, "property_id")))
              && (s.Next? ==> s.value == Get(tenancy.value, PRIMARY_KEY))
              && (s.Halt? ==> s.out == NotYourProperty())
    ensures Get(claims, "role") != Str(ROLE_TENANT) ==>
              s == Next(Coalesce(input, "tenant_id", CurrentTenantForProperty(db, Get(input, "property_id"))))
  {
    if Get(claims, "role") == Str(ROLE_TENANT) then
      var tenancy := TenantModel.GetTenantByUserId(db, Get(claims, "sub"));
      if tenancy.None? || !LooseEq(Get(tenancy.value, "property_id"), Get(input, "property_id")) then Halt(NotYourProperty())
      else Next(Get(tenancy.value, PRIMARY_KEY))
    else Next(Coalesce(input, "tenant_id", CurrentTenantForProperty(db, Get(input, "property_id"))))
  }

  /** One column of the submitted request. */
  function RequestField(k: string, input: Row, tenantId: Val, reporter: Val, urls: seq<string>, json: JsonCodec): (v: Val)
    ensures k == "tenant_id" ==> v == tenantId
    ensures k == "reported_by" ==> v == reporter
    ensures k == "title" || k == "description" ==> v == Str(PhpTrim(ToStr(Get(input, k))))
    ensures k == "status" ==> v == Str(MaintenanceModel.REQUEST_PENDING)
    ensures k == "images" ==> v == Str(json.encode(List(StrList(urls))))
    ensures k in {"property_id", "priority", "category"} ==> v == Get(input, k)
  {
    if k == "tenant_id" then tenantId
    else if k == "reported_by" then reporter
    else if k == "title" || k == "description" then Str(PhpTrim(ToStr(Get(input, k))))
    else if k == "status" then Str(MaintenanceModel.REQUEST_PENDING)
    else if k == "images" then Str(json.encode(List(StrList(urls))))
    else Get(input, k)
  }

  /** The array store hands Maintenance::create. */
  function NewRequest(input: Row, tenantId: Val, reporter: Val, urls: seq<string>, json: JsonCodec): (row: Row)
    ensures row.Keys == set k | k in REQUEST_COLUMNS
    ensures forall k :: k in row ==> row[k] == RequestField(k, input, tenantId, reporter, urls, json)
  {
    map k | k in REQUEST_COLUMNS :: RequestField(k, input, tenantId, reporter, urls, json)
  }

  /** The end of a successful store: the request inserted and its id answered. */
  function Submitted(db: Db, row: Row): (r: Served)
    ensures r.db == db.(maintenance := Add(db.maintenance, row).0)
    ensures IsSuccess(r.out) && Carries(r.out, "request_id", Str(IntToString(db.maintenance.nextId)))
  {
    var (t, id) := Add(db.maintenance, row);
    Served(db.(maintenance := t), Ok(map["request_id" := Str(IntToString(id))], Some("Maintenance request submitted successfully")))
  }

  /**
   store once authenticated: the five required fields, the tenancy the
   request is filed under, the photos; then the request is recorded as
   pending, reported by the caller.
   */
  function StoreAnswer(db: Db, claims: Row, input: Row, uploads: seq<FileUpload.Upload>, json: JsonCodec): (r: Served)
    requires forall i :: 0 <= i < |uploads| ==> InRange(uploads[i].env.today)
    ensures RequireFields(input, REQUIRED_FIELDS).Halt? ==> r == Served(db, RequireFields(input, REQUIRED_FIELDS).out)
    ensures RequireFields(input, REQUIRED_FIELDS).Next? && FiledUnder(db, claims, input).Halt? ==>
              r == Served(db, FiledUnder(db, claims, input).out)
    ensures RequireFields(input, REQUIRED_FIELDS).Next? && FiledUnder(db, claims, input).Next?
            && FileUpload.UploadImages(uploads, IMAGE_DIR).Halt? ==>
              r == Served(db, FileUpload.UploadImages(uploads, IMAGE_DIR).out)
    ensures RequireFields(input, REQUIRED_FIELDS).Next? && FiledUnder(db, claims, input).Next?
            && FileUpload.UploadImages(uploads, IMAGE_DIR).Next? ==>
              r == Submitted(db, NewRequest(input, FiledUnder(db, claims, input).value, Get(claims, "sub"),
                                            FileUpload.UploadImages(uploads, IMAGE_DIR).value, json))
  {
    var fields := RequireFields(input, REQUIRED_FIELDS);
    if fields.Halt? then Served(db, fields.out)
    else
      var filed := FiledUnder(db, claims, input);
      if filed.Halt? then Served(db, filed.out)
      else
        var urls := FileUpload.UploadImages(uploads, IMAGE_DIR);
        if urls.Halt? then Served(db, urls.out)
        else Submitted(db, NewRequest(input, filed.value, Get(claims, "sub"), urls.value, json))
  }

  /** MaintenanceController::store: authenticate, then submit from the decoded body. */
  function StoreRequest(db: Db, req: AuthMiddleware.Request, body: Body, uploads: seq<FileUpload.Upload>, json: JsonCodec): (r: Served)
    requires forall i :: 0 <= i < |uploads| ==> InRange(uploads[i].env.today)
    ensures AuthMiddleware.Handle(req).Halt? ==> r == Served(db, AuthMiddleware.Handle(req).out)
    ensures AuthMiddleware.Handle(req).Next? ==> r == StoreAnswer(db, AuthMiddleware.Handle(req).value.1, Input(body), uploads, json)
  {
    var auth := AuthMiddleware.Handle(req);
    if auth.Halt? then Served(db, auth.out) else StoreAnswer(db, auth.value.1, Input(body), uploads, json)
  }

  /** The row store inserts is pending, reported by the caller, filed under the tenancy chosen, with trimmed text. */
  lemma NewRequestShape(input: Row, tenantId: Val, reporter: Val, urls: seq<string>, json: JsonCodec)
    ensures var row := NewRequest(input, tenantId, reporter, urls, json);
            && "status" in row && row["status"] == Str(MaintenanceModel.REQUEST_PENDING)
            && "reported_by" in row && row["reported_by"] == reporter
            && "tenant_id" in row && row["tenant_id"] == tenantId
            && "property_id" in row && row["property_id"] == Get(input, "property_id")
            && "title" in row && row["title"] == Str(PhpTrim(ToStr(Get(input, "title"))))
  {
    var cols := REQUEST_COLUMNS;
    assert cols[0] == "property_id" && cols[1] == "tenant_id" && cols[2] == "reported_by" && cols[3] == "title"
           && cols[7] == "status";
  }

  /** In a keyed table the submitted request is what find() returns for the new id. */
  lemma SubmittedThenFound(db: Db, row: Row)
    requires Keyed(db.maintenance)
    ensures Find(Submitted(db, row).db.maintenance, Int(db.maintenance.nextId)) == Some(row[PRIMARY_KEY := Int(db.maintenance.nextId)])
  {
    AddThenFind(db.maintenance, row);
  }

  /** Each check of store halts with an error, never a success. */
  lemma StoreChecksFail(db: Db, claims: Row, input: Row, uploads: seq<FileUpload.Upload>)
    requires forall i :: 0 <= i < |uploads| ==> InRange(uploads[i].env.today)
    ensures RequireFields(input, REQUIRED_FIELDS).Halt? ==> !IsSuccess(RequireFields(input, REQUIRED_FIELDS).out)
    ensures FiledUnder(db, claims, input).Halt? ==> !IsSuccess(FiledUnder(db, claims, input).out)
    ensures FileUpload.UploadImages(uploads, IMAGE_DIR).Halt? ==> !IsSuccess(FileUpload.UploadImages(uploads, IMAGE_DIR).out)
  {
    FieldsCheckFails(input);
    TenancyCheckFails(db, claims, input);
    UploadFails(uploads);
  }

  /** A missing required field is answered with an error. */
  lemma FieldsCheckFails(input: Row)
    ensures RequireFields(input, REQUIRED_FIELDS).Halt? ==> !IsSuccess(RequireFields(input, REQUIRED_FIELDS).out)
  {
  }

  /** A tenant without that tenancy is answered with an error. */
  lemma TenancyCheckFails(db: Db, claims: Row, input: Row)
    ensures FiledUnder(db, claims, input).Halt? ==> !IsSuccess(FiledUnder(db, claims, input).out)
  {
  }

  /** A photo that cannot be stored is answered with an error. */
  lemma UploadFails(uploads: seq<FileUpload.Upload>)
    requires forall i :: 0 <= i < |uploads| ==> InRange(uploads[i].env.today)
    ensures FileUpload.UploadImages(uploads, IMAGE_DIR).Halt? ==> !IsSuccess(FileUpload.UploadImages(uploads, IMAGE_DIR).out)
  {
  }

  /** A successful submission got through the required fields, the tenancy check and the photos. */
  lemma StoreAnswerSucceeded(db: Db, claims: Row, input: Row, uploads: seq<FileUpload.Upload>, json: JsonCodec)
    requires forall i :: 0 <= i < |uploads| ==> InRange(uploads[i].env.today)
    requires IsSuccess(StoreAnswer(db, claims, input, uploads, json).out)
    ensures forall i :: 0 <= i < |REQUIRED_FIELDS| ==> !Empty(Get(input, REQUIRED_FIELDS[i]))
    ensures FiledUnder(db, claims, input).Next? && FileUpload.UploadImages(uploads, IMAGE_DIR).Next?
  {
    StoreChecksFail(db, claims, input, uploads);
  }

  /**
   A tenant's successful submission is for the property of their active
   tenancy, and the request recorded is filed under that tenancy, reported
   by them and pending.
   */
  lemma {:induction false} TenantFilesOwnTenancy(db: Db, claims: Row, input: Row, uploads: seq<FileUpload.Upload>, json: JsonCodec)
    requires forall i :: 0 <= i < |uploads| ==> InRange(uploads[i].env.today)
    requires Get(claims, "role") == Str(ROLE_TENANT) && Keyed(db.maintenance)
    requires IsSuccess(StoreAnswer(db, claims, input, uploads, json).out)
    ensures var tenancy := TenantModel.GetTenantByUserId(db, Get(claims, "sub"));
            && tenancy.Some?
            && LooseEq(Get(tenancy.value, "property_id"), Get(input, "property_id"))
            && var found := Find(StoreAnswer(db, claims, input, uploads, json).db.maintenance, Int(db.maintenance.nextId));
            && found.Some?
            && Get(found.value, "tenant_id") == Get(tenancy.value, PRIMARY_KEY)
            && Get(found.value, "reported_by") == Get(claims, "sub")
            && Get(found.value, "status") == Str(MaintenanceModel.REQUEST_PENDING)
  {
    StoreAnswerSucceeded(db, claims, input, uploads, json);
    var filed := FiledUnder(db, claims, input).value;
    var urls := FileUpload.UploadImages(uploads, IMAGE_DIR).value;
    assert StoreAnswer(db, claims, input, uploads, json) == Submitted(db, NewRequest(input, filed, Get(claims, "sub"), urls, json));
    FoundRequest(db, input, filed, Get(claims, "sub"), urls, json);
  }

  /** The request submitted is found under the new id, filed, reported and pending as it was built. */
  lemma FoundRequest(db: Db, input: Row, tenantId: Val, reporter: Val, urls: seq<string>, json: JsonCodec)
    requires Keyed(db.maintenance)
    ensures var found := Find(Submitted(db, NewRequest(input, tenantId, reporter, urls, json)).db.maintenance, Int(db.maintenance.nextId));
            && found.Some?
            && Get(found.value, "tenant_id") == tenantId
            && Get(found.value, "reported_by") == reporter
            && Get(found.value, "status") == Str(MaintenanceModel.REQUEST_PENDING)
  {
    var row := NewRequest(input, tenantId, reporter, urls, json);
    SubmittedThenFound(db, row);
    NewRequestShape(input, tenantId, reporter, urls, json);
    var stored := row[PRIMARY_KEY := Int(db.maintenance.nextId)];
    assert stored["tenant_id"] == row["tenant_id"] && stored["reported_by"] == row["reported_by"] && stored["status"] == row["status"];
  }

  /** The progress fields of update's input, as the row of changes they make. */
  function Changes(input: Row): (c: Row)
    ensures c == ToRow(SetFields(input, UPDATE_FIELDS))
  {
    ToRow(SetFields(input, UPDATE_FIELDS))
  }

  /**
   update once admitted and the request found: the progress fields the
   input sets are written, and nothing when it sets none; the answer is
   success either way.
   */
  function Progress(t: Table, id: Val, input: Row): (r: (Table, Outcome))
    ensures IsSuccess(r.1)
    ensures |SetFields(input, UPDATE_FIELDS)| == 0 ==> r.0 == t
    ensures |SetFields(input, UPDATE_FIELDS)| > 0 ==> r.0 == UpdateById(t, id, Changes(input)).0
  {
    var data := SetFields(input, UPDATE_FIELDS);
    var out := Ok(map[], Some("Maintenance request updated successfully"));
    if |data| == 0 then (t, out) else (UpdateRow(t, id, data).value.0, out)
  }

  /**
   MaintenanceController::update: adminOnly, the request or 404, then the
   whitelisted progress fields of the decoded body.
   */
  function Update(db: Db, req: AuthMiddleware.Request, id: Val, body: Body): (r: Served)
    ensures RoleMiddleware.AdminOnly(req).Halt? ==> r == Served(db, RoleMiddleware.AdminOnly(req).out)
    ensures RoleMiddleware.AdminOnly(req).Next? && Find(db.maintenance, id).None? ==> r == Served(db, RequestNotFound())
    ensures RoleMiddleware.AdminOnly(req).Next? && Find(db.maintenance, id).Some? ==>
              var (t, out) := Progress(db.maintenance, id, Input(body));
              r == Served(db.(maintenance := t), out)
  {
    var role := RoleMiddleware.AdminOnly(req);
    if role.Halt? then Served(db, role.out)
    else if Find(db.maintenance, id).None? then Served(db, RequestNotFound())
    else
      var (t, out) := Progress(db.maintenance, id, Input(body));
      Served(db.(maintenance := t), out)
  }

  /** As routed, update runs adminOnly on an unauthenticated request: 401, nothing written. */
  lemma UpdateNeedsPriorAuthentication(db: Db, env: AuthMiddleware.Env, id: Val, body: Body)
    ensures Update(db, AuthMiddleware.Begin(env), id, body)
            == Served(db, Error("Authentication required", "UNAUTHORIZED", Arr(map[]), 401))
  {
    RoleMiddleware.FreshRequestUnauthenticated(env, [ROLE_ADMIN]);
  }

  /** The changes are exactly the progress fields the input sets, with the input's values. */
  lemma ChangesAreProgressFields(input: Row)
    ensures Changes(input) == map k | k in UPDATE_FIELDS && IsSet(input, k) :: input[k]
    ensures |SetFields(input, UPDATE_FIELDS)| == 0 <==> forall k :: k in UPDATE_FIELDS ==> !IsSet(input, k)
  {
    var f := UPDATE_FIELDS;
    assert forall i, j :: 0 <= i < j < |f| ==> f[i] != f[j];
    SetFieldsRow(input, f);
  }

  /**
   Progressing a request changes only that request, and in it only the
   progress fields the input sets: its property, tenancy, reporter and
   description stay as they were.
   */
  lemma ProgressKeepsTheRest(t: Table, id: Val, input: Row, i: nat, k: string)
    requires i < |t.rows| && k in t.rows[i] && k !in UPDATE_FIELDS
    ensures |Progress(t, id, input).0.rows| == |t.rows|
    ensures k in Progress(t, id, input).0.rows[i] && Progress(t, id, input).0.rows[i][k] == t.rows[i][k]
    ensures !HasKey(id)(t.rows[i]) ==> Progress(t, id, input).0.rows[i] == t.rows[i]
  {
    ChangesAreProgressFields(input);
  }

  /** The request progressed carries each progress field the input sets. */
  lemma ProgressWrites(t: Table, id: Val, input: Row, i: nat, k: string)
    requires i < |t.rows| && HasKey(id)(t.rows[i]) && k in UPDATE_FIELDS && IsSet(input, k)
    ensures |Progress(t, id, input).0.rows| == |t.rows|
    ensures k in Progress(t, id, input).0.rows[i] && Progress(t, id, input).0.rows[i][k] == input[k]
  {
    ChangesAreProgressFields(input);
  }

  /**
   destroy once authenticated: 404 without the request, 403 for a tenant
   who did not report it (loose `!=`), otherwise the request is deleted.
   */
  function Removal(db: Db, claims: Row, id: Val): (r: Served)
    ensures Find(db.maintenance, id).None? ==> r == Served(db, RequestNotFound())
    ensures Find(db.maintenance, id).Some? && Get(claims, "role") == Str(ROLE_TENANT)
            && !LooseEq(Get(Find(db.maintenance, id).value, "reported_by"), Get(claims, "sub")) ==>
              r == Served(db, NotYourRequest())
    ensures Find(db.maintenance, id).Some?
            && (Get(claims, "role") == Str(ROLE_TENANT) ==> LooseEq(Get(Find(db.maintenance, id).value, "reported_by"), Get(claims, "sub"))) ==>
              IsSuccess(r.out) && r.db == db.(maintenance := Delete(db.maintenance, id).0)
  {
    match Find(db.maintenance, id)
    case None => Served(db, RequestNotFound())
    case Some(request) =>
      if Get(claims, "role") == Str(ROLE_TENANT) && !LooseEq(Get(request, "reported_by"), Get(claims, "sub")) then
        Served(db, NotYourRequest())
      else Served(db.(maintenance := Delete(db.maintenance, id).0), Ok(map[], Some("Maintenance request deleted successfully")))
  }

  /** MaintenanceController::destroy: authenticate, then the removal. */
  function Destroy(db: Db, req: AuthMiddleware.Request, id: Val): (r: Served)
    ensures AuthMiddleware.Handle(req).Halt? ==> r == Served(db, AuthMiddleware.Handle(req).out)
    ensures AuthMiddleware.Handle(req).Next? ==> r == Removal(db, AuthMiddleware.Handle(req).value.1, id)
  {
    var auth := AuthMiddleware.Handle(req);
    if auth.Halt? then Served(db, auth.out) else Removal(db, auth.value.1, id)
  }

  /**
   A tenant deletes only a request they reported; what goes is exactly the
   request with that id, every other request stays in order.
   */
  lemma TenantRemovesOnlyOwn(db: Db, claims: Row, id: Val)
    requires Get(claims, "role") == Str(ROLE_TENANT)
    requires IsSuccess(Removal(db, claims, id).out)
    ensures Find(db.maintenance, id).Some?
    ensures LooseEq(Get(Find(db.maintenance, id).value, "reported_by"), Get(claims, "sub"))
    ensures Removal(db, claims, id).db.maintenance.rows == Filter(db.maintenance.rows, Not(HasKey(id)))
    ensures Find(Removal(db, claims, id).db.maintenance, id).None?
  {
    ErrorIsError("Maintenance request not found", "NOT_FOUND", Arr(map[]), 404);
    ErrorIsError("You can only delete your own maintenance requests", "FORBIDDEN", Arr(map[]), 403);
  }

  /** Anyone whose role is not exactly `tenant` deletes any request that exists, and only the other tables stay. */
  lemma OthersRemoveAny(db: Db, claims: Row, id: Val)
    requires Get(claims, "role") != Str(ROLE_TENANT) && Find(db.maintenance, id).Some?
    ensures IsSuccess(Removal(db, claims, id).out)
    ensures Find(Removal(db, claims, id).db.maintenance, id).None?
    ensures Removal(db, claims, id).db.tenants == db.tenants && Removal(db, claims, id).db.payments == db.payments
  {
  }
}
