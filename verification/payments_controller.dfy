/**
 PaymentsController: the payment listing (all payments for an admin, the
 caller's own tenancy's payments otherwise), one payment, recording a
 payment, and a payment's receipt. store calls RoleMiddleware::adminOnly
 without AuthMiddleware::handle before it, so on a routed request it
 answers 401. The receipt e-mail and the log line are left out; mt_rand and
 the date are parameters.
 */
module PaymentsController {
  import opened Text
  import opened Php
  import opened Wrappers
  import opened Http
  import opened Store
  import opened Rows
  import opened BaseModel
  import opened Joins
  import opened Validate
  import opened Dates
  import opened Constants
  import AuthMiddleware
  import RoleMiddleware
  import TenantModel
  import PaymentModel

  /** The fields store requires, in the order it checks them. */
  const REQUIRED_FIELDS: seq<string> := ["tenant_id", "property_id", "amount", "payment_type", "payment_method",
                                         "transaction_reference", "payment_date"]

  /** The twelve columns of the payment store records. */
  const PAYMENT_COLUMNS: seq<string> := ["tenant_id", "property_id", "amount", "payment_type", "payment_method",
                                         "transaction_reference", "payment_date", "due_date", "status",
                                         "receipt_number", "created_by", "notes"]

  /** The seven fields of a receipt, in generateReceipt's order. */
  const RECEIPT_FIELDS: seq<string> := ["receipt_number", "payment_date", "tenant_name", "property_name", "amount",
                                        "payment_method", "transaction_reference"]

  function TenancyMissing(): Outcome { Error("Tenant record not found", "NOT_FOUND", Arr(map[]), 404) }

  function PaymentNotFound(): Outcome { Error("Payment not found", "NOT_FOUND", Arr(map[]), 404) }

  function AccessDenied(): Outcome { Error("Access denied", "FORBIDDEN", Arr(map[]), 403) }

  function NotAssigned(): Outcome { Error("Tenant is not assigned to this property") }

  /** The `data` of index: a page of payments and the pagination block. */
  function Listing(payments: seq<Row>, total: nat, p: Paging): Row
    requires p.limit >= 1
  {
    map["payments" := RowsVal(payments), "pagination" := PaginationVal(p, total)]
  }

  /**
   The payments index shows and the total it reports: for an admin (role
   exactly `admin`) the filtered payments of everyone; for anyone else the
   payments of their active tenancy, and nothing when they have none.
   */
  function Visible(db: Db, claims: Row, query: Row): (r: Option<(seq<Row>, nat)>)
    ensures Get(claims, "role") == Str(ROLE_ADMIN) ==>
              r == Some((PaymentModel.GetAllPayments(db, Paginate(query).limit, Paginate(query).offset, query),
                         PaymentModel.CountAllPayments(db, query)))
    ensures Get(claims, "role") != Str(ROLE_ADMIN) ==>
              (r.None? <==> TenantModel.GetTenantByUserId(db, Get(claims, "sub")).None?)
  {
    var p := Paginate(query);
    if Get(claims, "role") == Str(ROLE_ADMIN) then
      Some((PaymentModel.GetAllPayments(db, p.limit, p.offset, query), PaymentModel.CountAllPayments(db, query)))
    else match TenantModel.GetTenantByUserId(db, Get(claims, "sub"))
      case None => None
      case Some(tenancy) =>
        var id := Get(tenancy, "id");
        Some((PaymentModel.GetPaymentsByTenant(db, id, p.limit, p.offset), PaymentModel.CountPaymentsByTenant(db, id)))
  }

  /** index once authenticated: 404 without visible payments, the listing otherwise. */
  function ListingAnswer(visible: Option<(seq<Row>, nat)>, p: Paging): (o: Outcome)
    requires p.limit >= 1
    ensures visible.None? ==> o == TenancyMissing()
    ensures visible.Some? ==> IsSuccess(o) && Carries(o, "payments", RowsVal(visible.value.0))
    ensures visible.Some? ==> Carries(o, "pagination", PaginationVal(p, visible.value.1))
  {
    match visible
    case None => TenancyMissing()
    case Some((payments, total)) => Ok(Listing(payments, total, p))
  }

  /**
   PaymentsController::index: authenticate, then the visible payments with
   their pagination, or 404 for a non-admin without an active tenancy.
   */
  function Index(db: Db, req: AuthMiddleware.Request, query: Row): (o: Outcome)
    ensures AuthMiddleware.Handle(req).Halt? ==> o == AuthMiddleware.Handle(req).out
    ensures AuthMiddleware.Handle(req).Next? ==>
              o == ListingAnswer(Visible(db, AuthMiddleware.Handle(req).value.1, query), Paginate(query))
  {
    var auth := AuthMiddleware.Handle(req);
    if auth.Halt? then auth.out else ListingAnswer(Visible(db, auth.value.1, query), Paginate(query))
  }

  /**
   A caller who is not an admin sees only payments of their own active
   tenancy, and at most a page of them.
   */
  lemma {:induction false} TenantSeesOwnPayments(db: Db, claims: Row, query: Row, x: Row)
    requires Get(claims, "role") != Str(ROLE_ADMIN)
    requires Visible(db, claims, query).Some? && x in Visible(db, claims, query).value.0
    ensures TenantModel.GetTenantByUserId(db, Get(claims, "sub")).Some?
    ensures TenantModel.ActiveFor(Get(claims, "sub"), TenantModel.GetTenantByUserId(db, Get(claims, "sub")).value)
    ensures exists row :: row in db.payments.rows
                          && PaymentModel.OfTenancy(Get(TenantModel.GetTenantByUserId(db, Get(claims, "sub")).value, "id"), row)
                          && JoinAll(row, PaymentModel.TenantListJoins(db)) == Some(x)
  {
    var tenancy := TenantModel.GetTenantByUserId(db, Get(claims, "sub")).value;
    TenantModel.CurrentTenancyIsActive(db, Get(claims, "sub"));
    var p := Paginate(query);
    PaymentModel.TenancyListingIsOwn(db, Get(tenancy, "id"), p.limit, p.offset, x);
  }

  /** An admin's page holds at most `limit` payments, never more than the total reported. */
  lemma {:induction false} AdminPageWithinTotal(db: Db, claims: Row, query: Row)
    requires Get(claims, "role") == Str(ROLE_ADMIN)
    ensures |Visible(db, claims, query).value.0| <= Paginate(query).limit
    ensures |Visible(db, claims, query).value.0| <= Visible(db, claims, query).value.1
  {
    PaymentModel.ListingWithinCount(db, query, Paginate(query).limit, Paginate(query).offset);
  }

  /** show and generateReceipt once authenticated: 404 without the payment, 403 when the caller may not see it. */
  function Viewable(db: Db, claims: Row, payment: Option<Row>): (s: Step<Row>)
    ensures payment.None? ==> s == Halt(PaymentNotFound())
    ensures payment.Some? && !TenantModel.MayView(db, claims, payment.value) ==> s == Halt(AccessDenied())
    ensures s.Next? <==> payment.Some? && TenantModel.MayView(db, claims, payment.value)
    ensures s.Next? ==> s.value == payment.value
  {
    match payment
    case None => Halt(PaymentNotFound())
    case Some(row) => if TenantModel.MayView(db, claims, row) then Next(row) else Halt(AccessDenied())
  }

  /** show once authenticated: the view check's answer, or the payment. */
  function ShowAnswer(viewed: Step<Row>): (o: Outcome)
    ensures viewed.Halt? ==> o == viewed.out
    ensures viewed.Next? ==> IsSuccess(o) && Carries(o, "payment", Arr(viewed.value))
  {
    if viewed.Halt? then viewed.out else Ok(map["payment" := Arr(viewed.value)])
  }

  /** PaymentsController::show: authenticate, then the payment if the caller may see it. */
  function Show(db: Db, req: AuthMiddleware.Request, id: Val): (o: Outcome)
    ensures AuthMiddleware.Handle(req).Halt? ==> o == AuthMiddleware.Handle(req).out
    ensures AuthMiddleware.Handle(req).Next? ==>
              o == ShowAnswer(Viewable(db, AuthMiddleware.Handle(req).value.1, Find(db.payments, id)))
  {
    var auth := AuthMiddleware.Handle(req);
    if auth.Halt? then auth.out
    else ShowAnswer(Viewable(db, auth.value.1, Find(db.payments, id)))
  }

  /** A tenant shown a payment is shown one of their own active tenancy. */
  lemma TenantShownOwnPayment(db: Db, req: AuthMiddleware.Request, id: Val)
    requires IsSuccess(Show(db, req, id))
    requires AuthMiddleware.Handle(req).Next? && Get(AuthMiddleware.Handle(req).value.1, "role") == Str(ROLE_TENANT)
    ensures Find(db.payments, id).Some?
    ensures var sub := Get(AuthMiddleware.Handle(req).value.1, "sub");
            && TenantModel.GetTenantByUserId(db, sub).Some?
            && LooseEq(Get(Find(db.payments, id).value, "tenant_id"), Get(TenantModel.GetTenantByUserId(db, sub).value, "id"))
  {
  }

  /** `'RCP' . date('Ymd') . str_pad(mt_rand(1, 9999), 4, '0', STR_PAD_LEFT)`. */
  function ReceiptNumber(today: Date, draw: nat): (s: string)
    requires InRange(today) && 1 <= draw <= 9999
    ensures |s| == 15
    ensures s[..3] == "RCP" && s[3..11] == Compact(today)
    ensures AllDigits(s[3..]) && DigitsValue(s[11..]) == draw
  {
    var digits := PadDecimal(draw, 4);
    assert |NatToDecimal(draw)| <= 4 by {
      assert Pow10(4) == 10000;
      DecimalShort(draw, 4);
    }
    var s := "RCP" + Compact(today) + digits;
    assert s[3..] == Compact(today) + digits;
    assert s[11..] == digits;
    s
  }

  /** One column of the recorded payment. */
  function PaymentField(k: string, input: Row, receipt: string, createdBy: Val, cents: Val -> int): (v: Val)
    ensures k == "amount" ==> v == Int(cents(Get(input, "amount")))
    ensures k == "due_date" ==> v == Coalesce(input, "due_date", Get(input, "payment_date"))
    ensures k == "status" ==> v == Str(PAYMENT_PAID)
    ensures k == "receipt_number" ==> v == Str(receipt)
    ensures k == "created_by" ==> v == createdBy
    ensures k == "notes" ==> v == Coalesce(input, "notes", Null)
    ensures k in REQUIRED_FIELDS && k != "amount" ==> v == Get(input, k)
  {
    if k == "amount" then Int(cents(Get(input, "amount")))
    else if k == "due_date" then Coalesce(input, "due_date", Get(input, "payment_date"))
    else if k == "status" then Str(PAYMENT_PAID)
    else if k == "receipt_number" then Str(receipt)
    else if k == "created_by" then createdBy
    else if k == "notes" then Coalesce(input, "notes", Null)
    else Get(input, k)
  }

  /** The array store hands Payment::create. */
  function NewPayment(input: Row, receipt: string, createdBy: Val, cents: Val -> int): (row: Row)
    ensures row.Keys == set k | k in PAYMENT_COLUMNS
    ensures forall k :: k in row ==> row[k] == PaymentField(k, input, receipt, createdBy, cents)
  {
    map k | k in PAYMENT_COLUMNS :: PaymentField(k, input, receipt, createdBy, cents)
  }

  /** store's relationship check: the tenancy exists and is (loosely) on the property given. */
  function AssignedCheck(db: Db, input: Row): (s: Step<bool>)
    ensures s.Next? <==> Find(db.tenants, Get(input, "tenant_id")).Some?
                         && LooseEq(Get(Find(db.tenants, Get(input, "tenant_id")).value, "property_id"), Get(input, "property_id"))
    ensures s.Halt? ==> s.out == NotAssigned()
  {
    var tenancy := Find(db.tenants, Get(input, "tenant_id"));
    Check(tenancy.Some? && LooseEq(Get(tenancy.value, "property_id"), Get(input, "property_id")), NotAssigned())
  }

  /** The checks of store in their order; the first that fails answers. */
  function StoreChecks(db: Db, req: AuthMiddleware.Request, input: Row): (s: Step<bool>)
    ensures s.Next? ==> RoleMiddleware.AdminOnly(req).Next? && RequireFields(input, REQUIRED_FIELDS).Next?
                        && AssignedCheck(db, input).Next?
  {
    var role := RoleMiddleware.AdminOnly(req);
    if role.Halt? then role
    else
      var fields := RequireFields(input, REQUIRED_FIELDS);
      if fields.Halt? then fields else AssignedCheck(db, input)
  }

  /** The end of a successful store: the payment inserted, its id and receipt number answered. */
  function Recorded(db: Db, input: Row, receipt: string, createdBy: Val, cents: Val -> int): (r: Served)
    ensures r.db == db.(payments := Add(db.payments, NewPayment(input, receipt, createdBy, cents)).0)
    ensures IsSuccess(r.out) && Carries(r.out, "payment_id", Str(IntToString(db.payments.nextId)))
    ensures Carries(r.out, "receipt_number", Str(receipt))
  {
    var (t, id) := Add(db.payments, NewPayment(input, receipt, createdBy, cents));
    Served(db.(payments := t),
           Ok(map["payment_id" := Str(IntToString(id)), "receipt_number" := Str(receipt)], Some("Payment recorded successfully")))
  }

  /**
   PaymentsController::store: adminOnly, the seven required fields, the
   tenancy on the property given; then the payment is recorded as paid,
   due on the given due date or else the payment date, with a fresh receipt
   number and the admitted user as its recorder.
   */
  function StorePayment(db: Db, req: AuthMiddleware.Request, body: Body, today: Date, draw: nat, cents: Val -> int): (r: Served)
    requires InRange(today) && 1 <= draw <= 9999
    ensures StoreChecks(db, req, Input(body)).Halt? ==> r == Served(db, StoreChecks(db, req, Input(body)).out)
    ensures StoreChecks(db, req, Input(body)).Next? ==>
              r == Recorded(db, Input(body), ReceiptNumber(today, draw), Get(RoleMiddleware.Caller(req), "sub"), cents)
  {
    var input := Input(body);
    var checks := StoreChecks(db, req, input);
    if checks.Halt? then Served(db, checks.out)
    else Recorded(db, input, ReceiptNumber(today, draw), Get(RoleMiddleware.Caller(req), "sub"), cents)
  }

  /** As routed, store runs adminOnly on an unauthenticated request: 401, nothing written. */
  lemma StoreNeedsPriorAuthentication(db: Db, env: AuthMiddleware.Env, body: Body, today: Date, draw: nat, cents: Val -> int)
    requires InRange(today) && 1 <= draw <= 9999
    ensures StorePayment(db, AuthMiddleware.Begin(env), body, today, draw, cents)
            == Served(db, Error("Authentication required", "UNAUTHORIZED", Arr(map[]), 401))
  {
    RoleMiddleware.FreshRequestUnauthenticated(env, [ROLE_ADMIN]);
  }

  /** The row store inserts is paid, carries the receipt number, and is due on the due date given or else on the payment date. */
  lemma NewPaymentShape(input: Row, receipt: string, createdBy: Val, cents: Val -> int)
    ensures var row := NewPayment(input, receipt, createdBy, cents);
            && "status" in row && row["status"] == Str(PAYMENT_PAID)
            && "receipt_number" in row && row["receipt_number"] == Str(receipt)
            && "due_date" in row && row["due_date"] == Coalesce(input, "due_date", Get(input, "payment_date"))
            && "tenant_id" in row && row["tenant_id"] == Get(input, "tenant_id")
            && "created_by" in row && row["created_by"] == createdBy
  {
    var cols := PAYMENT_COLUMNS;
    assert cols[0] == "tenant_id" && cols[7] == "due_date" && cols[8] == "status" && cols[9] == "receipt_number"
           && cols[10] == "created_by";
  }

  /** A recorded payment is found under the new id, paid, with its receipt number, and so never overdue. */
  lemma {:induction false} RecordedPayment(t: Table, input: Row, receipt: string, createdBy: Val, cents: Val -> int, today: string)
    requires Keyed(t)
    ensures var found := Find(Add(t, NewPayment(input, receipt, createdBy, cents)).0, Int(t.nextId));
            && found.Some?
            && Get(found.value, "status") == Str(PAYMENT_PAID)
            && Get(found.value, "receipt_number") == Str(receipt)
            && Get(found.value, "due_date") == Coalesce(input, "due_date", Get(input, "payment_date"))
            && !PaymentModel.Overdue(today, found.value)
  {
    var row := NewPayment(input, receipt, createdBy, cents);
    AddThenFind(t, row);
    NewPaymentShape(input, receipt, createdBy, cents);
    PaymentModel.PaidNeverOverdue(today, row[PRIMARY_KEY := Int(t.nextId)]);
  }

  /** A successful store was made by an admin with every field, for a tenancy on the property given. */
  lemma StoreSucceeded(db: Db, req: AuthMiddleware.Request, body: Body, today: Date, draw: nat, cents: Val -> int)
    requires InRange(today) && 1 <= draw <= 9999
    requires IsSuccess(StorePayment(db, req, body, today, draw, cents).out)
    ensures RoleMiddleware.AdminOnly(req).Next?
    ensures forall i :: 0 <= i < |REQUIRED_FIELDS| ==> !Empty(Get(Input(body), REQUIRED_FIELDS[i]))
    ensures Find(db.tenants, Get(Input(body), "tenant_id")).Some?
    ensures LooseEq(Get(Find(db.tenants, Get(Input(body), "tenant_id")).value, "property_id"), Get(Input(body), "property_id"))
  {
  }

  /** A receipt: the seven fields of the payment's details, each null when the details lack it. */
  function Receipt(details: Row): (r: Row)
    ensures r.Keys == set k | k in RECEIPT_FIELDS
    ensures forall k :: k in r ==> r[k] == Get(details, k)
  {
    Project(details, RECEIPT_FIELDS)
  }

  /** generateReceipt once authenticated: the view check's answer, or the receipt. */
  function ReceiptAnswer(viewed: Step<Row>): (o: Outcome)
    ensures viewed.Halt? ==> o == viewed.out
    ensures viewed.Next? ==> IsSuccess(o) && Carries(o, "receipt", Arr(Receipt(viewed.value)))
  {
    if viewed.Halt? then viewed.out else Ok(map["receipt" := Arr(Receipt(viewed.value))])
  }

  /** PaymentsController::generateReceipt: authenticate, the details or 404, the view check, then the receipt. */
  function GenerateReceipt(db: Db, req: AuthMiddleware.Request, id: Val): (o: Outcome)
    ensures AuthMiddleware.Handle(req).Halt? ==> o == AuthMiddleware.Handle(req).out
    ensures AuthMiddleware.Handle(req).Next? ==>
              o == ReceiptAnswer(Viewable(db, AuthMiddleware.Handle(req).value.1, PaymentModel.GetPaymentWithDetails(db, id)))
  {
    var auth := AuthMiddleware.Handle(req);
    if auth.Halt? then auth.out
    else ReceiptAnswer(Viewable(db, auth.value.1, PaymentModel.GetPaymentWithDetails(db, id)))
  }

  /** The receipt fields the payment row itself supplies. */
  const OWN_RECEIPT_FIELDS: seq<string> := ["receipt_number", "payment_date", "amount", "payment_method", "transaction_reference"]

  /** The details joins leave the payment's own receipt fields alone. */
  lemma ReceiptFieldKept(db: Db, k: string)
    requires k in OWN_RECEIPT_FIELDS
    ensures NoAlias(PaymentModel.DetailJoins(db), k)
  {
  }

  /** The receipt carries each of the payment's own receipt fields from the details. */
  lemma ReceiptHas(details: Row, k: string)
    requires k in OWN_RECEIPT_FIELDS
    ensures k in Receipt(details) && Receipt(details)[k] == Get(details, k)
  {
    var f := RECEIPT_FIELDS;
    assert f[0] == "receipt_number" && f[1] == "payment_date" && f[4] == "amount" && f[5] == "payment_method"
           && f[6] == "transaction_reference";
  }

  /**
   The receipt of a payment find() returns, whose tenancy, user and
   property exist, repeats the payment's number, date, amount, method and
   reference.
   */
  lemma {:induction false} ReceiptOfPayment(db: Db, id: Val, k: string)
    requires Find(db.payments, id).Some?
    requires JoinAll(Find(db.payments, id).value, PaymentModel.DetailJoins(db)).Some?
    requires k in OWN_RECEIPT_FIELDS
    ensures PaymentModel.GetPaymentWithDetails(db, id).Some?
    ensures var r := Receipt(PaymentModel.GetPaymentWithDetails(db, id).value);
            k in r && r[k] == Get(Find(db.payments, id).value, k)
  {
    var payment := Find(db.payments, id).value;
    var js := PaymentModel.DetailJoins(db);
    PaymentModel.DetailsOfFound(db, id);
    ReceiptFieldKept(db, k);
    JoinKeeps(payment, js, k);
    ReceiptHas(JoinAll(payment, js).value, k);
  }
}
