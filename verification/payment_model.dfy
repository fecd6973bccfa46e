/**
 Payment: the rent, deposit and other payments of the `payments` table. The
 listings join each payment with its tenancy, the tenancy's user and the
 property; the admin listing filters by status and a payment-date range, a
 tenant's listing by tenancy, and the overdue query picks the pending
 payments due before today. CURDATE() is the parameter `today`.
 */
module PaymentModel {
  import opened Text
  import opened Php
  import opened Wrappers
  import opened Rows
  import opened Sql
  import opened BaseModel
  import opened Joins
  import opened Dates
  import opened Store
  import opened Constants

  const PAYMENT_PENDING: string := "pending"

  /** `JOIN tenants t ON p.tenant_id = t.id`, selecting `t.user_id`. */
  function TenantJoin(tenants: Table): Join {
    Join(tenants, "tenant_id", [("user_id", "user_id")], true)
  }

  /** `JOIN users u ON t.user_id = u.id`, with the user columns a query selects. */
  function UserJoin(users: Table, columns: seq<(string, string)>): Join {
    Join(users, "user_id", columns, true)
  }

  /** `JOIN properties prop ON p.property_id = prop.id`, with the property columns a query selects. */
  function PropertyJoin(properties: Table, columns: seq<(string, string)>): Join {
    Join(properties, "property_id", columns, true)
  }

  /** The joins of getAllPayments: the tenancy's user, the user's name as `tenant_name`, the property's name. */
  function ListJoins(db: Db): seq<Join> {
    [TenantJoin(db.tenants), UserJoin(db.users, [("tenant_name", "full_name")]),
     PropertyJoin(db.properties, [("property_name", "name")])]
  }

  /** The join of getPaymentsByTenant: the property's name. */
  function TenantListJoins(db: Db): seq<Join> {
    [PropertyJoin(db.properties, [("property_name", "name")])]
  }

  /** The joins of getPaymentWithDetails: also the tenant's email and the property's location. */
  function DetailJoins(db: Db): seq<Join> {
    [TenantJoin(db.tenants), UserJoin(db.users, [("tenant_name", "full_name"), ("tenant_email", "email")]),
     PropertyJoin(db.properties, [("property_name", "name"), ("location", "location")])]
  }

  /** The joins of getOverduePayments: the tenant's name and email, the property's name. */
  function OverdueJoins(db: Db): seq<Join> {
    [TenantJoin(db.tenants), UserJoin(db.users, [("tenant_name", "full_name"), ("email", "email")]),
     PropertyJoin(db.properties, [("property_name", "name")])]
  }

  /** The joins add none of the payment columns the queries test. */
  lemma ListJoinsKeep(db: Db)
    ensures NoAlias(ListJoins(db), "status") && NoAlias(ListJoins(db), "payment_date")
  {
  }

  lemma TenantListJoinsKeep(db: Db)
    ensures NoAlias(TenantListJoins(db), "tenant_id")
  {
  }

  lemma DetailJoinsKeep(db: Db)
    ensures NoAlias(DetailJoins(db), PRIMARY_KEY) && NoAlias(DetailJoins(db), "tenant_id")
  {
  }

  lemma OverdueJoinsKeep(db: Db)
    ensures NoAlias(OverdueJoins(db), "status") && NoAlias(OverdueJoins(db), "due_date")
  {
  }

  /**
   What the admin filters mean for one payment: the status is matched
   exactly and the payment date lies between the two dates inclusive; a
   filter that is not set (PHP-empty) constrains nothing.
   */
  predicate Listed(filters: Row, row: Row) {
    && (Truthy(Get(filters, "status")) ==> Holds(Get(row, "status"), Eq, Get(filters, "status")))
    && (Truthy(Get(filters, "start_date")) ==> Holds(Get(row, "payment_date"), Ge, Get(filters, "start_date")))
    && (Truthy(Get(filters, "end_date")) ==> Holds(Get(row, "payment_date"), Le, Get(filters, "end_date")))
  }

  function ListedBy(filters: Row): Row -> bool {
    row => Listed(filters, row)
  }

  /** The three `if (!empty($filters[...]))` blocks shared by getAllPayments and countAllPayments. */
  function FilterWhere(filters: Row): (r: (seq<Cond>, seq<Val>))
    ensures Holes(r.0) == |r.1| <= 3
  {
    var (w1, a1) := Optional(Truthy(Get(filters, "status")), Bound("status", Eq), Get(filters, "status"));
    var (w2, a2) := Optional(Truthy(Get(filters, "start_date")), Bound("payment_date", Ge), Get(filters, "start_date"));
    var (w3, a3) := Optional(Truthy(Get(filters, "end_date")), Bound("payment_date", Le), Get(filters, "end_date"));
    HolesAppend(w1, w2);
    HolesAppend(w1 + w2, w3);
    (w1 + w2 + w3, a1 + a2 + a3)
  }

  /** The WHERE clause the filters build holds of a payment exactly when it is listed. */
  lemma FilterWhereMeaning(filters: Row, row: Row)
    ensures Satisfies(row, FilterWhere(filters).0, FilterWhere(filters).1) <==> Listed(filters, row)
  {
    var (w1, a1) := Optional(Truthy(Get(filters, "status")), Bound("status", Eq), Get(filters, "status"));
    var (w2, a2) := Optional(Truthy(Get(filters, "start_date")), Bound("payment_date", Ge), Get(filters, "start_date"));
    var (w3, a3) := Optional(Truthy(Get(filters, "end_date")), Bound("payment_date", Le), Get(filters, "end_date"));
    SatisfiesAppend(row, w1, w2, a1, a2);
    SatisfiesAppend(row, w1 + w2, w3, a1 + a2, a3);
  }

  /** getAllPayments' statement: the filters, `ORDER BY p.payment_date DESC`, then `LIMIT ? OFFSET ?`. */
  function ListQuery(filters: Row, limit: int, offset: int): (q: Select)
    ensures WellFormed(q) && q.limit && q.offset
    ensures LimitOf(q) == limit && OffsetOf(q) == offset
    ensures q.where == FilterWhere(filters).0 && q.params[..Holes(q.where)] == FilterWhere(filters).1
  {
    var (w, a) := FilterWhere(filters);
    PagedSelect(w, [Sort("payment_date", "DESC")], a, limit, offset)
  }

  /** countAllPayments' statement: the same filters on the payments alone, no join and no LIMIT. */
  function CountQuery(filters: Row): (q: Select)
    ensures WellFormed(q) && !q.limit
    ensures q.where == FilterWhere(filters).0 && q.params[..Holes(q.where)] == FilterWhere(filters).1
  {
    var (w, a) := FilterWhere(filters);
    Select(w, [], false, false, a)
  }

  /** A statement with the filters' WHERE clause keeps the listed rows. */
  lemma HitsAreListed(q: Select, filters: Row, rows: seq<Row>)
    requires WellFormed(q) && q.where == FilterWhere(filters).0 && q.params[..Holes(q.where)] == FilterWhere(filters).1
    ensures Hits(q, rows) == Filter(rows, ListedBy(filters))
  {
    forall i | 0 <= i < |rows|
      ensures Matching(q.where, q.params[..Holes(q.where)])(rows[i]) == ListedBy(filters)(rows[i]) {
      FilterWhereMeaning(filters, rows[i]);
    }
    FilterAgree(rows, Matching(q.where, q.params[..Holes(q.where)]), ListedBy(filters));
  }

  /**
   Payment::getAllPayments: the joined payments the filters list, `offset`
   skipped and at most `limit` returned. Rows come in storage order; the
   ORDER BY is not applied.
   */
  function GetAllPayments(db: Db, limit: nat, offset: nat, filters: Row): (r: seq<Row>)
    ensures r == Page(Filter(Joined(db.payments.rows, ListJoins(db)), ListedBy(filters)), limit, offset)
  {
    var q := ListQuery(filters, limit, offset);
    HitsAreListed(q, filters, Joined(db.payments.rows, ListJoins(db)));
    Run(q, Joined(db.payments.rows, ListJoins(db))).value
  }

  /** Payment::countAllPayments: the number of listed payments, counted without the joins. */
  function CountAllPayments(db: Db, filters: Row): (n: nat)
    ensures n == |Filter(db.payments.rows, ListedBy(filters))|
  {
    var q := CountQuery(filters);
    HitsAreListed(q, filters, db.payments.rows);
    CountRows(q, db.payments.rows).value
  }

  /** The joins keep the columns the filters test, so filtering before or after joining is the same. */
  lemma {:induction false} ListedJoined(db: Db, filters: Row)
    ensures Filter(Joined(db.payments.rows, ListJoins(db)), ListedBy(filters))
            == Joined(Filter(db.payments.rows, ListedBy(filters)), ListJoins(db))
  {
    var js := ListJoins(db);
    var rows := db.payments.rows;
    ListJoinsKeep(db);
    forall i | 0 <= i < |rows| && JoinAll(rows[i], js).Some?
      ensures ListedBy(filters)(JoinAll(rows[i], js).value) == ListedBy(filters)(rows[i]) {
      JoinKeeps(rows[i], js, "status");
      JoinKeeps(rows[i], js, "payment_date");
    }
    FilterJoined(rows, js, ListedBy(filters));
  }

  /** The admin listing never shows more payments than the total it reports. */
  lemma {:induction false} ListingWithinCount(db: Db, filters: Row, limit: nat, offset: nat)
    ensures |GetAllPayments(db, limit, offset, filters)| <= CountAllPayments(db, filters)
    ensures forall x :: x in GetAllPayments(db, limit, offset, filters) ==>
              exists row :: row in db.payments.rows && Listed(filters, row) && JoinAll(row, ListJoins(db)) == Some(x)
  {
    ListedJoined(db, filters);
    var listed := Filter(db.payments.rows, ListedBy(filters));
    var page := GetAllPayments(db, limit, offset, filters);
    forall x | x in page
      ensures exists row :: row in db.payments.rows && Listed(filters, row) && JoinAll(row, ListJoins(db)) == Some(x) {
      var i :| 0 <= i < |page| && page[i] == x;
      JoinedFrom(listed, ListJoins(db), x);
    }
  }

  /** Every payment has its tenancy, that tenancy's user and its property: what the foreign keys guarantee. */
  predicate PartnersExist(db: Db) {
    forall i :: 0 <= i < |db.payments.rows| ==> JoinAll(db.payments.rows[i], ListJoins(db)).Some?
  }

  /** While the foreign keys hold, the reported total is exactly the number of payments the listing pages through. */
  lemma {:induction false} CountIsListingTotal(db: Db, filters: Row)
    requires PartnersExist(db)
    ensures CountAllPayments(db, filters) == |Filter(Joined(db.payments.rows, ListJoins(db)), ListedBy(filters))|
  {
    ListedJoined(db, filters);
    var listed := Filter(db.payments.rows, ListedBy(filters));
    forall i | 0 <= i < |listed| ensures JoinAll(listed[i], ListJoins(db)).Some? {
      assert listed[i] in listed;
    }
    JoinedKeepsAll(listed, ListJoins(db));
  }

  /** `p.tenant_id = ?`. */
  predicate OfTenancy(tenantId: Val, row: Row) {
    Holds(Get(row, "tenant_id"), Eq, tenantId)
  }

  function OfTenancyBy(tenantId: Val): Row -> bool {
    row => OfTenancy(tenantId, row)
  }

  /** The WHERE clause `p.tenant_id = ?` with its parameter. */
  function TenancyWhere(): (w: seq<Cond>)
    ensures Holes(w) == 1
    ensures forall row: Row, tenantId: Val :: Satisfies(row, w, [tenantId]) <==> OfTenancy(tenantId, row)
  {
    var w := [Bound("tenant_id", Eq)];
    assert w[1..] == [];
    forall row: Row, tenantId: Val ensures Satisfies(row, w, [tenantId]) <==> OfTenancy(tenantId, row) {
      assert [tenantId][..1] == [tenantId] && [tenantId][1..] == [];
    }
    w
  }

  /** getPaymentsByTenant's statement: `[tenantId, limit, offset]` for its three placeholders. */
  function TenancyQuery(tenantId: Val, limit: int, offset: int): (q: Select)
    ensures WellFormed(q) && q.limit && q.offset
    ensures LimitOf(q) == limit && OffsetOf(q) == offset
    ensures q.where == TenancyWhere() && q.params[..Holes(q.where)] == [tenantId]
  {
    Select(TenancyWhere(), [Sort("payment_date", "DESC")], true, true, [tenantId, Int(limit), Int(offset)])
  }

  /** A statement selecting one tenancy's payments keeps exactly those. */
  lemma TenancyHits(tenantId: Val, rows: seq<Row>)
    ensures Filter(rows, Matching(TenancyWhere(), [tenantId])) == Filter(rows, OfTenancyBy(tenantId))
  {
    FilterAgree(rows, Matching(TenancyWhere(), [tenantId]), OfTenancyBy(tenantId));
  }

  /** Payment::getPaymentsByTenant: one tenancy's payments with their property's name, paged. */
  function GetPaymentsByTenant(db: Db, tenantId: Val, limit: nat, offset: nat): (r: seq<Row>)
    ensures r == Page(Filter(Joined(db.payments.rows, TenantListJoins(db)), OfTenancyBy(tenantId)), limit, offset)
  {
    var q := TenancyQuery(tenantId, limit, offset);
    TenancyHits(tenantId, Joined(db.payments.rows, TenantListJoins(db)));
    Run(q, Joined(db.payments.rows, TenantListJoins(db))).value
  }

  /** Payment::countPaymentsByTenant: the number of that tenancy's payments, without the join. */
  function CountPaymentsByTenant(db: Db, tenantId: Val): (n: nat)
    ensures n == |Filter(db.payments.rows, OfTenancyBy(tenantId))|
  {
    var q := Select(TenancyWhere(), [], false, false, [tenantId]);
    assert [tenantId][..1] == [tenantId];
    TenancyHits(tenantId, db.payments.rows);
    CountRows(q, db.payments.rows).value
  }

  /** Every payment a tenancy's listing shows is one of that tenancy's payments, joined. */
  lemma {:induction false} TenancyListingIsOwn(db: Db, tenantId: Val, limit: nat, offset: nat, x: Row)
    requires x in GetPaymentsByTenant(db, tenantId, limit, offset)
    ensures exists row :: row in db.payments.rows && OfTenancy(tenantId, row) && JoinAll(row, TenantListJoins(db)) == Some(x)
  {
    var js := TenantListJoins(db);
    var page := GetPaymentsByTenant(db, tenantId, limit, offset);
    var i :| 0 <= i < |page| && page[i] == x;
    var all := Filter(Joined(db.payments.rows, js), OfTenancyBy(tenantId));
    assert x in all;
    JoinedFrom(db.payments.rows, js, x);
    var row :| row in db.payments.rows && JoinAll(row, js) == Some(x);
    TenantListJoinsKeep(db);
    JoinKeeps(row, js, "tenant_id");
  }

  /**
   Payment::getPaymentWithDetails: `WHERE p.id = ?` over the joined
   payments, fetched; nothing when the payment or one of its partners is
   missing.
   */
  function GetPaymentWithDetails(db: Db, id: Val): Option<Row> {
    Find(Table(Joined(db.payments.rows, DetailJoins(db)), db.payments.nextId), id)
  }

  /** The details fetched for an id are a payment carrying that id, joined; with no such payment there are none. */
  lemma DetailsFromPayment(db: Db, id: Val)
    ensures GetPaymentWithDetails(db, id).Some? ==>
              exists row :: row in db.payments.rows && HasKey(id)(row) && JoinAll(row, DetailJoins(db)) == GetPaymentWithDetails(db, id)
    ensures Find(db.payments, id).None? ==> GetPaymentWithDetails(db, id).None?
  {
    if GetPaymentWithDetails(db, id).Some? {
      var x := GetPaymentWithDetails(db, id).value;
      JoinedFrom(db.payments.rows, DetailJoins(db), x);
      var row :| row in db.payments.rows && JoinAll(row, DetailJoins(db)) == Some(x);
      DetailJoinsKeep(db);
      JoinKeeps(row, DetailJoins(db), PRIMARY_KEY);
      var i :| 0 <= i < |db.payments.rows| && db.payments.rows[i] == row;
      assert HasKey(id)(db.payments.rows[i]);
    }
  }

  /** The details of a payment find() returns and whose partners all exist are that payment, joined. */
  lemma {:induction false} DetailsOfFound(db: Db, id: Val)
    requires Find(db.payments, id).Some? && JoinAll(Find(db.payments, id).value, DetailJoins(db)).Some?
    ensures GetPaymentWithDetails(db, id) == JoinAll(Find(db.payments, id).value, DetailJoins(db))
  {
    var js := DetailJoins(db);
    var rows := db.payments.rows;
    DetailJoinsKeep(db);
    forall i | 0 <= i < |rows| && JoinAll(rows[i], js).Some?
      ensures HasKey(id)(JoinAll(rows[i], js).value) == HasKey(id)(rows[i]) {
      JoinKeeps(rows[i], js, PRIMARY_KEY);
    }
    FilterJoined(rows, js, HasKey(id));
    FindIsHead(db.payments, id);
    var mine := Filter(rows, HasKey(id));
    JoinedCons(mine, js);
    FindIsHead(Table(Joined(rows, js), db.payments.nextId), id);
  }

  /** What getOverduePayments selects: a pending payment due strictly before today. */
  predicate Overdue(today: string, row: Row) {
    Holds(Get(row, "status"), Eq, Str(PAYMENT_PENDING)) && Holds(Get(row, "due_date"), Lt, Str(today))
  }

  function OverdueBy(today: string): Row -> bool {
    row => Overdue(today, row)
  }

  /** `WHERE p.status = 'pending' AND p.due_date < CURDATE()`: two fixed conjuncts, no placeholder. */
  function OverdueQuery(today: string): (q: Select)
    ensures WellFormed(q) && !q.limit && q.params == []
    ensures forall row: Row :: Satisfies(row, q.where, q.params) <==> Overdue(today, row)
  {
    var w := [Fixed("status", Eq, Str(PAYMENT_PENDING)), Fixed("due_date", Lt, Str(today))];
    assert w[1..][1..] == [];
    assert Holes(w) == Arity(w[0]) + Holes(w[1..]) == 0;
    forall row: Row ensures Satisfies(row, w, []) <==> Overdue(today, row) {
      assert Satisfies(row, w[1..][1..], []);
    }
    Select(w, [], false, false, [])
  }

  /** Payment::getOverduePayments on the day `today`: the joined payments still pending past their due date. */
  function GetOverduePayments(db: Db, today: Date): (r: seq<Row>)
    requires Proper(today)
    ensures r == Filter(Joined(db.payments.rows, OverdueJoins(db)), OverdueBy(Format(today)))
  {
    var q := OverdueQuery(Format(today));
    FilterAgree(Joined(db.payments.rows, OverdueJoins(db)), Matching(q.where, q.params), OverdueBy(Format(today)));
    Run(q, Joined(db.payments.rows, OverdueJoins(db))).value
  }

  /** Every overdue payment is pending and due before today, as text. */
  lemma OverdueArePending(db: Db, today: Date, x: Row)
    requires Proper(today) && x in GetOverduePayments(db, today)
    ensures Get(x, "status").Str? ==> Get(x, "status") == Str(PAYMENT_PENDING)
    ensures Get(x, "due_date").Str? ==> StrLt(Get(x, "due_date").s, Format(today))
  {
  }

  /** A payment marked paid is never overdue, whatever its due date. */
  lemma PaidNeverOverdue(today: string, row: Row)
    requires Get(row, "status") == Str(PAYMENT_PAID)
    ensures !Overdue(today, row)
  {
  }
}
