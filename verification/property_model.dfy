/**
 Property: the listing of properties with its four optional filters and its
 whitelisted sort, the matching count, and the insert, update and delete of
 one property. Each query is kept as the statement it emits and related to
 the rows it selects.
 */
module PropertyModel {
  import opened Text
  import opened Php
  import opened Wrappers
  import opened Rows
  import opened Sql
  import opened BaseModel

  /** The columns a listing may be sorted on. */
  const SORT_COLUMNS: seq<string> := ["created_at", "price", "name", "bedrooms", "size"]

  /** The two sort directions. */
  const SORT_ORDERS: seq<string> := ["ASC", "DESC"]

  /** The filter keys, in the order their clauses are appended. */
  const FILTER_KEYS: seq<string> := ["city", "min_price", "max_price", "bedrooms"]

  /** The thirteen columns Property::create binds, in its order; `created_at` and `updated_at` are NOW(). */
  const CREATE_COLUMNS: seq<string> := ["owner_id", "name", "description", "location", "city", "bedrooms",
                                        "bathrooms", "size", "price", "amenities", "images", "featured_image", "status"]

  /**
   The value a filter is compared with. The price column is DECIMAL and is
   kept in integer cents, so a price bound is compared as the same `cents`
   conversion the store applies to a price; the other bounds are compared
   as given.
   */
  function FilterParam(filters: Row, key: string, cents: Val -> int): (v: Val)
    ensures key != "min_price" && key != "max_price" ==> v == Get(filters, key)
  {
    if key == "min_price" || key == "max_price" then Int(cents(Get(filters, key))) else Get(filters, key)
  }

  /** The parameters of the filters that are set (not PHP-empty), in the order of `keys`. */
  function Present(filters: Row, keys: seq<string>, cents: Val -> int): (r: seq<Val>)
    ensures |r| <= |keys|
  {
    if |keys| == 0 then []
    else (if Truthy(Get(filters, keys[0])) then [FilterParam(filters, keys[0], cents)] else [])
         + Present(filters, keys[1..], cents)
  }

  /**
   What the filters mean for one property: the city is matched exactly,
   the price in cents lies between the two bounds in cents inclusive, and
   there are at least the requested bedrooms; a filter that is not set
   constrains nothing.
   */
  predicate Selected(filters: Row, row: Row, cents: Val -> int) {
    && (Truthy(Get(filters, "city")) ==> Holds(Get(row, "city"), Eq, Get(filters, "city")))
    && (Truthy(Get(filters, "min_price")) ==> Holds(Get(row, "price"), Ge, Int(cents(Get(filters, "min_price")))))
    && (Truthy(Get(filters, "max_price")) ==> Holds(Get(row, "price"), Le, Int(cents(Get(filters, "max_price")))))
    && (Truthy(Get(filters, "bedrooms")) ==> Holds(Get(row, "bedrooms"), Ge, Get(filters, "bedrooms")))
  }

  function SelectedBy(filters: Row, cents: Val -> int): Row -> bool {
    row => Selected(filters, row, cents)
  }

  /** The four `if (!empty($filters[...]))` blocks shared by the listing and the count. */
  function FilterWhere(filters: Row, cents: Val -> int): (r: (seq<Cond>, seq<Val>))
    ensures Holes(r.0) == |r.1|
    ensures r.1 == Present(filters, FILTER_KEYS, cents)
  {
    var (w1, a1) := Optional(Truthy(Get(filters, "city")), Bound("city", Eq), Get(filters, "city"));
    var (w2, a2) := Optional(Truthy(Get(filters, "min_price")), Bound("price", Ge), Int(cents(Get(filters, "min_price"))));
    var (w3, a3) := Optional(Truthy(Get(filters, "max_price")), Bound("price", Le), Int(cents(Get(filters, "max_price"))));
    var (w4, a4) := Optional(Truthy(Get(filters, "bedrooms")), Bound("bedrooms", Ge), Get(filters, "bedrooms"));
    HolesAppend(w1, w2);
    HolesAppend(w1 + w2, w3);
    HolesAppend(w1 + w2 + w3, w4);
    PresentFilterKeys(filters, cents);
    (w1 + w2 + w3 + w4, a1 + a2 + a3 + a4)
  }

  lemma PresentFilterKeys(filters: Row, cents: Val -> int)
    ensures Present(filters, FILTER_KEYS, cents)
            == (if Truthy(Get(filters, "city")) then [Get(filters, "city")] else [])
             + (if Truthy(Get(filters, "min_price")) then [Int(cents(Get(filters, "min_price")))] else [])
             + (if Truthy(Get(filters, "max_price")) then [Int(cents(Get(filters, "max_price")))] else [])
             + (if Truthy(Get(filters, "bedrooms")) then [Get(filters, "bedrooms")] else [])
  {
    var k := FILTER_KEYS;
    var c := if Truthy(Get(filters, "city")) then [Get(filters, "city")] else [];
    var lo := if Truthy(Get(filters, "min_price")) then [Int(cents(Get(filters, "min_price")))] else [];
    var hi := if Truthy(Get(filters, "max_price")) then [Int(cents(Get(filters, "max_price")))] else [];
    var b := if Truthy(Get(filters, "bedrooms")) then [Get(filters, "bedrooms")] else [];
    assert k[1..][1..][1..][1..] == [];
    assert Present(filters, k[1..][1..][1..], cents) == b + [];
    assert Present(filters, k[1..][1..], cents) == hi + b;
    assert Present(filters, k[1..], cents) == lo + (hi + b);
    assert Present(filters, k, cents) == c + (lo + (hi + b));
  }

  /** The WHERE clause the filters build holds of a row exactly when the row is selected. */
  lemma FilterWhereMeaning(filters: Row, row: Row, cents: Val -> int)
    ensures Satisfies(row, FilterWhere(filters, cents).0, FilterWhere(filters, cents).1) <==> Selected(filters, row, cents)
  {
    var (w1, a1) := Optional(Truthy(Get(filters, "city")), Bound("city", Eq), Get(filters, "city"));
    var (w2, a2) := Optional(Truthy(Get(filters, "min_price")), Bound("price", Ge), Int(cents(Get(filters, "min_price"))));
    var (w3, a3) := Optional(Truthy(Get(filters, "max_price")), Bound("price", Le), Int(cents(Get(filters, "max_price"))));
    var (w4, a4) := Optional(Truthy(Get(filters, "bedrooms")), Bound("bedrooms", Ge), Get(filters, "bedrooms"));
    SatisfiesAppend(row, w1, w2, a1, a2);
    SatisfiesAppend(row, w1 + w2, w3, a1 + a2, a3);
    SatisfiesAppend(row, w1 + w2 + w3, w4, a1 + a2 + a3, a4);
  }

  /**
   A stored price is compared with a bound in one unit: a price in cents is
   within a maximum exactly when it does not exceed the maximum's cents, and
   above a minimum exactly when it reaches the minimum's cents.
   */
  lemma PriceBoundsInCents(row: Row, bound: Val, cents: Val -> int)
    requires Get(row, "price").Int?
    ensures Selected(map["max_price" := bound], row, cents) <==> !Truthy(bound) || Get(row, "price").i <= cents(bound)
    ensures Selected(map["min_price" := bound], row, cents) <==> !Truthy(bound) || Get(row, "price").i >= cents(bound)
  {
    var hi: Row := map["max_price" := bound];
    var lo: Row := map["min_price" := bound];
    assert Get(hi, "max_price") == bound && Get(hi, "city") == Null && Get(hi, "min_price") == Null && Get(hi, "bedrooms") == Null;
    assert Get(lo, "min_price") == bound && Get(lo, "city") == Null && Get(lo, "max_price") == Null && Get(lo, "bedrooms") == Null;
    HoldsOnInts(Get(row, "price").i, cents(bound), Le);
    HoldsOnInts(Get(row, "price").i, cents(bound), Ge);
  }

  /** The ORDER BY column: the requested one when it is whitelisted, `created_at` otherwise. */
  function SortColumn(filters: Row): (c: string)
    ensures Get(filters, "sort_by").Str? ==> c in SORT_COLUMNS
    ensures !IsSet(filters, "sort_by") ==> c == "created_at"
    ensures Get(filters, "sort_by").Str? && Get(filters, "sort_by").s in SORT_COLUMNS ==> c == Get(filters, "sort_by").s
    ensures Get(filters, "sort_by").Str? && Get(filters, "sort_by").s !in SORT_COLUMNS ==> c == "created_at"
  {
    var sortBy := Coalesce(filters, "sort_by", Str("created_at"));
    LooseInWords(ToStr(sortBy), SORT_COLUMNS);
    if InArrayLoose(sortBy, StrList(SORT_COLUMNS)) then ToStr(sortBy) else "created_at"
  }

  /** The ORDER BY direction: the requested one upper-cased when it is ASC or DESC, DESC otherwise. */
  function SortOrder(filters: Row): (d: string)
    ensures d == "ASC" || d == "DESC"
    ensures d == "ASC" <==> IsSet(filters, "sort_order") && Upper(ToStr(Get(filters, "sort_order"))) == "ASC"
  {
    var order := Upper(ToStr(Coalesce(filters, "sort_order", Str("DESC"))));
    LooseInWords(order, SORT_ORDERS);
    if InArrayLoose(Str(order), StrList(SORT_ORDERS)) then order else "DESC"
  }

  /** Property::getAvailableProperties' statement: the filters, the sort, then `LIMIT :limit OFFSET :offset`. */
  function ListQuery(filters: Row, limit: int, offset: int, cents: Val -> int): (q: Select)
    ensures WellFormed(q) && q.limit && q.offset
    ensures LimitOf(q) == limit && OffsetOf(q) == offset
    ensures q.params == Present(filters, FILTER_KEYS, cents) + [Int(limit), Int(offset)]
    ensures q.order == [Sort(SortColumn(filters), SortOrder(filters))]
  {
    var (w, a) := FilterWhere(filters, cents);
    Select(w, [Sort(SortColumn(filters), SortOrder(filters))], true, true, a + [Int(limit), Int(offset)])
  }

  /** Property::countAvailableProperties' statement: the same filters, no sort and no LIMIT. */
  function CountQuery(filters: Row, cents: Val -> int): (q: Select)
    ensures WellFormed(q) && !q.limit && q.order == []
    ensures q.where == ListQuery(filters, 0, 0, cents).where && q.params == Present(filters, FILTER_KEYS, cents)
  {
    var (w, a) := FilterWhere(filters, cents);
    Select(w, [], false, false, a)
  }

  /** The statement's WHERE clause selects the same rows as the filters' meaning. */
  lemma HitsAreSelected(q: Select, filters: Row, rows: seq<Row>, cents: Val -> int)
    requires WellFormed(q) && q.where == FilterWhere(filters, cents).0 && q.params[..Holes(q.where)] == FilterWhere(filters, cents).1
    ensures Hits(q, rows) == Filter(rows, SelectedBy(filters, cents))
  {
    forall i | 0 <= i < |rows|
      ensures Matching(q.where, q.params[..Holes(q.where)])(rows[i]) == SelectedBy(filters, cents)(rows[i]) {
      FilterWhereMeaning(filters, rows[i], cents);
    }
    FilterAgree(rows, Matching(q.where, q.params[..Holes(q.where)]), SelectedBy(filters, cents));
  }

  /**
   Property::getAvailableProperties: the selected properties, `offset`
   skipped and at most `limit` returned. Rows come in storage order; the
   ORDER BY is not applied.
   */
  function GetAvailableProperties(t: Table, filters: Row, limit: nat, offset: nat, cents: Val -> int): (r: seq<Row>)
    ensures r == Page(Filter(t.rows, SelectedBy(filters, cents)), limit, offset)
  {
    var q := ListQuery(filters, limit, offset, cents);
    assert q.params[..Holes(q.where)] == FilterWhere(filters, cents).1;
    HitsAreSelected(q, filters, t.rows, cents);
    Run(q, t.rows).value
  }

  /** Property::countAvailableProperties: the number of selected properties. */
  function CountAvailableProperties(t: Table, filters: Row, cents: Val -> int): (n: nat)
    ensures n == |Filter(t.rows, SelectedBy(filters, cents))|
  {
    var q := CountQuery(filters, cents);
    assert q.params[..Holes(q.where)] == FilterWhere(filters, cents).1;
    HitsAreSelected(q, filters, t.rows, cents);
    CountRows(q, t.rows).value
  }

  /** The listing is a window of the rows the count counts. */
  lemma ListingWithinCount(t: Table, filters: Row, limit: nat, offset: nat, cents: Val -> int)
    ensures |GetAvailableProperties(t, filters, limit, offset, cents)| <= CountAvailableProperties(t, filters, cents)
    ensures offset < CountAvailableProperties(t, filters, cents) ==>
              |GetAvailableProperties(t, filters, limit, offset, cents)| == Min(limit, CountAvailableProperties(t, filters, cents) - offset)
    ensures forall x :: x in GetAvailableProperties(t, filters, limit, offset, cents) ==> x in t.rows && Selected(filters, x, cents)
  {
    PageWithin(Filter(t.rows, SelectedBy(filters, cents)), limit, offset);
  }

  /**
   Despite its name the available listing never looks at the status: a
   property is selected or not whatever its status is.
   */
  lemma StatusIgnored(filters: Row, row: Row, status: Val, cents: Val -> int)
    ensures Selected(filters, row[PROPERTY_STATUS := status], cents) <==> Selected(filters, row, cents)
  {
    var row' := row[PROPERTY_STATUS := status];
    assert Get(row', "city") == Get(row, "city");
    assert Get(row', "price") == Get(row, "price");
    assert Get(row', "bedrooms") == Get(row, "bedrooms");
  }

  const PROPERTY_STATUS: string := "status"

  /** Property::find: the property with that id, if any. */
  function Find(t: Table, id: Val): (r: Option<Row>)
    ensures r.Some? ==> r.value in t.rows && Holds(Get(r.value, PRIMARY_KEY), Eq, id)
    ensures r.None? <==> forall i :: 0 <= i < |t.rows| ==> !Holds(Get(t.rows[i], PRIMARY_KEY), Eq, id)
  {
    BaseModel.Find(t, id)
  }

  /** The row Property::create inserts: the thirteen bound values, and both timestamps at `now`. */
  function NewProperty(data: Row, now: int): (r: Row)
    ensures r.Keys == (set k | k in CREATE_COLUMNS) + {"created_at", "updated_at"}
    ensures forall k :: k in CREATE_COLUMNS ==> r[k] == Get(data, k)
    ensures r["created_at"] == Int(now) && r["updated_at"] == Int(now)
  {
    assert "created_at" !in CREATE_COLUMNS && "updated_at" !in CREATE_COLUMNS;
    Project(data, CREATE_COLUMNS)["created_at" := Int(now)]["updated_at" := Int(now)]
  }

  /** Property::create: insert and return the new id (lastInsertId, as a string). */
  function Create(t: Table, data: Row, now: int): (r: (Table, Val))
    ensures r.1 == Str(IntToString(t.nextId))
    ensures r.0.rows == t.rows + [NewProperty(data, now)[PRIMARY_KEY := Int(t.nextId)]] && r.0.nextId == t.nextId + 1
    ensures Keyed(t) ==> Keyed(r.0)
  {
    var (t', id) := Add(t, NewProperty(data, now));
    (t', Str(IntToString(id)))
  }

  /**
   Property::update's statement: one `key = :key` per key of `$data`, then
   `updated_at = NOW()`, keyed on `:id`; every named placeholder gets its
   parameter.
   */
  function UpdateStatement(id: Val, data: Assoc): (s: Update)
    ensures |s.sets| == |data| && s.key == PRIMARY_KEY
    ensures |s.params| == |data| + 1 && s.params[|data|] == id
    ensures forall i :: 0 <= i < |data| ==> s.sets[i] == data[i].0 && s.params[i] == data[i].1
  {
    BaseModel.UpdateStatement(id, data)
  }

  /**
   Property::update: the given columns and `updated_at` of the property with
   that id; None for an empty `$data`, whose `SET , updated_at` MySQL
   rejects.
   */
  function Update(t: Table, id: Val, data: Assoc, now: int): (r: Option<Table>)
    ensures r.None? <==> |data| == 0
    ensures r.Some? ==> r.value.nextId == t.nextId && |r.value.rows| == |t.rows|
    ensures r.Some? ==> forall i :: 0 <= i < |t.rows| ==>
              r.value.rows[i] == if HasKey(id)(t.rows[i]) then t.rows[i] + ToRow(data)["updated_at" := Int(now)] else t.rows[i]
  {
    if |data| == 0 then None else Some(UpdateById(t, id, ToRow(data)["updated_at" := Int(now)]).0)
  }

  /** Property::delete. */
  function Delete(t: Table, id: Val): (r: Table)
    ensures r.rows == Filter(t.rows, Not(HasKey(id)))
    ensures Find(r, id).None?
  {
    BaseModel.Delete(t, id).0
  }

  /** Property::getByOwner: the properties whose owner_id equals `ownerId`, in storage order. */
  function GetByOwner(t: Table, ownerId: Val): (r: seq<Row>)
    ensures forall x :: x in r <==> x in t.rows && Holds(Get(x, "owner_id"), Eq, ownerId)
  {
    Filter(t.rows, row => Holds(Get(row, "owner_id"), Eq, ownerId))
  }
}
