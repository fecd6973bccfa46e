/**
 PropertiesController: the public listing and detail of properties, and the
 create, update and delete endpoints for their owners. The three writing
 endpoints call RoleMiddleware::adminOnly without AuthMiddleware::handle
 before it, so on a request that has not been authenticated they answer 401.
 */
module PropertiesController {
  import opened Text
  import opened Php
  import opened Wrappers
  import opened Http
  import opened Store
  import opened Rows
  import opened Sql
  import opened BaseModel
  import opened Validate
  import opened Dates
  import opened Constants
  import AuthMiddleware
  import RoleMiddleware
  import FileUpload
  import PropertyModel

  /** The listing's query keys and their defaults: the four filters default to null. */
  const LISTING_KEYS: seq<string> := ["city", "min_price", "max_price", "bedrooms", "sort_by", "sort_order"]

  /** The fields `store` requires, in the order it checks them. */
  const REQUIRED_FIELDS: seq<string> := ["name", "description", "location", "city", "bedrooms", "bathrooms", "size", "price"]

  /** The fields `update` copies from the input. */
  const UPDATE_FIELDS: seq<string> := ["name", "description", "location", "city", "bedrooms", "bathrooms", "size", "price", "amenities", "status"]

  /** The directory property images are stored under. */
  const IMAGE_DIR: string := "properties"

  /** A request body: a multipart form (`$_POST`) or a JSON document. */
  datatype Payload = Form(fields: Row) | JsonBody(body: Body)

  function PropertyNotFound(): Outcome { Error("Property not found", "NOT_FOUND", Arr(map[]), 404) }

  function NotOwner(action: string): Outcome { Error("You can only " + action + " your own properties", "FORBIDDEN", Arr(map[]), 403) }

  function NegativeNumber(): Outcome { Error("Numeric fields must be positive") }

  /** The default a listing key falls back to when the query lacks it. */
  function ListingDefault(key: string): Val {
    if key == "sort_by" then Str("created_at") else if key == "sort_order" then Str("desc") else Null
  }

  /**
   The `$filters` of index: each listing key read from the query with its
   default, and every PHP-empty value dropped.
   */
  function CleanFilters(query: Row): (f: Row)
    ensures forall k :: k in f <==> k in LISTING_KEYS && Truthy(Coalesce(query, k, ListingDefault(k)))
    ensures forall k :: k in f ==> f[k] == Coalesce(query, k, ListingDefault(k))
  {
    map k | k in LISTING_KEYS && Truthy(Coalesce(query, k, ListingDefault(k))) :: Coalesce(query, k, ListingDefault(k))
  }

  /** Dropping the empty filters does not change which properties are listed. */
  lemma CleaningKeepsSelection(query: Row, row: Row, cents: Val -> int)
    ensures PropertyModel.Selected(CleanFilters(query), row, cents) <==> PropertyModel.Selected(query, row, cents)
  {
    var f := CleanFilters(query);
    assert forall k :: k in ["city", "min_price", "max_price", "bedrooms"] ==> k in LISTING_KEYS && ListingDefault(k) == Null;
    assert forall k :: k in ["city", "min_price", "max_price", "bedrooms"] ==>
      (Truthy(Get(f, k)) <==> Truthy(Get(query, k))) && (Truthy(Get(f, k)) ==> Get(f, k) == Get(query, k));
  }

  /** The rows index lists are those its raw query selects: dropping the empty filters changes nothing. */
  lemma {:induction false} CleanFiltersSelectSame(rows: seq<Row>, query: Row, cents: Val -> int)
    ensures Filter(rows, PropertyModel.SelectedBy(CleanFilters(query), cents)) == Filter(rows, PropertyModel.SelectedBy(query, cents))
  {
    forall i | 0 <= i < |rows|
      ensures PropertyModel.SelectedBy(CleanFilters(query), cents)(rows[i]) == PropertyModel.SelectedBy(query, cents)(rows[i]) {
      CleaningKeepsSelection(query, rows[i], cents);
    }
    FilterAgree(rows, PropertyModel.SelectedBy(CleanFilters(query), cents), PropertyModel.SelectedBy(query, cents));
  }

  /** The `data` array of index: the page of listed properties and the pagination block. */
  function Listing(db: Db, query: Row, cents: Val -> int): (d: Row)
    ensures "status" !in d
    ensures "properties" in d && d["properties"] == RowsVal(Page(Filter(db.properties.rows, PropertyModel.SelectedBy(query, cents)),
                                                                 Paginate(query).limit, Paginate(query).offset))
    ensures "pagination" in d && d["pagination"] == PaginationVal(Paginate(query), |Filter(db.properties.rows, PropertyModel.SelectedBy(query, cents))|)
  {
    var p := Paginate(query);
    var filters := CleanFilters(query);
    CleanFiltersSelectSame(db.properties.rows, query, cents);
    var listed := PropertyModel.GetAvailableProperties(db.properties, filters, p.limit, p.offset, cents);
    var total := PropertyModel.CountAvailableProperties(db.properties, filters, cents);
    map["properties" := RowsVal(listed), "pagination" := PaginationVal(p, total)]
  }

  /**
   PropertiesController::index: the page of matching properties and the
   pagination block, the total counting every match and `pages` enough
   pages of `limit` to hold them.
   */
  function Index(db: Db, query: Row, cents: Val -> int): (o: Outcome)
    ensures IsSuccess(o)
    ensures Carries(o, "properties", RowsVal(Page(Filter(db.properties.rows, PropertyModel.SelectedBy(query, cents)),
                                                   Paginate(query).limit, Paginate(query).offset)))
    ensures Carries(o, "pagination", PaginationVal(Paginate(query), |Filter(db.properties.rows, PropertyModel.SelectedBy(query, cents))|))
  {
    Ok(Listing(db, query, cents))
  }

  /** The listing answers at most `limit` properties, all of them counted in `total`, and `pages` pages hold the total. */
  lemma IndexPageFitsTotal(db: Db, query: Row, cents: Val -> int)
    ensures var total := |Filter(db.properties.rows, PropertyModel.SelectedBy(query, cents))|;
            var listed := Page(Filter(db.properties.rows, PropertyModel.SelectedBy(query, cents)), Paginate(query).limit, Paginate(query).offset);
            && |listed| <= Paginate(query).limit && |listed| <= total
            && (total > 0 ==> (PageCount(total, Paginate(query).limit) - 1) * Paginate(query).limit < total
                              <= PageCount(total, Paginate(query).limit) * Paginate(query).limit)
  {
    var rows := Filter(db.properties.rows, PropertyModel.SelectedBy(query, cents));
    var paging := Paginate(query);
    var listed := Page(rows, paging.limit, paging.offset);
    assert |listed| <= |rows| by {
      if paging.offset < |rows| {
        assert |listed| == Min(paging.limit, |rows| - paging.offset);
      }
    }
    if |rows| > 0 {
      var pages := PageCount(|rows|, paging.limit);
      assert (pages - 1) * paging.limit < |rows| <= pages * paging.limit;
    }
  }

  /** PropertiesController::show: the property, or 404. */
  function Show(db: Db, id: Val): (o: Outcome)
    ensures PropertyModel.Find(db.properties, id).None? ==> o == PropertyNotFound()
    ensures PropertyModel.Find(db.properties, id).Some? ==>
              IsSuccess(o) && Carries(o, "property", Arr(PropertyModel.Find(db.properties, id).value))
  {
    match PropertyModel.Find(db.properties, id)
    case None => PropertyNotFound()
    case Some(p) => Ok(map["property" := Arr(p)])
  }

  /** The input of a writing endpoint: `$_POST` for a form, the decoded body otherwise, or the JSON error. */
  function ReadInput(payload: Payload): (s: Step<Row>)
    ensures payload.Form? ==> s == Next(payload.fields)
    ensures payload.JsonBody? && JsonError(payload.body) ==> s == Halt(InvalidJson())
    ensures payload.JsonBody? && !JsonError(payload.body) ==> s == Next(Input(payload.body))
  {
    if payload.Form? then Next(payload.fields)
    else if JsonError(payload.body) then Halt(InvalidJson())
    else Next(Input(payload.body))
  }

  /** `$input['amenities'] ?? []`, a string decoded as JSON (null on failure becoming `[]`). */
  function Amenities(input: Row, json: JsonCodec): Val {
    var a := Coalesce(input, "amenities", List([]));
    if a.Str? then OrElse(json.decode(a.s), List([])) else a
  }

  /** The price in integer cents: `floatval` is not modelled, its conversion is the parameter `cents`. */
  function Price(input: Row, cents: Val -> int): Val {
    Int(cents(Get(input, "price")))
  }

  /** One value of the array store hands Property::create. */
  function NewPropertyField(k: string, input: Row, owner: Val, urls: seq<string>, json: JsonCodec, cents: Val -> int): (v: Val)
    ensures k == "owner_id" ==> v == owner
    ensures k == "status" ==> v == Str(PROPERTY_AVAILABLE)
    ensures k == "featured_image" ==> v == if |urls| > 0 then Str(urls[0]) else Null
    ensures k == "images" ==> v == Str(json.encode(List(StrList(urls))))
    ensures k in ["name", "description", "location", "city"] ==> v == Str(PhpTrim(ToStr(Get(input, k))))
    ensures k in ["bedrooms", "bathrooms", "size"] ==> v == Int(IntVal(Get(input, k)))
  {
    if k == "owner_id" then owner
    else if k in ["name", "description", "location", "city"] then Str(PhpTrim(ToStr(Get(input, k))))
    else if k in ["bedrooms", "bathrooms", "size"] then Int(IntVal(Get(input, k)))
    else if k == "price" then Price(input, cents)
    else if k == "amenities" then Str(json.encode(Amenities(input, json)))
    else if k == "images" then Str(json.encode(List(StrList(urls))))
    else if k == "featured_image" then (if |urls| > 0 then Str(urls[0]) else Null)
    else Str(PROPERTY_AVAILABLE)
  }

  /** The array store hands Property::create. */
  function NewPropertyData(input: Row, owner: Val, urls: seq<string>, json: JsonCodec, cents: Val -> int): (d: Row)
    ensures d.Keys == set k | k in PropertyModel.CREATE_COLUMNS
    ensures forall k :: k in d ==> d[k] == NewPropertyField(k, input, owner, urls, json, cents)
  {
    map k | k in PropertyModel.CREATE_COLUMNS :: NewPropertyField(k, input, owner, urls, json, cents)
  }

  /** Whether any of the four numeric fields is below zero. */
  predicate AnyNegative(input: Row) {
    LessThanZero(Get(input, "bedrooms")) || LessThanZero(Get(input, "bathrooms"))
    || LessThanZero(Get(input, "size")) || LessThanZero(Get(input, "price"))
  }

  /** The end of a successful store: the property is inserted and its id answered. */
  function Created(db: Db, data: Row, now: int): (r: Served)
    ensures r.db == db.(properties := PropertyModel.Create(db.properties, data, now).0)
    ensures IsSuccess(r.out) && Carries(r.out, "property_id", Str(IntToString(db.properties.nextId)))
    ensures Carries(r.out, "message", Str("Property created successfully"))
  {
    var (t, id) := PropertyModel.Create(db.properties, data, now);
    Served(db.(properties := t), Ok(map["property_id" := id], Some("Property created successfully")))
  }

  /** The checks of store that precede the uploads: the body, the required fields and the signs. */
  function StoreInput(payload: Payload): (s: Step<Row>)
    ensures ReadInput(payload).Halt? ==> s == Halt(InvalidJson())
    ensures (ReadInput(payload).Next? && FirstMissing(ReadInput(payload).value, REQUIRED_FIELDS).Some?) ==>
              s == Halt(MissingFieldError(FirstMissing(ReadInput(payload).value, REQUIRED_FIELDS).value))
    ensures (ReadInput(payload).Next? && FirstMissing(ReadInput(payload).value, REQUIRED_FIELDS).None?
             && AnyNegative(ReadInput(payload).value)) ==> s == Halt(NegativeNumber())
    ensures s.Next? <==> ReadInput(payload).Next? && FirstMissing(ReadInput(payload).value, REQUIRED_FIELDS).None?
                         && !AnyNegative(ReadInput(payload).value)
    ensures s.Next? ==> s.value == ReadInput(payload).value
  {
    var read := ReadInput(payload);
    if read.Halt? then read
    else if FirstMissing(read.value, REQUIRED_FIELDS).Some? then Halt(MissingFieldError(FirstMissing(read.value, REQUIRED_FIELDS).value))
    else if AnyNegative(read.value) then Halt(NegativeNumber())
    else read
  }

  /**
   PropertiesController::store. The order of the checks: adminOnly, the JSON
   body, the eight required fields (so a 0 already fails there), no negative
   number, the image uploads; the new property belongs to the caller's `sub`,
   is available and features its first uploaded image.
   */
  function StoreProperty(db: Db, req: AuthMiddleware.Request, payload: Payload, uploads: seq<FileUpload.Upload>,
                         json: JsonCodec, cents: Val -> int, now: int): (r: Served)
    requires forall i :: 0 <= i < |uploads| ==> InRange(uploads[i].env.today)
    ensures RoleMiddleware.AdminOnly(req).Halt? ==> r == Served(db, RoleMiddleware.AdminOnly(req).out)
    ensures RoleMiddleware.AdminOnly(req).Next? && StoreInput(payload).Halt? ==> r == Served(db, StoreInput(payload).out)
    ensures (RoleMiddleware.AdminOnly(req).Next? && StoreInput(payload).Next? && FileUpload.UploadImages(uploads, IMAGE_DIR).Halt?) ==>
              r == Served(db, FileUpload.UploadImages(uploads, IMAGE_DIR).out)
    ensures (RoleMiddleware.AdminOnly(req).Next? && StoreInput(payload).Next? && FileUpload.UploadImages(uploads, IMAGE_DIR).Next?) ==>
              r == Created(db, NewPropertyData(StoreInput(payload).value, Get(RoleMiddleware.Caller(req), "sub"), FileUpload.UploadImages(uploads, IMAGE_DIR).value, json, cents), now)
  {
    var role := RoleMiddleware.AdminOnly(req);
    if role.Halt? then Served(db, role.out)
    else
      var input := StoreInput(payload);
      if input.Halt? then Served(db, input.out)
      else
        var urls := FileUpload.UploadImages(uploads, IMAGE_DIR);
        if urls.Halt? then Served(db, urls.out)
        else Created(db, NewPropertyData(input.value, Get(req.user.value, "sub"), urls.value, json, cents), now)
  }

  /** A required field of 0 is missing, so a property with no bedrooms cannot be created. */
  lemma ZeroIsMissing(input: Row, field: string)
    requires field in REQUIRED_FIELDS
    requires Get(input, field) == Int(0) || Get(input, field) == Str("0")
    ensures FirstMissing(input, REQUIRED_FIELDS).Some?
  {
    var i :| 0 <= i < |REQUIRED_FIELDS| && REQUIRED_FIELDS[i] == field;
  }

  /**
   One whitelisted field of update, as its column stores it: amenities
   given as a string are decoded and encoded again (`[]` when they do not
   decode), as an array encoded; the DECIMAL price is kept in cents by the
   same `cents` conversion store applies, and the INT counts by `intval`,
   so that updated and created properties compare alike; any other field
   is copied as it is.
   */
  function UpdateValue(field: string, v: Val, json: JsonCodec, cents: Val -> int): (r: Val)
    ensures field == "price" ==> r == Int(cents(v))
    ensures field in ["bedrooms", "bathrooms", "size"] ==> r == Int(IntVal(v))
    ensures field !in ["amenities", "price", "bedrooms", "bathrooms", "size"] ==> r == v
  {
    if field == "amenities" && v.Str? then Str(json.encode(OrElse(json.decode(v.s), List([]))))
    else if field == "amenities" && (v.List? || v.Arr?) then Str(json.encode(v))
    else if field == "price" then Int(cents(v))
    else if field in ["bedrooms", "bathrooms", "size"] then Int(IntVal(v))
    else v
  }

  /** The whitelisted part of `$updateData`: the fields of `fields` that are set, in order. */
  function WhitelistData(input: Row, fields: seq<string>, json: JsonCodec, cents: Val -> int): (a: Assoc)
    ensures |a| <= |fields|
    ensures forall i :: 0 <= i < |a| ==> a[i].0 in fields && IsSet(input, a[i].0)
                                         && a[i].1 == UpdateValue(a[i].0, input[a[i].0], json, cents)
  {
    if |fields| == 0 then []
    else
      var head: Assoc := if IsSet(input, fields[0]) then [(fields[0], UpdateValue(fields[0], input[fields[0]], json, cents))] else [];
      head + WhitelistData(input, fields[1..], json, cents)
  }

  /** Every whitelisted field that is set is copied. */
  lemma {:induction false} WhitelistComplete(input: Row, fields: seq<string>, json: JsonCodec, cents: Val -> int, k: string)
    requires k in fields && IsSet(input, k)
    ensures exists i :: 0 <= i < |WhitelistData(input, fields, json, cents)| && WhitelistData(input, fields, json, cents)[i].0 == k
  {
    var a := WhitelistData(input, fields, json, cents);
    if fields[0] == k {
      assert a[0].0 == k;
    } else {
      WhitelistComplete(input, fields[1..], json, cents, k);
      var rest := WhitelistData(input, fields[1..], json, cents);
      var i :| 0 <= i < |rest| && rest[i].0 == k;
      assert a[|a| - |rest| + i].0 == k;
    }
  }

  /** Distinct field names give distinct keys. */
  lemma {:induction false} WhitelistDistinct(input: Row, fields: seq<string>, json: JsonCodec, cents: Val -> int)
    requires forall i, j :: 0 <= i < j < |fields| ==> fields[i] != fields[j]
    ensures DistinctKeys(WhitelistData(input, fields, json, cents))
  {
    if |fields| > 0 {
      var tail := fields[1..];
      assert forall i, j :: 0 <= i < j < |tail| ==> tail[i] == fields[i + 1] && tail[j] == fields[j + 1];
      WhitelistDistinct(input, tail, json, cents);
      assert fields[0] !in tail;
    }
  }

  /** The images a property already has: its `images` column decoded, `[]` when absent or not a list. */
  function ExistingImages(property: Row, json: JsonCodec): seq<Val> {
    var v := Get(property, "images");
    if v.Null? then []
    else
      var d := json.decode(ToStr(v));
      if d.List? then d.items else []
  }

  /**
   The image part of update's `$updateData`: with files sent, `images` is
   the stored list followed by the new URLs, and `featured_image` the first
   of that combined list when there is one.
   */
  function ImageData(property: Row, sent: bool, urls: seq<string>, json: JsonCodec): (a: Assoc)
    ensures !sent ==> a == []
    ensures sent ==> |a| >= 1 && a[0] == ("images", Str(json.encode(List(ExistingImages(property, json) + StrList(urls)))))
    ensures sent && |ExistingImages(property, json) + StrList(urls)| > 0 ==>
              |a| == 2 && a[1] == ("featured_image", (ExistingImages(property, json) + StrList(urls))[0])
    ensures sent && |ExistingImages(property, json) + StrList(urls)| == 0 ==> |a| == 1
  {
    if !sent then []
    else
      var all := ExistingImages(property, json) + StrList(urls);
      [("images", Str(json.encode(List(all))))] + (if |all| > 0 then [("featured_image", all[0])] else [])
  }

  /** Everything update may write: the ten whitelisted fields, the images and the featured image. */
  predicate Updatable(k: string) {
    k in UPDATE_FIELDS || k == "images" || k == "featured_image"
  }

  /** The ten update fields are distinct. */
  lemma UpdateFieldsDistinct()
    ensures forall i, j :: 0 <= i < j < |UPDATE_FIELDS| ==> UPDATE_FIELDS[i] != UPDATE_FIELDS[j]
  {
  }

  /** The whole `$updateData` of update. */
  function UpdateData(property: Row, input: Row, sent: bool, urls: seq<string>, json: JsonCodec, cents: Val -> int): (a: Assoc)
    ensures forall i :: 0 <= i < |a| ==> Updatable(a[i].0)
    ensures DistinctKeys(a)
  {
    var w := WhitelistData(input, UPDATE_FIELDS, json, cents);
    var im := ImageData(property, sent, urls, json);
    UpdateFieldsDistinct();
    WhitelistDistinct(input, UPDATE_FIELDS, json, cents);
    assert forall i :: 0 <= i < |im| ==> im[i].0 == "images" || im[i].0 == "featured_image";
    assert "images" !in UPDATE_FIELDS && "featured_image" !in UPDATE_FIELDS;
    w + im
  }

  /** There is nothing to write exactly when no image was sent and no update field is set. */
  lemma UpdateDataEmpty(property: Row, input: Row, sent: bool, urls: seq<string>, json: JsonCodec, cents: Val -> int)
    ensures |UpdateData(property, input, sent, urls, json, cents)| == 0 <==> !sent && forall k :: k in UPDATE_FIELDS ==> !IsSet(input, k)
  {
    forall k | k in UPDATE_FIELDS && IsSet(input, k)
      ensures |WhitelistData(input, UPDATE_FIELDS, json, cents)| > 0 {
      WhitelistComplete(input, UPDATE_FIELDS, json, cents, k);
    }
    var w := WhitelistData(input, UPDATE_FIELDS, json, cents);
    var im := ImageData(property, sent, urls, json);
    assert UpdateData(property, input, sent, urls, json, cents) == w + im;
    if |w| > 0 {
      assert w[0].0 in UPDATE_FIELDS && IsSet(input, w[0].0);
    }
  }

  /** The properties table after update's write: none when there is nothing to change. */
  function PropertyWrite(t: Table, id: Val, data: Assoc, now: int): (t': Table)
    ensures |data| == 0 ==> t' == t
    ensures |data| > 0 ==> t' == PropertyModel.Update(t, id, data, now).value
  {
    if |data| == 0 then t else PropertyModel.Update(t, id, data, now).value
  }

  /** Whether the caller owns the property: the loose `owner_id == sub`. */
  predicate Owns(req: AuthMiddleware.Request, property: Row)
    requires RoleMiddleware.AdminOnly(req).Next?
  {
    LooseEq(Get(property, "owner_id"), Get(RoleMiddleware.Caller(req), "sub"))
  }

  /**
   The checks update and destroy share, in order: adminOnly, the property
   exists (404), the caller owns it (403); the property when all pass.
   */
  function OwnedProperty(db: Db, req: AuthMiddleware.Request, id: Val, action: string): (s: Step<Row>)
    ensures RoleMiddleware.AdminOnly(req).Halt? ==> s == Halt(RoleMiddleware.AdminOnly(req).out)
    ensures RoleMiddleware.AdminOnly(req).Next? && PropertyModel.Find(db.properties, id).None? ==>
              s == Halt(PropertyNotFound())
    ensures (RoleMiddleware.AdminOnly(req).Next? && PropertyModel.Find(db.properties, id).Some?
             && !Owns(req, PropertyModel.Find(db.properties, id).value)) ==>
              s == Halt(NotOwner(action))
    ensures s.Next? <==> RoleMiddleware.AdminOnly(req).Next? && PropertyModel.Find(db.properties, id).Some?
                         && Owns(req, PropertyModel.Find(db.properties, id).value)
    ensures s.Next? ==> s.value == PropertyModel.Find(db.properties, id).value
  {
    var role := RoleMiddleware.AdminOnly(req);
    if role.Halt? then Halt(role.out)
    else match PropertyModel.Find(db.properties, id)
      case None => Halt(PropertyNotFound())
      case Some(property) =>
        if !Owns(req, property) then Halt(NotOwner(action)) else Next(property)
  }

  /**
   PropertiesController::update. After the shared checks come the JSON body
   and the image uploads; then the whitelisted fields and the images are
   written, and only when there is something to write.
   */
  function Update(db: Db, req: AuthMiddleware.Request, id: Val, payload: Payload, uploads: seq<FileUpload.Upload>,
                  json: JsonCodec, cents: Val -> int, now: int): (r: Served)
    requires forall i :: 0 <= i < |uploads| ==> InRange(uploads[i].env.today)
    ensures OwnedProperty(db, req, id, "update").Halt? ==> r == Served(db, OwnedProperty(db, req, id, "update").out)
    ensures OwnedProperty(db, req, id, "update").Next? && ReadInput(payload).Halt? ==> r == Served(db, InvalidJson())
    ensures (OwnedProperty(db, req, id, "update").Next? && ReadInput(payload).Next? && FileUpload.UploadImages(uploads, IMAGE_DIR).Halt?) ==>
              r == Served(db, FileUpload.UploadImages(uploads, IMAGE_DIR).out)
    ensures (OwnedProperty(db, req, id, "update").Next? && ReadInput(payload).Next? && FileUpload.UploadImages(uploads, IMAGE_DIR).Next?) ==>
              && IsSuccess(r.out)
              && r.db == db.(properties := PropertyWrite(db.properties, id,
                   UpdateData(OwnedProperty(db, req, id, "update").value, ReadInput(payload).value,
                              |uploads| > 0, FileUpload.UploadImages(uploads, IMAGE_DIR).value, json, cents), now))
  {
    var owned := OwnedProperty(db, req, id, "update");
    if owned.Halt? then Served(db, owned.out)
    else
      var read := ReadInput(payload);
      if read.Halt? then Served(db, read.out)
      else
        var urls := FileUpload.UploadImages(uploads, IMAGE_DIR);
        if urls.Halt? then Served(db, urls.out)
        else
          var data := UpdateData(owned.value, read.value, |uploads| > 0, urls.value, json, cents);
          Served(db.(properties := PropertyWrite(db.properties, id, data, now)),
                 Ok(map[], Some("Property updated successfully")))
  }

  /** A write of updatable columns leaves every other column of every property as it was. */
  lemma WriteKeepsOtherColumns(t: Table, id: Val, data: Assoc, now: int, i: nat, k: string)
    requires forall j :: 0 <= j < |data| ==> Updatable(data[j].0)
    requires i < |t.rows| && !Updatable(k) && k != "updated_at"
    ensures i < |PropertyWrite(t, id, data, now).rows|
    ensures Get(PropertyWrite(t, id, data, now).rows[i], k) == Get(t.rows[i], k)
  {
    if |data| > 0 {
      assert k !in ToRow(data)["updated_at" := Int(now)];
    }
  }

  /**
   update writes only the whitelisted fields, the images and `updated_at`:
   in particular it never changes a property's owner.
   */
  lemma {:induction false} UpdateKeepsOtherColumns(db: Db, req: AuthMiddleware.Request, id: Val, payload: Payload, uploads: seq<FileUpload.Upload>,
                                json: JsonCodec, cents: Val -> int, now: int, i: nat, k: string)
    requires forall j :: 0 <= j < |uploads| ==> InRange(uploads[j].env.today)
    requires i < |db.properties.rows| && !Updatable(k) && k != "updated_at"
    ensures i < |Update(db, req, id, payload, uploads, json, cents, now).db.properties.rows|
    ensures Get(Update(db, req, id, payload, uploads, json, cents, now).db.properties.rows[i], k) == Get(db.properties.rows[i], k)
  {
    var owned := OwnedProperty(db, req, id, "update");
    if owned.Next? && ReadInput(payload).Next? && FileUpload.UploadImages(uploads, IMAGE_DIR).Next? {
      var data := UpdateData(owned.value, ReadInput(payload).value, |uploads| > 0, FileUpload.UploadImages(uploads, IMAGE_DIR).value, json, cents);
      WriteKeepsOtherColumns(db.properties, id, data, now, i, k);
    }
  }

  /** The owner of a property is never among the columns update writes. */
  lemma OwnerNotUpdatable()
    ensures !Updatable("owner_id") && "owner_id" != "updated_at"
  {
    assert "owner_id" !in UPDATE_FIELDS;
  }

  /**
   PropertiesController::destroy: after the shared checks the property is
   deleted; nothing stops the deletion of a property with tenants.
   */
  function Destroy(db: Db, req: AuthMiddleware.Request, id: Val): (r: Served)
    ensures OwnedProperty(db, req, id, "delete").Halt? ==> r == Served(db, OwnedProperty(db, req, id, "delete").out)
    ensures OwnedProperty(db, req, id, "delete").Next? ==>
              && IsSuccess(r.out)
              && r.db == db.(properties := PropertyModel.Delete(db.properties, id))
              && PropertyModel.Find(r.db.properties, id).None?
  {
    var owned := OwnedProperty(db, req, id, "delete");
    if owned.Halt? then Served(db, owned.out)
    else Served(db.(properties := PropertyModel.Delete(db.properties, id)), Ok(map[], Some("Property deleted successfully")))
  }

  /**
   As routed, nothing authenticates a request before store, update and
   destroy run adminOnly, so each answers 401 and writes nothing, whatever
   token the request carries.
   */
  lemma {:induction false} WritesNeedPriorAuthentication(db: Db, env: AuthMiddleware.Env, id: Val, payload: Payload, uploads: seq<FileUpload.Upload>,
                                      json: JsonCodec, cents: Val -> int, now: int)
    requires forall i :: 0 <= i < |uploads| ==> InRange(uploads[i].env.today)
    ensures var unauthenticated := Error("Authentication required", "UNAUTHORIZED", Arr(map[]), 401);
            && StoreProperty(db, AuthMiddleware.Begin(env), payload, uploads, json, cents, now) == Served(db, unauthenticated)
            && Update(db, AuthMiddleware.Begin(env), id, payload, uploads, json, cents, now) == Served(db, unauthenticated)
            && Destroy(db, AuthMiddleware.Begin(env), id) == Served(db, unauthenticated)
  {
    RoleMiddleware.FreshRequestUnauthenticated(env, [ROLE_ADMIN]);
  }

  /** The property store creates is found under the new id, holding the data it was given. */
  lemma CreatedThenFound(db: Db, data: Row, now: int)
    requires Keyed(db.properties)
    ensures PropertyModel.Find(Created(db, data, now).db.properties, Int(db.properties.nextId))
            == Some(PropertyModel.NewProperty(data, now)[PRIMARY_KEY := Int(db.properties.nextId)])
  {
    AddThenFind(db.properties, PropertyModel.NewProperty(data, now));
  }

  /** The row store inserts is the caller's, available, and features the first URL it is given. */
  lemma NewPropertyShape(input: Row, owner: Val, urls: seq<string>, json: JsonCodec, cents: Val -> int, now: int)
    ensures var row := PropertyModel.NewProperty(NewPropertyData(input, owner, urls, json, cents), now);
            && "owner_id" in row && row["owner_id"] == owner
            && "status" in row && row["status"] == Str(PROPERTY_AVAILABLE)
            && "featured_image" in row && row["featured_image"] == (if |urls| > 0 then Str(urls[0]) else Null)
  {
    var data := NewPropertyData(input, owner, urls, json, cents);
    var cols := PropertyModel.CREATE_COLUMNS;
    assert cols[0] == "owner_id" && cols[11] == "featured_image" && cols[12] == "status";
    var row := PropertyModel.NewProperty(data, now);
    assert row["owner_id"] == Get(data, "owner_id") == owner;
    assert row["status"] == Get(data, "status") == Str(PROPERTY_AVAILABLE);
    assert row["featured_image"] == Get(data, "featured_image");
  }

  /**
   A property created with a price is within a maximum price exactly when
   the price's cents do not exceed the maximum's: the stored price and the
   listing's bound are in one unit.
   */
  lemma CreatedPriceWithinMax(input: Row, owner: Val, urls: seq<string>, json: JsonCodec, cents: Val -> int, now: int, bound: Val)
    ensures var row := PropertyModel.NewProperty(NewPropertyData(input, owner, urls, json, cents), now);
            PropertyModel.Selected(map["max_price" := bound], row, cents) <==> !Truthy(bound) || cents(Get(input, "price")) <= cents(bound)
  {
    var data := NewPropertyData(input, owner, urls, json, cents);
    assert PropertyModel.CREATE_COLUMNS[8] == "price";
    var row := PropertyModel.NewProperty(data, now);
    assert Get(row, "price") == Get(data, "price") == Int(cents(Get(input, "price")));
    PropertyModel.PriceBoundsInCents(row, bound, cents);
  }

  /** store and update write a given price as the same value. */
  lemma OnePriceUnit(input: Row, owner: Val, urls: seq<string>, json: JsonCodec, cents: Val -> int)
    ensures NewPropertyField("price", input, owner, urls, json, cents) == UpdateValue("price", Get(input, "price"), json, cents)
  {
  }

  /** A successful store got through every check and inserted the data built from its input. */
  lemma {:induction false} StoreSucceeded(db: Db, req: AuthMiddleware.Request, payload: Payload, uploads: seq<FileUpload.Upload>,
                                          json: JsonCodec, cents: Val -> int, now: int)
    requires forall i :: 0 <= i < |uploads| ==> InRange(uploads[i].env.today)
    requires IsSuccess(StoreProperty(db, req, payload, uploads, json, cents, now).out)
    ensures RoleMiddleware.AdminOnly(req).Next? && StoreInput(payload).Next? && FileUpload.UploadImages(uploads, IMAGE_DIR).Next?
  {
  }

  /** A stored property is the caller's, available, and features the first image uploaded with it. */
  lemma {:induction false} StoredPropertyShape(db: Db, req: AuthMiddleware.Request, payload: Payload, uploads: seq<FileUpload.Upload>,
                                               json: JsonCodec, cents: Val -> int, now: int)
    requires forall i :: 0 <= i < |uploads| ==> InRange(uploads[i].env.today)
    requires Keyed(db.properties)
    requires IsSuccess(StoreProperty(db, req, payload, uploads, json, cents, now).out)
    ensures RoleMiddleware.AdminOnly(req).Next? && FileUpload.UploadImages(uploads, IMAGE_DIR).Next? && |FileUpload.UploadImages(uploads, IMAGE_DIR).value| == FileUpload.Sent(uploads)
    ensures var t := StoreProperty(db, req, payload, uploads, json, cents, now).db.properties;
            var p := PropertyModel.Find(t, Int(db.properties.nextId));
            && p.Some?
            && Get(p.value, "owner_id") == Get(RoleMiddleware.Caller(req), "sub")
            && Get(p.value, "status") == Str(PROPERTY_AVAILABLE)
            && Get(p.value, "featured_image") == (if FileUpload.Sent(uploads) > 0 then Str(FileUpload.UploadImages(uploads, IMAGE_DIR).value[0]) else Null)
  {
    StoreSucceeded(db, req, payload, uploads, json, cents, now);
    var urls := FileUpload.UploadImages(uploads, IMAGE_DIR).value;
    var data := NewPropertyData(StoreInput(payload).value, Get(RoleMiddleware.Caller(req), "sub"), urls, json, cents);
    CreatedThenFound(db, data, now);
    FileUpload.UploadImagesStored(uploads, IMAGE_DIR);
    NewPropertyShape(StoreInput(payload).value, Get(RoleMiddleware.Caller(req), "sub"), urls, json, cents, now);
  }
}
