/**
 User: the users table. Datetime columns hold the clock's reading in
 seconds, so NOW() is the request's `now`.
 */
module UserModel {
  import opened Php
  import opened Wrappers
  import opened Rows
  import opened Sql
  import opened BaseModel

  /** The column User::create stores the password hash in. */
  const PASSWORD_COLUMN: string := "password"

  /** The column the users migration declares for it, and login reads. */
  const PASSWORD_HASH_COLUMN: string := "password_hash"

  /** The columns an INSERT of a user names, in User::create's order, given its password column. */
  function CreateColumns(passwordColumn: string): seq<string> {
    ["email", passwordColumn, "full_name", "phone", "role", "status"]
  }

  /** The columns User::create names. */
  const CREATE_COLUMNS: seq<string> := CreateColumns(PASSWORD_COLUMN)

  /** The columns getAll selects. */
  const LIST_COLUMNS: seq<string> := ["id", "email", "full_name", "phone", "role", "status", "created_at", "updated_at"]

  /** The columns getByRole selects. */
  const ROLE_COLUMNS: seq<string> := ["id", "email", "full_name", "phone", "role", "status", "created_at"]

  /** The columns of the users table as its migration declares them. */
  const SCHEMA_COLUMNS: set<string> := {
    "id", "full_name", "email", "password_hash", "phone", "role", "status", "avatar",
    "email_verified", "email_verification_token", "reset_token", "reset_token_expiry",
    "created_at", "updated_at"}

  /** The row User::create inserts for `data`, before the id is assigned. */
  function NewUser(data: Row, now: int, passwordColumn: string := PASSWORD_COLUMN): (r: Row)
    ensures r.Keys == (set k | k in CreateColumns(passwordColumn)) + {"created_at", "updated_at"}
    ensures forall k :: k in CreateColumns(passwordColumn) && k != "created_at" && k != "updated_at" ==> r[k] == Get(data, k)
    ensures r["created_at"] == Int(now) && r["updated_at"] == Int(now)
  {
    Project(data, CreateColumns(passwordColumn))["created_at" := Int(now)]["updated_at" := Int(now)]
  }

  /**
   User::create: inserts the six named fields with both timestamps at `now`,
   and returns the new id. `passwordColumn` is `password` as written.
   */
  function Create(t: Table, data: Row, now: int, passwordColumn: string := PASSWORD_COLUMN): (r: (Table, int))
    ensures r.1 == t.nextId && r.0.nextId == t.nextId + 1
    ensures r.0.rows == t.rows + [NewUser(data, now, passwordColumn)[PRIMARY_KEY := Int(r.1)]]
    ensures Keyed(t) ==> Keyed(r.0) && Find(r.0, Int(r.1)) == Some(NewUser(data, now, passwordColumn)[PRIMARY_KEY := Int(r.1)])
  {
    var row := NewUser(data, now, passwordColumn);
    if Keyed(t) then AddThenFind(t, row); Add(t, row)
    else Add(t, row)
  }

  /** User::find. */
  function FindUser(t: Table, id: Val): Option<Row> {
    Find(t, id)
  }

  /** `email = :email`. */
  function EmailIs(email: Val): Row -> bool {
    r => Holds(Get(r, "email"), Eq, email)
  }

  /** User::findByEmail: the first user whose email equals `email`, or nothing. */
  function FindByEmail(t: Table, email: Val): (r: Option<Row>)
    ensures r.Some? ==> r.value in t.rows && Holds(Get(r.value, "email"), Eq, email)
    ensures r.None? <==> forall i :: 0 <= i < |t.rows| ==> !Holds(Get(t.rows[i], "email"), Eq, email)
  {
    First(t.rows, EmailIs(email))
  }

  /** `reset_token = :token AND reset_token_expires > NOW()`. */
  function ResetTokenLive(token: Val, now: int): Row -> bool {
    r => Holds(Get(r, "reset_token"), Eq, token) && Holds(Get(r, "reset_token_expires"), Gt, Int(now))
  }

  /** User::findByResetToken: only a user holding that token whose expiry is strictly after now. */
  function FindByResetToken(t: Table, token: Val, now: int): (r: Option<Row>)
    ensures r.Some? ==> r.value in t.rows && Holds(Get(r.value, "reset_token"), Eq, token)
                        && Holds(Get(r.value, "reset_token_expires"), Gt, Int(now))
    ensures r.None? <==> forall i :: 0 <= i < |t.rows| ==> !ResetTokenLive(token, now)(t.rows[i])
  {
    First(t.rows, ResetTokenLive(token, now))
  }

  /**
   The value `:id` is bound to in User::update: the parameter array starts
   with `:id => $id`, and a data key `id` overwrites that entry.
   */
  function BoundId(id: Val, data: Assoc): (v: Val)
    ensures "id" !in ToRow(data) ==> v == id
  {
    var row := ToRow(data);
    if "id" in row then row["id"] else id
  }

  /**
   User::update: `SET k = :k, ..., updated_at = NOW() WHERE id = :id`.
   With no data the statement reads `SET , updated_at` and fails.
   */
  function Update(t: Table, id: Val, data: Assoc, now: int): (r: Option<Table>)
    ensures r.None? <==> |data| == 0
    ensures r.Some? ==> r.value.nextId == t.nextId && |r.value.rows| == |t.rows|
    ensures r.Some? && "id" !in ToRow(data) ==>
              forall i :: 0 <= i < |t.rows| ==>
                r.value.rows[i] == if HasKey(id)(t.rows[i]) then t.rows[i] + ToRow(data)["updated_at" := Int(now)] else t.rows[i]
  {
    if |data| == 0 then None
    else Some(UpdateById(t, BoundId(id, data), ToRow(data)["updated_at" := Int(now)]).0)
  }

  /**
   In a keyed table, an update of a user (by a data array without an `id`
   key) rewrites only the row carrying that id, with the given keys and a
   new `updated_at`; every other user stays as it was, so at most one row changes.
   */
  lemma UpdateChangesOnlyThatUser(t: Table, id: int, data: Assoc, now: int)
    requires Keyed(t) && |data| > 0 && "id" !in ToRow(data)
    ensures forall i :: 0 <= i < |t.rows| ==>
              Update(t, Int(id), data, now).value.rows[i] ==
                if t.rows[i][PRIMARY_KEY] == Int(id) then t.rows[i] + ToRow(data)["updated_at" := Int(now)] else t.rows[i]
    ensures forall i, j :: 0 <= i < j < |t.rows| && Update(t, Int(id), data, now).value.rows[i] != t.rows[i] ==>
              Update(t, Int(id), data, now).value.rows[j] == t.rows[j]
  {
    var u := Update(t, Int(id), data, now).value;
    var changes := ToRow(data)["updated_at" := Int(now)];
    KeyedHasAtMostOne(t, id);
    forall i | 0 <= i < |t.rows|
      ensures u.rows[i] == if t.rows[i][PRIMARY_KEY] == Int(id) then t.rows[i] + changes else t.rows[i]
    {
      assert HasKey(Int(id))(t.rows[i]) <==> t.rows[i][PRIMARY_KEY] == Int(id);
    }
    forall i, j | 0 <= i < j < |t.rows| && u.rows[i] != t.rows[i] ensures u.rows[j] == t.rows[j] {
      assert t.rows[i][PRIMARY_KEY] == Int(id);
      assert t.rows[i][PRIMARY_KEY] != t.rows[j][PRIMARY_KEY];
    }
  }

  /** User::updateLastLogin: `last_login_at = NOW()` on the rows with that id. */
  function UpdateLastLogin(t: Table, id: Val, now: int): (r: Table)
    ensures r.nextId == t.nextId && |r.rows| == |t.rows|
    ensures forall i :: 0 <= i < |t.rows| && !HasKey(id)(t.rows[i]) ==> r.rows[i] == t.rows[i]
    ensures forall i :: 0 <= i < |t.rows| && HasKey(id)(t.rows[i]) ==>
              r.rows[i] == t.rows[i]["last_login_at" := Int(now)]
  {
    UpdateById(t, id, map["last_login_at" := Int(now)]).0
  }

  /** User::delete. */
  function DeleteUser(t: Table, id: Val): (r: Table)
    ensures FindUser(r, id).None?
    ensures forall x :: x in r.rows <==> x in t.rows && !HasKey(id)(x)
  {
    Delete(t, id).0
  }

  /** User::getAll: one page of users with the eight listed columns; a negative LIMIT or OFFSET fails. */
  function GetAll(t: Table, limit: int, offset: int): (r: Option<seq<Row>>)
    ensures r.None? <==> limit < 0 || offset < 0
    ensures r.Some? ==> |r.value| <= limit
    ensures r.Some? ==> forall i :: 0 <= i < |r.value| ==> offset + i < |t.rows| && r.value[i] == Project(t.rows[offset + i], LIST_COLUMNS)
  {
    if limit < 0 || offset < 0 then None
    else
      var page := Page(t.rows, limit, offset);
      Some(seq(|page|, i requires 0 <= i < |page| => Project(page[i], LIST_COLUMNS)))
  }

  /** User::count. */
  function Count(t: Table): (n: nat)
    ensures n == |t.rows|
  {
    |t.rows|
  }

  /** `role = :role`. */
  function RoleIs(role: Val): Row -> bool {
    r => Holds(Get(r, "role"), Eq, role)
  }

  /** User::getByRole: the users with that role, with the seven listed columns. */
  function GetByRole(t: Table, role: Val): (r: seq<Row>)
    ensures |r| == |Filter(t.rows, RoleIs(role))|
    ensures forall i :: 0 <= i < |r| ==> r[i] == Project(Filter(t.rows, RoleIs(role))[i], ROLE_COLUMNS)
  {
    var hits := Filter(t.rows, RoleIs(role));
    seq(|hits|, i requires 0 <= i < |hits| => Project(hits[i], ROLE_COLUMNS))
  }

  /** Neither listing ever returns a password or a reset-token column. */
  lemma ListingsHideSecrets(t: Table, role: Val, limit: int, offset: int)
    ensures GetAll(t, limit, offset).Some? ==>
              forall i :: 0 <= i < |GetAll(t, limit, offset).value| ==>
                GetAll(t, limit, offset).value[i].Keys !! {"password", "password_hash", "reset_token", "reset_token_expires", "reset_token_expiry"}
    ensures forall i :: 0 <= i < |GetByRole(t, role)| ==>
              GetByRole(t, role)[i].Keys !! {"password", "password_hash", "reset_token", "reset_token_expires", "reset_token_expiry"}
  {
  }

  /**
   The code and the users migration disagree on three column names: create
   writes `password` and the reset flow uses `reset_token_expires`, which the
   migration does not declare, while it declares `password_hash` and
   `reset_token_expiry`.
   */
  lemma ColumnsOutsideSchema()
    ensures PASSWORD_COLUMN in CREATE_COLUMNS && PASSWORD_COLUMN !in SCHEMA_COLUMNS
    ensures "reset_token_expires" !in SCHEMA_COLUMNS && "reset_token_expiry" in SCHEMA_COLUMNS
    ensures PASSWORD_HASH_COLUMN in SCHEMA_COLUMNS && PASSWORD_HASH_COLUMN !in CREATE_COLUMNS
    ensures forall k :: k in CreateColumns(PASSWORD_HASH_COLUMN) ==> k in SCHEMA_COLUMNS
  {
  }
}
