/**
 UserController: the signed-in user's own profile. Every endpoint starts by
 authenticating; the profile is answered without the three secret columns
 the users migration declares. User::verifyPassword and
 User::updatePassword are not defined in User.php, so they are parameters.
 */
module UserController {
  import opened Text
  import opened Php
  import opened Wrappers
  import opened Http
  import opened Store
  import opened BaseModel
  import opened Validate
  import opened Dates
  import UserModel
  import AuthMiddleware
  import FileUpload

  /** The keys getProfile and updateProfile remove from the stored user. */
  const PROFILE_HIDDEN: set<string> := {"password_hash", "reset_token", "reset_token_expiry"}

  /** The two input fields updateProfile copies. */
  const PROFILE_FIELDS: seq<string> := ["full_name", "phone"]

  /** The two undefined User methods changePassword calls. */
  datatype PasswordOps = PasswordOps(verifyPassword: (Val, Val) -> bool, updatePassword: (Table, Val, Val) -> Table)

  function UserNotFound(): Outcome { Error("User not found", "NOT_FOUND", Arr(map[]), 404) }

  /** A stored user as the profile endpoints answer it. */
  function Profile(row: Row): (p: Row)
    ensures p.Keys == row.Keys - PROFILE_HIDDEN
    ensures forall k :: k in p ==> p[k] == row[k]
  {
    Without(row, PROFILE_HIDDEN)
  }

  /** The claims of an authenticated request. */
  function Claims(req: AuthMiddleware.Request): Row
    requires AuthMiddleware.Handle(req).Next?
  {
    AuthMiddleware.Handle(req).value.1
  }

  /** getProfile once authenticated: 404 for an unknown user, else its profile. */
  function ProfileAnswer(user: Option<Row>): (o: Outcome)
    ensures user.None? ==> o == UserNotFound()
    ensures user.Some? ==> IsSuccess(o) && Carries(o, "user", Arr(Profile(user.value)))
  {
    match user
    case None => UserNotFound()
    case Some(row) => Ok(map["user" := Arr(Profile(row))])
  }

  /**
   UserController::getProfile: authenticate, look the user up by the
   token's `sub`, and answer with that row less the hidden keys.
   */
  function GetProfile(db: Db, req: AuthMiddleware.Request): (o: Outcome)
    ensures AuthMiddleware.Handle(req).Halt? ==> o == AuthMiddleware.Handle(req).out
    ensures AuthMiddleware.Handle(req).Next? ==> o == ProfileAnswer(UserModel.FindUser(db.users, Get(Claims(req), "sub")))
  {
    var auth := AuthMiddleware.Handle(req);
    if auth.Halt? then auth.out
    else ProfileAnswer(UserModel.FindUser(db.users, Get(auth.value.1, "sub")))
  }

  /** `if (isset($input[$field])) $updateData[$field] = trim($input[$field])` for one whitelisted field. */
  function Trimmed(input: Row, field: string): (a: Assoc)
    ensures |a| <= 1
    ensures |a| == 1 <==> IsSet(input, field)
    ensures |a| == 1 ==> a[0] == (field, Str(PhpTrim(ToStr(input[field]))))
  {
    if IsSet(input, field) then [(field, Str(PhpTrim(ToStr(input[field]))))] else []
  }

  /**
   The `$updateData` of updateProfile: `full_name` and `phone` trimmed when
   set, then the avatar URL when an avatar was stored; no other key.
   */
  function UpdateData(input: Row, avatar: Option<FileUpload.Stored>): (a: Assoc)
    ensures forall i :: 0 <= i < |a| ==> a[i].0 in {"full_name", "phone", "avatar"}
    ensures |a| == 0 <==> !IsSet(input, "full_name") && !IsSet(input, "phone") && avatar.None?
    ensures DistinctKeys(a)
    ensures "id" !in ToRow(a)
    ensures "full_name" in ToRow(a) <==> IsSet(input, "full_name")
    ensures "phone" in ToRow(a) <==> IsSet(input, "phone")
    ensures "avatar" in ToRow(a) <==> avatar.Some?
    ensures IsSet(input, "full_name") ==> ToRow(a)["full_name"] == Str(PhpTrim(ToStr(input["full_name"])))
    ensures IsSet(input, "phone") ==> ToRow(a)["phone"] == Str(PhpTrim(ToStr(input["phone"])))
    ensures avatar.Some? ==> ToRow(a)["avatar"] == Str(avatar.value.url)
  {
    var av: Assoc := if avatar.Some? then [("avatar", Str(avatar.value.url))] else [];
    var t1, t2 := Trimmed(input, "full_name"), Trimmed(input, "phone");
    SlotsRow(t1, t2, av, "full_name", "phone", "avatar");
    t1 + t2 + av
  }

  /** Three slots of at most one entry each, under three different keys, read back as a row. */
  lemma SlotsRow(a: Assoc, b: Assoc, c: Assoc, ka: string, kb: string, kc: string)
    requires |a| <= 1 && |b| <= 1 && |c| <= 1
    requires ka != kb && kb != kc && ka != kc
    requires |a| == 1 ==> a[0].0 == ka
    requires |b| == 1 ==> b[0].0 == kb
    requires |c| == 1 ==> c[0].0 == kc
    ensures forall i :: 0 <= i < |a + b + c| ==> (a + b + c)[i].0 in {ka, kb, kc}
    ensures DistinctKeys(a + b + c)
    ensures forall k :: k in ToRow(a + b + c) ==> k in {ka, kb, kc}
    ensures ka in ToRow(a + b + c) <==> |a| == 1
    ensures kb in ToRow(a + b + c) <==> |b| == 1
    ensures kc in ToRow(a + b + c) <==> |c| == 1
    ensures |a| == 1 ==> ToRow(a + b + c)[ka] == a[0].1
    ensures |b| == 1 ==> ToRow(a + b + c)[kb] == b[0].1
    ensures |c| == 1 ==> ToRow(a + b + c)[kc] == c[0].1
  {
    var s := a + b + c;
    SlotKeys(a, b, c, ka, kb, kc);
    if |a| == 1 { KeyAt(s, 0, ka); } else { KeyAbsent(s, ka); }
    if |b| == 1 { KeyAt(s, |a|, kb); } else { KeyAbsent(s, kb); }
    if |c| == 1 { KeyAt(s, |a| + |b|, kc); } else { KeyAbsent(s, kc); }
  }

  /** Where each key sits in three concatenated slots. */
  lemma SlotKeys(a: Assoc, b: Assoc, c: Assoc, ka: string, kb: string, kc: string)
    requires |a| <= 1 && |b| <= 1 && |c| <= 1
    requires ka != kb && kb != kc && ka != kc
    requires |a| == 1 ==> a[0].0 == ka
    requires |b| == 1 ==> b[0].0 == kb
    requires |c| == 1 ==> c[0].0 == kc
    ensures forall i :: 0 <= i < |a + b + c| ==> (a + b + c)[i].0 in {ka, kb, kc}
    ensures forall i :: 0 <= i < |a + b + c| ==> ((a + b + c)[i].0 == ka <==> i < |a|)
    ensures forall i :: 0 <= i < |a + b + c| ==> ((a + b + c)[i].0 == kb <==> |a| <= i < |a| + |b|)
    ensures forall i :: 0 <= i < |a + b + c| ==> ((a + b + c)[i].0 == kc <==> |a| + |b| <= i)
    ensures DistinctKeys(a + b + c)
  {
    var s := a + b + c;
    forall i | 0 <= i < |s|
      ensures s[i].0 == (if i < |a| then ka else if i < |a| + |b| then kb else kc)
    {
      if i < |a| { assert s[i] == a[0]; }
      else if i < |a| + |b| { assert s[i] == b[i - |a|]; }
      else { assert s[i] == c[i - |a| - |b|]; }
    }
  }

  /** The avatar updateProfile tries to store: one sent without an upload error. */
  predicate AvatarSent(avatar: Option<FileUpload.File>) {
    avatar.Some? && avatar.value.error == FileUpload.UPLOAD_ERR_OK
  }

  /** The avatar upload of updateProfile: nothing to do, a stored file, or the response that ended the request. */
  function AvatarUpload(avatar: Option<FileUpload.File>, upload: FileUpload.Env): (s: Step<Option<FileUpload.Stored>>)
    requires InRange(upload.today)
    ensures !AvatarSent(avatar) ==> s == Next(None)
    ensures AvatarSent(avatar) && FileUpload.UploadImage(avatar.value, upload, "avatars").Halt? ==>
              s == Halt(FileUpload.UploadImage(avatar.value, upload, "avatars").out)
    ensures s.Next? && s.value.Some? ==>
              AvatarSent(avatar) && FileUpload.UploadImage(avatar.value, upload, "avatars") == Next(s.value.value)
    ensures s.Halt? ==> !IsSuccess(s.out)
  {
    if !AvatarSent(avatar) then Next(None)
    else
      var up := FileUpload.UploadImage(avatar.value, upload, "avatars");
      if up.Halt? then Halt(up.out) else Next(Some(up.value))
  }

  /** The stored user after an update, as updateProfile answers it: false when it is gone. */
  function ProfileValue(users: Table, sub: Val): Val {
    match UserModel.FindUser(users, sub)
    case None => Bool(false)
    case Some(user) => Arr(Profile(user))
  }

  /** `if (!empty($updateData)) $this->userModel->update(...)`: the tables after updateProfile's write. */
  function ProfileWrite(db: Db, sub: Val, data: Assoc, now: int): (db': Db)
    ensures |data| == 0 ==> db' == db
    ensures |data| > 0 ==> db' == db.(users := UserModel.Update(db.users, sub, data, now).value)
  {
    if |data| == 0 then db else db.(users := UserModel.Update(db.users, sub, data, now).value)
  }

  /**
   updateProfile once authenticated and past the upload: the write, then a
   success holding the user as re-read after it.
   */
  function ProfileUpdated(db: Db, sub: Val, data: Assoc, now: int): (r: Served)
    ensures r.db == ProfileWrite(db, sub, data, now)
    ensures IsSuccess(r.out)
    ensures Carries(r.out, "user", ProfileValue(r.db.users, sub))
    ensures Carries(r.out, "message", Str("Profile updated successfully"))
  {
    var db' := ProfileWrite(db, sub, data, now);
    Served(db', Ok(map["user" := ProfileValue(db'.users, sub)], Some("Profile updated successfully")))
  }

  /**
   UserController::updateProfile. An avatar sent without an upload error
   goes through uploadImage into `avatars`, whose failures end the request;
   the user is updated only when there is something to change, and the
   answer is the re-read user less the hidden keys.
   */
  function UpdateProfile(db: Db, req: AuthMiddleware.Request, body: Body,
                         avatar: Option<FileUpload.File>, upload: FileUpload.Env): (r: Served)
    requires InRange(upload.today)
    ensures AuthMiddleware.Handle(req).Halt? ==> r == Served(db, AuthMiddleware.Handle(req).out)
    ensures AuthMiddleware.Handle(req).Next? && AvatarUpload(avatar, upload).Halt? ==>
              r == Served(db, AvatarUpload(avatar, upload).out)
    ensures (AuthMiddleware.Handle(req).Next? && AvatarUpload(avatar, upload).Next?) ==>
              r == ProfileUpdated(db, Get(Claims(req), "sub"), UpdateData(Input(body), AvatarUpload(avatar, upload).value), req.env.now)
  {
    var auth := AuthMiddleware.Handle(req);
    if auth.Halt? then Served(db, auth.out)
    else
      var uploaded := AvatarUpload(avatar, upload);
      if uploaded.Halt? then Served(db, uploaded.out)
      else ProfileUpdated(db, Get(auth.value.1, "sub"), UpdateData(Input(body), uploaded.value), req.env.now)
  }

  const CHANGE_PASSWORD_FIELDS: seq<string> := ["current_password", "new_password"]

  /** A wrong current password: HTTP 401, yet with the code VALIDATION_ERROR. */
  function WrongPassword(): (o: Outcome)
    ensures IsError(o, "VALIDATION_ERROR", 401)
  {
    ErrorIsError("Current password is incorrect", "VALIDATION_ERROR", Arr(map[]), 401);
    Error("Current password is incorrect", "VALIDATION_ERROR", Arr(map[]), 401)
  }

  /** The hash changePassword verifies against: the user's `password_hash`, null when the user is missing. */
  function StoredHash(users: Table, sub: Val): Val {
    match UserModel.FindUser(users, sub)
    case None => Null
    case Some(user) => Get(user, "password_hash")
  }

  /**
   UserController::changePassword: both fields are required, the current
   password must verify (a mismatch is a 401 that still carries the code
   VALIDATION_ERROR), and the new password is stored with no length check.
   */
  function ChangePassword(db: Db, req: AuthMiddleware.Request, body: Body, ops: PasswordOps): (r: Served)
    ensures AuthMiddleware.Handle(req).Halt? ==> r == Served(db, AuthMiddleware.Handle(req).out)
    ensures (AuthMiddleware.Handle(req).Next?
             && FirstMissing(Input(body), CHANGE_PASSWORD_FIELDS).Some?) ==>
              r == Served(db, MissingFieldError(FirstMissing(Input(body), CHANGE_PASSWORD_FIELDS).value))
    ensures (AuthMiddleware.Handle(req).Next?
             && FirstMissing(Input(body), CHANGE_PASSWORD_FIELDS).None?
             && !ops.verifyPassword(Get(Input(body), "current_password"), StoredHash(db.users, Get(Claims(req), "sub")))) ==>
              r == Served(db, WrongPassword())
    ensures (AuthMiddleware.Handle(req).Next?
             && FirstMissing(Input(body), CHANGE_PASSWORD_FIELDS).None?
             && ops.verifyPassword(Get(Input(body), "current_password"), StoredHash(db.users, Get(Claims(req), "sub")))) ==>
              && IsSuccess(r.out)
              && r.db == db.(users := ops.updatePassword(db.users, Get(Claims(req), "sub"), Get(Input(body), "new_password")))
  {
    var auth := AuthMiddleware.Handle(req);
    if auth.Halt? then Served(db, auth.out)
    else
      var input := Input(body);
      var sub := Get(auth.value.1, "sub");
      if FirstMissing(input, CHANGE_PASSWORD_FIELDS).Some? then
        Served(db, MissingFieldError(FirstMissing(input, CHANGE_PASSWORD_FIELDS).value))
      else if !ops.verifyPassword(Get(input, "current_password"), StoredHash(db.users, sub)) then
        Served(db, WrongPassword())
      else
        Served(db.(users := ops.updatePassword(db.users, sub, Get(input, "new_password"))),
               Ok(map[], Some("Password changed successfully")))
  }

  /** What updateProfile answers is what getProfile answers right after it. */
  lemma UpdateThenGetAgree(db: Db, req: AuthMiddleware.Request, body: Body, avatar: Option<FileUpload.File>, upload: FileUpload.Env)
    requires InRange(upload.today)
    requires IsSuccess(UpdateProfile(db, req, body, avatar, upload).out)
    requires UserModel.FindUser(UpdateProfile(db, req, body, avatar, upload).db.users, Get(Claims(req), "sub")).Some?
    ensures var after := UpdateProfile(db, req, body, avatar, upload);
            && IsSuccess(GetProfile(after.db, req))
            && "user" in DataOf(after.out)
            && Carries(GetProfile(after.db, req), "user", DataOf(after.out)["user"])
  {
    var after := UpdateProfile(db, req, body, avatar, upload);
    assert AuthMiddleware.Handle(req).Next? && AvatarUpload(avatar, upload).Next?;
    var sub := Get(Claims(req), "sub");
    UpdatedProfileAgrees(db, sub, UpdateData(Input(body), AvatarUpload(avatar, upload).value), req.env.now);
  }

  /** After updateProfile's write, getProfile's answer holds the user updateProfile answered with. */
  lemma UpdatedProfileAgrees(db: Db, sub: Val, data: Assoc, now: int)
    requires UserModel.FindUser(ProfileUpdated(db, sub, data, now).db.users, sub).Some?
    ensures var after := ProfileUpdated(db, sub, data, now);
            && IsSuccess(ProfileAnswer(UserModel.FindUser(after.db.users, sub)))
            && Carries(ProfileAnswer(UserModel.FindUser(after.db.users, sub)), "user", DataOf(after.out)["user"])
  {
  }
}
