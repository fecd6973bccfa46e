/**
 Properties of several endpoints used one after the other: what a user who
 has just registered sees of themselves.
 */
module Flows {
  import opened Text
  import opened Php
  import opened Wrappers
  import opened Http
  import opened Store
  import opened BaseModel
  import UserModel
  import AuthMiddleware
  import AuthController
  import UserController

  /** The profile row getProfile answers for the user just registered, with the hash stored under `passwordColumn`. */
  lemma RegisteredProfile(db: Db, req: AuthMiddleware.Request, body: Body, h: AuthController.Hasher,
                          isEmail: string -> bool, passwordColumn: string, viewer: AuthMiddleware.Request)
    requires passwordColumn !in {"email", "full_name", "phone", "role", "status", "created_at", "updated_at", "id"}
    requires Keyed(db.users) && AuthController.RegisterAccepts(db, body, isEmail)
    requires AuthMiddleware.Handle(viewer).Next? && Get(UserController.Claims(viewer), "sub") == Int(db.users.nextId)
    ensures UserController.GetProfile(AuthController.RegisterWith(db, req, body, h, isEmail, passwordColumn).db, viewer)
            == Ok(map["user" := Arr(UserController.Profile(AuthController.RegisteredRow(Input(body), h, passwordColumn, req.env.now, db.users.nextId)))])
  {
  }

  /** The profile hides the three secret columns only; `password` is not one of them. */
  lemma PasswordNotHidden()
    ensures UserModel.PASSWORD_COLUMN !in UserController.PROFILE_HIDDEN
  {
    var p := UserModel.PASSWORD_COLUMN;
    assert |p| == 8;
    assert p != "password_hash" && p != "reset_token_expiry";
    assert p[0] != "reset_token"[0];
  }

  /**
   As written, GET /users/me hands a newly registered user their password
   hash: register stores it under `password`, and getProfile removes only
   `password_hash`, `reset_token` and `reset_token_expiry`.
   */
  lemma ProfileShowsPasswordHash(db: Db, req: AuthMiddleware.Request, body: Body, h: AuthController.Hasher,
                                 isEmail: string -> bool, viewer: AuthMiddleware.Request)
    requires Keyed(db.users) && AuthController.RegisterAccepts(db, body, isEmail)
    requires AuthMiddleware.Handle(viewer).Next? && Get(UserController.Claims(viewer), "sub") == Int(db.users.nextId)
    ensures Carries(UserController.GetProfile(AuthController.Register(db, req, body, h, isEmail).db, viewer), "user",
                    Arr(UserController.Profile(AuthController.RegisteredRow(Input(body), h, UserModel.PASSWORD_COLUMN, req.env.now, db.users.nextId))))
    ensures var user := UserController.Profile(AuthController.RegisteredRow(Input(body), h, UserModel.PASSWORD_COLUMN, req.env.now, db.users.nextId));
            "password" in user && user["password"] == Str(h.hash(ToStr(Get(Input(body), "password"))))
  {
    assert UserModel.PASSWORD_COLUMN !in {"email", "full_name", "phone", "role", "status", "created_at", "updated_at", "id"};
    RegisteredProfile(db, req, body, h, isEmail, UserModel.PASSWORD_COLUMN, viewer);
    var row := AuthController.RegisteredRow(Input(body), h, UserModel.PASSWORD_COLUMN, req.env.now, db.users.nextId);
    PasswordNotHidden();
    assert "password" in row;
  }

  /**
   With the hash stored under `password_hash`, the profile a newly
   registered user sees carries no password column at all.
   */
  lemma CorrectedProfileHidesPasswordHash(db: Db, req: AuthMiddleware.Request, body: Body, h: AuthController.Hasher,
                                          isEmail: string -> bool, viewer: AuthMiddleware.Request)
    requires Keyed(db.users) && AuthController.RegisterAccepts(db, body, isEmail)
    requires AuthMiddleware.Handle(viewer).Next? && Get(UserController.Claims(viewer), "sub") == Int(db.users.nextId)
    ensures IsSuccess(UserController.GetProfile(AuthController.RegisterWith(db, req, body, h, isEmail, UserModel.PASSWORD_HASH_COLUMN).db, viewer))
    ensures var o := UserController.GetProfile(AuthController.RegisterWith(db, req, body, h, isEmail, UserModel.PASSWORD_HASH_COLUMN).db, viewer);
            "user" in DataOf(o) && DataOf(o)["user"].Arr?
            && "password" !in DataOf(o)["user"].fields && "password_hash" !in DataOf(o)["user"].fields
  {
    RegisteredProfile(db, req, body, h, isEmail, UserModel.PASSWORD_HASH_COLUMN, viewer);
    UserModel.ColumnsOutsideSchema();
    var row := AuthController.RegisteredRow(Input(body), h, UserModel.PASSWORD_HASH_COLUMN, req.env.now, db.users.nextId);
    assert "password" !in UserModel.CreateColumns(UserModel.PASSWORD_HASH_COLUMN);
    assert "password" !in row;
  }
}
