/**
 AuthController: registration, login, logout, the password-reset pair, and
 the current-user and token-refresh endpoints. Each is a function from the
 tables, the request and its decoded body to the tables after its writes
 and the response it ends with. bcrypt is the abstract `Hasher`, and the
 reset token's 32 random bytes are a parameter.
 */
module AuthController {
  import opened Text
  import opened Php
  import opened Wrappers
  import opened Http
  import opened Store
  import opened Rows
  import opened Sql
  import opened BaseModel
  import opened Validate
  import opened Constants
  import UserModel
  import AuthMiddleware
  import Jwt

  /** password_hash() and password_verify(). */
  datatype Hasher = Hasher(hash: string -> string, verify: (string, string) -> bool)

  /** A password verifies against its own hash, and nothing verifies against an empty hash. */
  ghost predicate Sound(h: Hasher) {
    && (forall p :: h.verify(p, h.hash(p)))
    && (forall p :: !h.verify(p, ""))
  }

  const REGISTER_FIELDS: seq<string> := ["email", "password", "full_name"]

  function InvalidEmail(): Outcome { Error("Invalid email format") }

  function ShortPassword(): Outcome { Error("Password must be at least 6 characters") }

  function EmailTaken(): Outcome { Error("Email already registered") }

  function CredentialsRequired(): Outcome { Error("Email and password are required") }

  function BadCredentials(): Outcome { Error("Invalid credentials", "UNAUTHORIZED", Arr(map[]), 401) }

  function Inactive(): Outcome { Error("Account is not active", "FORBIDDEN", Arr(map[]), 403) }

  const FORGOT_MESSAGE: string := "If the email exists, a reset link has been sent"

  /** `strlen($password) < 6`, counting UTF-8 bytes. */
  predicate TooShort(v: Val) { Utf8Len(ToStr(v)) < 6 }

  /** `$input['role'] ?? 'tenant'`: the requested role, not checked against any list. */
  function RequestedRole(input: Row): Val { Coalesce(input, "role", Str(ROLE_TENANT)) }

  /** The array register hands to User::create, the hash stored under `passwordColumn`. */
  function RegistrationData(input: Row, h: Hasher, passwordColumn: string): Row {
    map["email" := Str(PhpTrim(ToStr(Get(input, "email")))),
        passwordColumn := Str(h.hash(ToStr(Get(input, "password")))),
        "full_name" := Str(PhpTrim(ToStr(Get(input, "full_name")))),
        "phone" := Coalesce(input, "phone", Null),
        "role" := RequestedRole(input),
        "status" := Str(USER_ACTIVE)]
  }

  /** Every check of register passes: well-formed JSON, the three fields, a valid email, a long enough password, a new email. */
  predicate RegisterAccepts(db: Db, body: Body, isEmail: string -> bool) {
    var input := Input(body);
    && !JsonError(body)
    && FirstMissing(input, REGISTER_FIELDS).None?
    && isEmail(ToStr(Get(input, "email")))
    && !TooShort(Get(input, "password"))
    && UserModel.FindByEmail(db.users, Get(input, "email")).None?
  }

  /** The claims of the token register issues; `sub` is lastInsertId(), which PDO returns as a string. */
  function RegisteredClaims(id: int, input: Row): (c: Row)
    ensures c.Keys == {"sub", "email", "full_name", "role"}
  {
    map["sub" := Str(IntToString(id)), "email" := Get(input, "email"),
        "full_name" := Get(input, "full_name"), "role" := RequestedRole(input)]
  }

  /** The success register answers with, once the user is stored under `id`. */
  function Registered(req: AuthMiddleware.Request, input: Row, id: int): (o: Outcome)
    ensures IsSuccess(o)
    ensures Carries(o, "token", Str(AuthMiddleware.GenerateToken(req.env, RegisteredClaims(id, input))))
    ensures Carries(o, "message", Str("Registration successful"))
  {
    var user := map["id" := Str(IntToString(id)), "email" := Get(input, "email"),
                    "full_name" := Get(input, "full_name"), "role" := RequestedRole(input)];
    Ok(map["user" := Arr(user), "token" := Str(AuthMiddleware.GenerateToken(req.env, RegisteredClaims(id, input)))],
       Some("Registration successful"))
  }

  /**
   The checks of register in their order: well-formed JSON, the three
   fields, a valid email, a long enough password, then an email no one holds.
   */
  function RegisterCheck(db: Db, body: Body, isEmail: string -> bool): (s: Step<bool>)
    ensures JsonError(body) ==> s == Halt(InvalidJson())
    ensures !JsonError(body) && FirstMissing(Input(body), REGISTER_FIELDS).Some? ==>
              s == Halt(MissingFieldError(FirstMissing(Input(body), REGISTER_FIELDS).value))
    ensures (!JsonError(body) && FirstMissing(Input(body), REGISTER_FIELDS).None?
             && !isEmail(ToStr(Get(Input(body), "email")))) ==> s == Halt(InvalidEmail())
    ensures (!JsonError(body) && FirstMissing(Input(body), REGISTER_FIELDS).None? && isEmail(ToStr(Get(Input(body), "email")))
             && TooShort(Get(Input(body), "password"))) ==> s == Halt(ShortPassword())
    ensures (!JsonError(body) && FirstMissing(Input(body), REGISTER_FIELDS).None? && isEmail(ToStr(Get(Input(body), "email")))
             && !TooShort(Get(Input(body), "password"))
             && UserModel.FindByEmail(db.users, Get(Input(body), "email")).Some?) ==> s == Halt(EmailTaken())
    ensures s.Next? <==> RegisterAccepts(db, body, isEmail)
    ensures s.Halt? ==> IsError(s.out, "VALIDATION_ERROR", 400)
  {
    var input := Input(body);
    if JsonError(body) then Halt(InvalidJson())
    else if FirstMissing(input, REGISTER_FIELDS).Some? then
      var field := FirstMissing(input, REGISTER_FIELDS).value;
      Halt(MissingFieldError(field))
    else if !isEmail(ToStr(Get(input, "email"))) then Halt(InvalidEmail())
    else if TooShort(Get(input, "password")) then Halt(ShortPassword())
    else if UserModel.FindByEmail(db.users, Get(input, "email")).Some? then Halt(EmailTaken())
    else Next(true)
  }

  /**
   AuthController::register, storing the hash under `passwordColumn`
   (`password` as written). The first failing check answers with
   VALIDATION_ERROR and stores nothing; a new user is stored only when all
   pass, and the answer is then a success at HTTP 200 (the 201 argument is
   dropped).
   */
  function RegisterWith(db: Db, req: AuthMiddleware.Request, body: Body, h: Hasher,
                        isEmail: string -> bool, passwordColumn: string): (r: Served)
    ensures RegisterCheck(db, body, isEmail).Halt? ==> r == Served(db, RegisterCheck(db, body, isEmail).out)
    ensures RegisterAccepts(db, body, isEmail) ==>
              && IsSuccess(r.out)
              && r.db == db.(users := UserModel.Create(db.users, RegistrationData(Input(body), h, passwordColumn), req.env.now, passwordColumn).0)
              && Carries(r.out, "token", Str(AuthMiddleware.GenerateToken(req.env, RegisteredClaims(db.users.nextId, Input(body)))))
    ensures !RegisterAccepts(db, body, isEmail) ==> r.db == db && IsError(r.out, "VALIDATION_ERROR", 400)
  {
    var check := RegisterCheck(db, body, isEmail);
    if check.Halt? then Served(db, check.out)
    else
      var input := Input(body);
      var (users, id) := UserModel.Create(db.users, RegistrationData(input, h, passwordColumn), req.env.now, passwordColumn);
      Served(db.(users := users), Registered(req, input, id))
  }

  /** AuthController::register as written: the hash goes to a `password` column. */
  function Register(db: Db, req: AuthMiddleware.Request, body: Body, h: Hasher, isEmail: string -> bool): Served {
    RegisterWith(db, req, body, h, isEmail, UserModel.PASSWORD_COLUMN)
  }

  /** The claims of the token login issues, read from the stored user. */
  function LoginClaims(user: Row): (c: Row)
    ensures c.Keys == {"sub", "email", "full_name", "role"}
    ensures c["sub"] == Get(user, "id") && c["role"] == Get(user, "role")
  {
    map["sub" := Get(user, "id"), "email" := Get(user, "email"),
        "full_name" := Get(user, "full_name"), "role" := Get(user, "role")]
  }

  /** Whether the supplied password verifies against the hash login reads. */
  predicate PasswordMatches(input: Row, user: Row, h: Hasher, passwordColumn: string) {
    h.verify(ToStr(Get(input, "password")), ToStr(Get(user, passwordColumn)))
  }

  /** The success login answers with, for the stored `user`. */
  function LoggedIn(req: AuthMiddleware.Request, user: Row): (o: Outcome)
    ensures IsSuccess(o)
    ensures Carries(o, "token", Str(AuthMiddleware.GenerateToken(req.env, LoginClaims(user))))
    ensures Carries(o, "message", Str("Login successful"))
  {
    var view := map["id" := Get(user, "id"), "email" := Get(user, "email"), "full_name" := Get(user, "full_name"),
                    "role" := Get(user, "role"), "phone" := Get(user, "phone")];
    Ok(map["user" := Arr(view), "token" := Str(AuthMiddleware.GenerateToken(req.env, LoginClaims(user)))], Some("Login successful"))
  }

  /** The user login finds for the body's email. */
  function LoginCandidate(db: Db, body: Body): Option<Row> {
    UserModel.FindByEmail(db.users, Get(Input(body), "email"))
  }

  /** The body passes the JSON and presence checks of login. */
  predicate LoginWellFormed(body: Body) {
    !JsonError(body) && Truthy(Get(Input(body), "email")) && Truthy(Get(Input(body), "password"))
  }

  /**
   AuthController::login, reading the hash from `passwordColumn`
   (`password_hash` as written). An unknown email and a wrong password give
   the same 401; the status is checked only after the password; the token
   and the last-login stamp come only after both checks.
   */
  function LoginWith(db: Db, req: AuthMiddleware.Request, body: Body, h: Hasher, passwordColumn: string): (r: Served)
    ensures JsonError(body) ==> r == Served(db, InvalidJson())
    ensures !JsonError(body) && !LoginWellFormed(body) ==> r == Served(db, CredentialsRequired())
    ensures LoginWellFormed(body) && LoginCandidate(db, body).None? ==> r == Served(db, BadCredentials())
    ensures (LoginWellFormed(body) && LoginCandidate(db, body).Some?
             && !PasswordMatches(Input(body), LoginCandidate(db, body).value, h, passwordColumn)) ==> r == Served(db, BadCredentials())
    ensures (LoginWellFormed(body) && LoginCandidate(db, body).Some?
             && PasswordMatches(Input(body), LoginCandidate(db, body).value, h, passwordColumn)
             && Get(LoginCandidate(db, body).value, "status") != Str(USER_ACTIVE)) ==> r == Served(db, Inactive())
    ensures (LoginWellFormed(body) && LoginCandidate(db, body).Some?
             && PasswordMatches(Input(body), LoginCandidate(db, body).value, h, passwordColumn)
             && Get(LoginCandidate(db, body).value, "status") == Str(USER_ACTIVE)) ==>
              && IsSuccess(r.out)
              && Carries(r.out, "token", Str(AuthMiddleware.GenerateToken(req.env, LoginClaims(LoginCandidate(db, body).value))))
              && r.db == db.(users := UserModel.UpdateLastLogin(db.users, Get(LoginCandidate(db, body).value, "id"), req.env.now))
    ensures !IsSuccess(r.out) ==> r.db == db
  {
    var input := Input(body);
    if JsonError(body) then Served(db, InvalidJson())
    else if !LoginWellFormed(body) then Served(db, CredentialsRequired())
    else match LoginCandidate(db, body)
      case None => Served(db, BadCredentials())
      case Some(user) =>
        if !PasswordMatches(input, user, h, passwordColumn) then Served(db, BadCredentials())
        else if Get(user, "status") != Str(USER_ACTIVE) then Served(db, Inactive())
        else Served(db.(users := UserModel.UpdateLastLogin(db.users, Get(user, "id"), req.env.now)), LoggedIn(req, user))
  }

  /** AuthController::login as written: the hash is read from `password_hash`. */
  function Login(db: Db, req: AuthMiddleware.Request, body: Body, h: Hasher): Served {
    LoginWith(db, req, body, h, UserModel.PASSWORD_HASH_COLUMN)
  }

  /** AuthController::logout: always the same success, whoever asks. */
  function Logout(req: AuthMiddleware.Request): (o: Outcome)
    ensures IsSuccess(o) && DataOf(o) == map["message" := Str("Logout successful")]
  {
    Ok(map[], Some("Logout successful"))
  }

  /** The reset token: bin2hex of the 32 random bytes. */
  predicate IsEntropy(bytes: seq<int>) {
    |bytes| == 32 && forall i :: 0 <= i < |bytes| ==> IsByte(bytes[i])
  }

  /** The update forgotPassword issues: the token and an expiry one hour on. */
  function ResetRequest(token: string, now: int): (a: Assoc)
    ensures |a| > 0 && "id" !in ToRow(a)
  {
    [("reset_token", Str(token)), ("reset_token_expires", Int(now + 3600))]
  }

  /** The user forgotPassword looks up for the body's email. */
  function ForgotCandidate(db: Db, body: Body): Option<Row> {
    UserModel.FindByEmail(db.users, Get(Input(body), "email"))
  }

  /**
   AuthController::forgotPassword. Whether or not the email is known, the
   answer is the same success message; only a known account gets a stored
   64-digit hexadecimal token valid for an hour, which is also echoed back.
   */
  function ForgotPassword(db: Db, req: AuthMiddleware.Request, body: Body, entropy: seq<int>): (r: Served)
    requires IsEntropy(entropy)
    ensures Empty(Get(Input(body), "email")) ==> r == Served(db, Error("Email is required"))
    ensures !Empty(Get(Input(body), "email")) ==> IsSuccess(r.out) && Carries(r.out, "message", Str(FORGOT_MESSAGE))
    ensures !Empty(Get(Input(body), "email")) && ForgotCandidate(db, body).None? ==> r == Served(db, ForgotAcknowledged())
    ensures !Empty(Get(Input(body), "email")) && ForgotCandidate(db, body).Some? ==>
              && |Bin2Hex(entropy)| == 64
              && r.out == ResetIssued(Bin2Hex(entropy))
              && r.db == db.(users := UserModel.Update(db.users, Get(ForgotCandidate(db, body).value, "id"),
                                                      ResetRequest(Bin2Hex(entropy), req.env.now), req.env.now).value)
  {
    if Empty(Get(Input(body), "email")) then Served(db, Error("Email is required"))
    else match ForgotCandidate(db, body)
      case None => Served(db, ForgotAcknowledged())
      case Some(user) =>
        var token := Bin2Hex(entropy);
        var users := UserModel.Update(db.users, Get(user, "id"), ResetRequest(token, req.env.now), req.env.now).value;
        Served(db.(users := users), ResetIssued(token))
  }

  /** forgotPassword's answer when no user has the email: the same message, and nothing else. */
  function ForgotAcknowledged(): (o: Outcome)
    ensures IsSuccess(o) && Carries(o, "message", Str(FORGOT_MESSAGE)) && !("reset_token" in DataOf(o))
  {
    Ok(map[], Some(FORGOT_MESSAGE))
  }

  /** forgotPassword's answer once the token is stored: the message and, as written, the token itself. */
  function ResetIssued(token: string): (o: Outcome)
    ensures IsSuccess(o) && Carries(o, "message", Str(FORGOT_MESSAGE)) && Carries(o, "reset_token", Str(token))
  {
    Ok(map["reset_token" := Str(token)], Some(FORGOT_MESSAGE))
  }

  function ResetFieldsRequired(): Outcome { Error("Token and new password are required") }

  function BadResetToken(): Outcome { Error("Invalid or expired reset token") }

  function ResetTokenExpired(): Outcome { Error("Reset token has expired") }

  function ResetSucceeded(): (o: Outcome)
    ensures IsSuccess(o)
  {
    Ok(map[], Some("Password reset successful"))
  }

  /** The update resetPassword issues: the new hash, and both reset columns cleared together. */
  function ResetDone(hash: string, passwordColumn: string): (a: Assoc)
    requires passwordColumn != "id"
    ensures |a| > 0 && "id" !in ToRow(a)
  {
    [(passwordColumn, Str(hash)), ("reset_token", Null), ("reset_token_expires", Null)]
  }

  /** The body passes the presence and length checks of resetPassword. */
  predicate ResetWellFormed(body: Body) {
    Truthy(Get(Input(body), "token")) && Truthy(Get(Input(body), "password")) && !TooShort(Get(Input(body), "password"))
  }

  /** The user resetPassword finds for the body's token at the request's time. */
  function ResetCandidate(db: Db, req: AuthMiddleware.Request, body: Body): Option<Row> {
    UserModel.FindByResetToken(db.users, Get(Input(body), "token"), req.env.now)
  }

  /**
   AuthController::resetPassword, writing the new hash to `passwordColumn`
   (`password` as written): both fields, then the length, then a live
   token, then the expiry again; on success the hash is replaced and both
   reset columns are cleared in the same update.
   */
  function ResetPasswordWith(db: Db, req: AuthMiddleware.Request, body: Body, h: Hasher, passwordColumn: string): (r: Served)
    requires passwordColumn != "id"
    ensures !(Truthy(Get(Input(body), "token")) && Truthy(Get(Input(body), "password"))) ==> r == Served(db, ResetFieldsRequired())
    ensures (Truthy(Get(Input(body), "token")) && Truthy(Get(Input(body), "password"))
             && TooShort(Get(Input(body), "password"))) ==> r == Served(db, ShortPassword())
    ensures ResetWellFormed(body) && ResetCandidate(db, req, body).None? ==> r == Served(db, BadResetToken())
    ensures ResetWellFormed(body) && ResetCandidate(db, req, body).Some? ==>
              && r.out == ResetSucceeded()
              && r.db == db.(users := UserModel.Update(db.users, Get(ResetCandidate(db, req, body).value, "id"),
                                ResetDone(h.hash(ToStr(Get(Input(body), "password"))), passwordColumn), req.env.now).value)
  {
    var input := Input(body);
    if !(Truthy(Get(input, "token")) && Truthy(Get(input, "password"))) then Served(db, ResetFieldsRequired())
    else if TooShort(Get(input, "password")) then Served(db, ShortPassword())
    else match ResetCandidate(db, req, body)
      case None => Served(db, BadResetToken())
      case Some(user) =>
        // strtotime() of the stored expiry is its reading in seconds
        if Number(Get(user, "reset_token_expires")) < req.env.now then
          ExpiryCheckUnreachable(user, req.env.now);
          Served(db, ResetTokenExpired())
        else
          var hash := h.hash(ToStr(Get(input, "password")));
          var users := UserModel.Update(db.users, Get(user, "id"), ResetDone(hash, passwordColumn), req.env.now).value;
          Served(db.(users := users), ResetSucceeded())
  }

  /** A user findByResetToken returns never fails the later expiry comparison. */
  lemma ExpiryCheckUnreachable(user: Row, now: int)
    requires Holds(Get(user, "reset_token_expires"), Gt, Int(now))
    ensures !(Number(Get(user, "reset_token_expires")) < now)
  {
  }

  /** AuthController::resetPassword as written. */
  function ResetPassword(db: Db, req: AuthMiddleware.Request, body: Body, h: Hasher): Served {
    ResetPasswordWith(db, req, body, h, UserModel.PASSWORD_COLUMN)
  }

  /** The keys `me` removes from the user before answering. */
  const ME_HIDDEN: set<string> := {"password", "reset_token", "reset_token_expires"}

  function UserNotFound(): Outcome { Error("User not found", "NOT_FOUND", Arr(map[]), 404) }

  /** The user `me` looks up: the one whose id is the token's `sub`. */
  function MeCandidate(db: Db, claims: Row): Option<Row> {
    UserModel.FindUser(db.users, Get(claims, "sub"))
  }

  /** me once authenticated: 404 for an unknown user, else the row less the hidden keys. */
  function MeAnswer(candidate: Option<Row>): (o: Outcome)
    ensures candidate.None? ==> o == UserNotFound()
    ensures candidate.Some? ==> IsSuccess(o) && Carries(o, "user", Arr(Without(candidate.value, ME_HIDDEN)))
  {
    match candidate
    case None => UserNotFound()
    case Some(user) => Ok(map["user" := Arr(Without(user, ME_HIDDEN))])
  }

  /**
   AuthController::me: authenticate, look the user up by the token's `sub`,
   and answer with the stored row less exactly the three hidden keys.
   */
  function Me(db: Db, req: AuthMiddleware.Request): (o: Outcome)
    ensures AuthMiddleware.Handle(req).Halt? ==> o == AuthMiddleware.Handle(req).out
    ensures AuthMiddleware.Handle(req).Next? ==> o == MeAnswer(MeCandidate(db, AuthMiddleware.Handle(req).value.1))
  {
    var auth := AuthMiddleware.RequireAuth(req);
    if auth.Halt? then auth.out else MeAnswer(MeCandidate(db, auth.value.1))
  }

  /** The claims `refresh` re-signs: the four identity claims of the current token. */
  function RefreshClaims(claims: Row): (c: Row)
    ensures c.Keys == {"sub", "email", "full_name", "role"}
    ensures forall k :: k in c ==> c[k] == Get(claims, k)
  {
    map["sub" := Get(claims, "sub"), "email" := Get(claims, "email"),
        "full_name" := Get(claims, "full_name"), "role" := Get(claims, "role")]
  }

  /** refresh once authenticated: a success holding a token over the identity claims. */
  function RefreshAnswer(env: AuthMiddleware.Env, claims: Row): (o: Outcome)
    ensures IsSuccess(o) && Carries(o, "token", Str(AuthMiddleware.GenerateToken(env, RefreshClaims(claims))))
  {
    Ok(map["token" := Str(AuthMiddleware.GenerateToken(env, RefreshClaims(claims)))], Some("Token refreshed successfully"))
  }

  /** AuthController::refresh: a new token over the same identity claims, stamped at the current time. */
  function Refresh(req: AuthMiddleware.Request): (o: Outcome)
    ensures AuthMiddleware.Handle(req).Halt? ==> o == AuthMiddleware.Handle(req).out
    ensures AuthMiddleware.Handle(req).Next? ==> o == RefreshAnswer(req.env, AuthMiddleware.Handle(req).value.1)
  {
    var auth := AuthMiddleware.RequireAuth(req);
    if auth.Halt? then auth.out else RefreshAnswer(req.env, auth.value.1)
  }

  /** The row a registration stores, as find() and findByEmail() later return it. */
  function RegisteredRow(input: Row, h: Hasher, passwordColumn: string, now: int, id: int): (row: Row)
    requires passwordColumn !in {"email", "full_name", "phone", "role", "status", "created_at", "updated_at", "id"}
    ensures Get(row, "email") == Str(PhpTrim(ToStr(Get(input, "email"))))
    ensures Get(row, "status") == Str(USER_ACTIVE)
    ensures Get(row, passwordColumn) == Str(h.hash(ToStr(Get(input, "password"))))
    ensures forall k :: k !in UserModel.CreateColumns(passwordColumn) && k !in {"created_at", "updated_at", "id"} ==> k !in row
  {
    RegisteredFields(input, h, passwordColumn, now);
    UserModel.NewUser(RegistrationData(input, h, passwordColumn), now, passwordColumn)[PRIMARY_KEY := Int(id)]
  }

  /** The stored fields of a registration before its id is assigned. */
  lemma RegisteredFields(input: Row, h: Hasher, passwordColumn: string, now: int)
    requires passwordColumn !in {"email", "full_name", "phone", "role", "status", "created_at", "updated_at", "id"}
    ensures var base := UserModel.NewUser(RegistrationData(input, h, passwordColumn), now, passwordColumn);
            && Get(base, "email") == Str(PhpTrim(ToStr(Get(input, "email"))))
            && Get(base, "status") == Str(USER_ACTIVE)
            && Get(base, passwordColumn) == Str(h.hash(ToStr(Get(input, "password"))))
  {
    var data := RegistrationData(input, h, passwordColumn);
    var cols := UserModel.CreateColumns(passwordColumn);
    assert cols[0] == "email" && cols[1] == passwordColumn && cols[5] == "status";
    assert data["email"] == Str(PhpTrim(ToStr(Get(input, "email"))));
    assert data["status"] == Str(USER_ACTIVE);
    assert data[passwordColumn] == Str(h.hash(ToStr(Get(input, "password"))));
  }

  /** A user created under an email no one holds yet is the one findByEmail returns for it. */
  lemma NewUserIsFound(users: Table, input: Row, h: Hasher, passwordColumn: string, now: int)
    requires passwordColumn !in {"email", "full_name", "phone", "role", "status", "created_at", "updated_at", "id"}
    requires Get(input, "email").Str? && PhpTrim(Get(input, "email").s) == Get(input, "email").s
    requires UserModel.FindByEmail(users, Get(input, "email")).None?
    ensures UserModel.FindByEmail(UserModel.Create(users, RegistrationData(input, h, passwordColumn), now, passwordColumn).0, Get(input, "email"))
            == Some(RegisteredRow(input, h, passwordColumn, now, users.nextId))
  {
    var e := Get(input, "email");
    var row := RegisteredRow(input, h, passwordColumn, now, users.nextId);
    var after := UserModel.Create(users, RegistrationData(input, h, passwordColumn), now, passwordColumn).0;
    assert after.rows == users.rows + [row];
    assert UserModel.EmailIs(e)(row) by {
      assert Get(row, "email") == e;
      StrEqHolds(e.s, e.s);
    }
    assert forall i :: 0 <= i < |users.rows| ==> !UserModel.EmailIs(e)(users.rows[i]);
    FirstAfterNone(users.rows, row, UserModel.EmailIs(e));
  }

  /**
   After a successful registration with an already-trimmed email, login
   with the same body gets past the presence checks and finds exactly the
   row just stored.
   */
  lemma RegisteredUserIsFound(db: Db, req: AuthMiddleware.Request, body: Body, h: Hasher, isEmail: string -> bool, passwordColumn: string)
    requires RegisterAccepts(db, body, isEmail)
    requires passwordColumn !in {"email", "full_name", "phone", "role", "status", "created_at", "updated_at", "id"}
    requires Get(Input(body), "email").Str? && PhpTrim(Get(Input(body), "email").s) == Get(Input(body), "email").s
    ensures IsSuccess(RegisterWith(db, req, body, h, isEmail, passwordColumn).out)
    ensures LoginWellFormed(body)
    ensures LoginCandidate(RegisterWith(db, req, body, h, isEmail, passwordColumn).db, body)
            == Some(RegisteredRow(Input(body), h, passwordColumn, req.env.now, db.users.nextId))
  {
    var input := Input(body);
    assert !Empty(Get(input, REGISTER_FIELDS[0])) && !Empty(Get(input, REGISTER_FIELDS[1]));
    NewUserIsFound(db.users, input, h, passwordColumn, req.env.now);
  }

  /**
   As written, a user who has just registered cannot log in: register
   stores the hash under `password`, login verifies against
   `password_hash`, which the new row does not have.
   */
  lemma RegisteredUserCannotLogIn(db: Db, req: AuthMiddleware.Request, body: Body, h: Hasher, isEmail: string -> bool)
    requires Sound(h)
    requires RegisterAccepts(db, body, isEmail)
    requires Get(Input(body), "email").Str? && PhpTrim(Get(Input(body), "email").s) == Get(Input(body), "email").s
    ensures IsSuccess(Register(db, req, body, h, isEmail).out)
    ensures Login(Register(db, req, body, h, isEmail).db, req, body, h) == Served(Register(db, req, body, h, isEmail).db, BadCredentials())
  {
    RegisteredUserIsFound(db, req, body, h, isEmail, UserModel.PASSWORD_COLUMN);
    var row := RegisteredRow(Input(body), h, UserModel.PASSWORD_COLUMN, req.env.now, db.users.nextId);
    RegisteredRowHasNoHash(Input(body), h, req.env.now, db.users.nextId);
    UnhashedUserRefused(Register(db, req, body, h, isEmail).db, req, body, h, row);
  }

  /** The row registration stores has nothing under `password_hash`. */
  lemma RegisteredRowHasNoHash(input: Row, h: Hasher, now: int, id: int)
    ensures Get(RegisteredRow(input, h, UserModel.PASSWORD_COLUMN, now, id), UserModel.PASSWORD_HASH_COLUMN) == Null
  {
    UserModel.ColumnsOutsideSchema();
  }

  /** Login refuses a user with nothing under `password_hash`, whatever password is sent. */
  lemma UnhashedUserRefused(db: Db, req: AuthMiddleware.Request, body: Body, h: Hasher, row: Row)
    requires Sound(h)
    requires LoginWellFormed(body) && LoginCandidate(db, body) == Some(row)
    requires Get(row, UserModel.PASSWORD_HASH_COLUMN) == Null
    ensures Login(db, req, body, h) == Served(db, BadCredentials())
  {
    assert !h.verify(ToStr(Get(Input(body), "password")), "");
  }

  /**
   With the hash stored under the column login reads (`password_hash`, as
   the users migration declares), a user who has just registered logs in
   with the same email and password.
   */
  lemma CorrectedRegistrationLogsIn(db: Db, req: AuthMiddleware.Request, body: Body, h: Hasher, isEmail: string -> bool)
    requires Sound(h)
    requires RegisterAccepts(db, body, isEmail)
    requires Get(Input(body), "email").Str? && PhpTrim(Get(Input(body), "email").s) == Get(Input(body), "email").s
    ensures IsSuccess(RegisterWith(db, req, body, h, isEmail, UserModel.PASSWORD_HASH_COLUMN).out)
    ensures IsSuccess(Login(RegisterWith(db, req, body, h, isEmail, UserModel.PASSWORD_HASH_COLUMN).db, req, body, h).out)
  {
    RegisteredUserIsFound(db, req, body, h, isEmail, UserModel.PASSWORD_HASH_COLUMN);
    var password := ToStr(Get(Input(body), "password"));
    assert h.verify(password, h.hash(password));
  }

  /** A row forgotPassword has updated holds the token, live until an hour after `now`. */
  lemma RequestedRowIsLive(row: Row, token: string, now: int, later: int)
    requires later < now + 3600
    ensures UserModel.ResetTokenLive(Str(token), later)(row + ToRow(ResetRequest(token, now))["updated_at" := Int(now)])
  {
    var a := ResetRequest(token, now);
    var changed := row + ToRow(a)["updated_at" := Int(now)];
    KeyAt(a, 0, "reset_token");
    KeyAt(a, 1, "reset_token_expires");
    assert Get(changed, "reset_token") == Str(token);
    assert Get(changed, "reset_token_expires") == Int(now + 3600);
    assert Compare(Str(token), Str(token)) == Some(0);
    HoldsOnInts(now + 3600, later, Gt);
  }

  /** After forgotPassword's update of the user at index `i`, findByResetToken finds a user for that token within the hour. */
  lemma ResetRequestIsLive(t: Table, i: int, token: string, now: int, later: int)
    requires Keyed(t) && 0 <= i < |t.rows|
    requires later < now + 3600
    ensures UserModel.FindByResetToken(UserModel.Update(t, Get(t.rows[i], PRIMARY_KEY), ResetRequest(token, now), now).value,
                                       Str(token), later).Some?
  {
    var id := t.rows[i][PRIMARY_KEY].i;
    var data := ResetRequest(token, now);
    var u := UserModel.Update(t, Int(id), data, now).value;
    UserModel.UpdateChangesOnlyThatUser(t, id, data, now);
    assert u.rows[i] == t.rows[i] + ToRow(data)["updated_at" := Int(now)];
    RequestedRowIsLive(t.rows[i], token, now, later);
  }

  /** The 64-digit token is a truthy string. */
  lemma TokenIsTruthy(entropy: seq<int>)
    requires IsEntropy(entropy)
    ensures Truthy(Str(Bin2Hex(entropy)))
  {
    assert |Bin2Hex(entropy)| == 64 && |"0"| == 1;
  }

  /** A well-formed reset with a live token always succeeds. */
  lemma ResetWithLiveToken(db: Db, req: AuthMiddleware.Request, body: Body, h: Hasher)
    requires ResetWellFormed(body) && ResetCandidate(db, req, body).Some?
    ensures ResetPassword(db, req, body, h).out == ResetSucceeded()
  {
  }

  /**
   The reset token forgotPassword hands out works: presented with a long
   enough new password within the hour, resetPassword succeeds.
   */
  lemma ForgotThenReset(db: Db, req: AuthMiddleware.Request, body: Body, entropy: seq<int>,
                        later: AuthMiddleware.Request, resetBody: Body, h: Hasher)
    requires IsEntropy(entropy) && Keyed(db.users)
    requires !Empty(Get(Input(body), "email")) && ForgotCandidate(db, body).Some?
    requires later.env.now < req.env.now + 3600
    requires Get(Input(resetBody), "token") == Str(Bin2Hex(entropy))
    requires Truthy(Get(Input(resetBody), "password")) && !TooShort(Get(Input(resetBody), "password"))
    ensures ResetPassword(ForgotPassword(db, req, body, entropy).db, later, resetBody, h).out == ResetSucceeded()
  {
    var user := ForgotCandidate(db, body).value;
    var i :| 0 <= i < |db.users.rows| && db.users.rows[i] == user;
    var token := Bin2Hex(entropy);
    var db' := ForgotPassword(db, req, body, entropy).db;
    assert db'.users == UserModel.Update(db.users, Get(user, PRIMARY_KEY), ResetRequest(token, req.env.now), req.env.now).value;
    ResetRequestIsLive(db.users, i, token, req.env.now, later.env.now);
    TokenIsTruthy(entropy);
    ResetWithLiveToken(db', later, resetBody, h);
  }
}
