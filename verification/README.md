# EstateHub in Dafny

EstateHub is a property-management REST back end written in PHP. It handles
users and JWT authentication, property listings, tenancies (lease
assignments), rent payments, maintenance requests, notifications, reports
with CSV/JSON export, and a migration runner. A static browser dashboard
talks to it. This project models that back end, and the dashboard's request
and validation helpers, as pure Dafny functions, and proves properties of
them.

How the PHP is modelled:

- **Database.** The database is a value `Db` holding one `Table` per table
  (rows as `map<string, Val>` plus the next auto-increment id).
- **Values.** A PHP value is `Php.Val`: null, bool, int, string, list or
  associative array.
- **Controllers.** Each controller action is a function from the database,
  the request and its inputs to `Served(db, outcome)`. The outcome is the
  JSON envelope `Response.php` would have printed, or the exported file.
- **Halting.** A `Response::error(...)` that ends the script is a `Halt`
  step. Every check that can halt is a branch of the function.
- **SQL.** Prepared statements are modelled as their WHERE conjuncts and
  bound parameters (`Sql`), so "one parameter per placeholder" and "the
  clause holds exactly of the rows the filters describe" can be proved.
- **Joins, grouping, aggregates.** `Joins` models joins, `Aggregates`
  models GROUP BY and SUM/COUNT/CASE, and `MysqlDates` models DATE_FORMAT
  and DATE_SUB.
- **Parameters.** Some things are parameters of the functions that use them:
  - the clock;
  - random bytes;
  - the JWT library's encode/decode pair, with the round trip stated as a
    hypothesis;
  - password hashing, with soundness stated as a hypothesis;
  - `strtotime`, and `floatval` (money is in integer cents);
  - methods the source calls but never defines: `BaseModel::countAll`,
    `Property::updateStatus`, `User::verifyPassword` and
    `User::updatePassword`.

Module layout follows the source:

| source | modules |
|---|---|
| `app/Utils` | `Http` (Response.php), `Jwt` (JWTHandler.php) |
| `app/Services` | `FileUpload` |
| `app/Models` | `BaseModel`, `UserModel`, `PropertyModel`, `TenantModel`, `PaymentModel`, `MaintenanceModel`, `NotificationModel`, and `Report*` (one per group of report queries) |
| `app/Middleware` | `AuthMiddleware`, `RoleMiddleware` |
| `app/Controllers` | one module per controller |
| `routes/api.php` | `Router` |
| `migrate.php` | `Migrate` |
| `frontend/js/script.js` | `Frontend` |
| request decoding and field checks shared by the controllers | `Store`, `Validate` |
| shared PHP/SQL helpers | `Php`, `Text`, `Rows`, `Sql`, `Joins`, `Aggregates`, `Dates`, `Constants`, `Wrappers` |

`Flows` states properties that span several controllers.

## Model

| member | source | states |
|---|---|---|
| Http.Json | EstateHub-backend/app/Utils/Response.php:5-27 | The status line is the one asked for; an array payload whose `status` is "error" goes out as an error envelope carrying that array's `error` entry, and every other payload goes out unchanged as the `data` of a success envelope. |
| Http.Error | EstateHub-backend/app/Utils/Response.php:29-38 | An error answer is an error envelope with the given HTTP status whose error object holds the code, message and details, with VALIDATION_ERROR, no details and 400 as the defaults. |
| Http.ErrorIsError | EstateHub-backend/app/Utils/Response.php:29-38 | Every Response::error call is recognised as the error with its own code and status. |
| Http.Success | EstateHub-backend/app/Utils/Response.php:40-49 | Response::success always answers 200; when the envelope is a success, its data is the payload (an empty array for null) with the message added under `message`. |
| Http.Ok | EstateHub-backend/app/Utils/Response.php:40-49 | For a payload that is not an error array, the answer is a success whose data keeps every payload key other than `message` and carries the message when one is given. |
| Http.SuccessPayload | EstateHub-backend/app/Utils/Response.php:41-47 | The array handed on: the payload's keys are kept, `message` is overwritten by the message when there is one, and without a message the payload (or an empty array) is passed as it is. |
| Http.SuccessWithErrorStatus | EstateHub-backend/app/Utils/Response.php:9 | Response::success given an array whose `status` is "error" answers with an error envelope, not a success. |
| Http.SuccessIsSuccess | EstateHub-backend/app/Utils/Response.php:40-49 | A payload that is not an error array always yields a success envelope whose data is the prepared payload. |
| Store.Input | EstateHub-backend/app/Controllers/AuthController.php:20 | `json_decode(..., true)` of the body: a decoded JSON object is read key by key, and anything else (a decoding failure, a scalar, a list) reads as an array with no keys. |
| Validate.FirstMissing | EstateHub-backend/app/Controllers/AuthController.php:28-34 | No field is reported exactly when every required field is non-empty; a reported field is empty and every field listed before it is present. |
| Validate.RequireFields | EstateHub-backend/app/Controllers/AuthController.php:28-34 | The request goes on exactly when every required field is non-empty; otherwise the answer is "Field <name> is required" for the first empty field in list order. |
| Validate.Paginate | EstateHub-backend/app/Controllers/PaymentsController.php:28-30 | The page is at least 1, the page size between 1 and 50, the offset skips the earlier pages; absent parameters mean page 1 of size 10, in-range integer requests are honoured, and out-of-range ones are clamped. |
| Validate.PageCount | EstateHub-backend/app/Controllers/PaymentsController.php:49 | `ceil(total / limit)`: no rows means no pages, and otherwise the pages are just enough to hold every row. |
| Validate.SetFields | EstateHub-backend/app/Controllers/MaintenanceController.php:151-156 | Only whitelisted fields the input sets are copied, each with the input's own value. |
| Validate.SetFieldsComplete | EstateHub-backend/app/Controllers/MaintenanceController.php:151-156 | Every whitelisted field the input sets is copied. |
| Validate.SetFieldsDistinct | EstateHub-backend/app/Controllers/MaintenanceController.php:151-156 | No field is copied twice when the whitelist has no duplicates. |
| Validate.SetFieldsRow | EstateHub-backend/app/Controllers/MaintenanceController.php:151-156 | The copied data is exactly the input restricted to the whitelisted keys it sets, and it is empty exactly when the input sets none of them. |
| BaseModel.Find | EstateHub-backend/app/Models/BaseModel.php:27-31 | A row is found only when it is in the table and carries that id, and nothing is found exactly when no row carries it. |
| BaseModel.FindIsHead | EstateHub-backend/app/Models/BaseModel.php:27-31 | `fetch()` returns the first row of the table carrying that id. |
| BaseModel.FindAllQuery | EstateHub-backend/app/Models/BaseModel.php:33-55 | One `field = ?` conjunct per condition, bound in order to the condition values; LIMIT and OFFSET are added only for truthy arguments; placeholders and parameters always agree in number. |
| BaseModel.EqCondsMeaning | EstateHub-backend/app/Models/BaseModel.php:37-44 | The WHERE clause holds of a row exactly when the row matches every condition. |
| BaseModel.FindAllMeaning | EstateHub-backend/app/Models/BaseModel.php:33-58 | Without a limit or offset, findAll returns exactly the rows matching every condition, in table order; an offset without a limit makes the statement fail. |
| BaseModel.CreateStatement | EstateHub-backend/app/Models/BaseModel.php:60-65 | The INSERT names the keys of the data in order and binds their values in the same order. |
| BaseModel.Add | EstateHub-backend/app/Models/BaseModel.php:60-69 | The new row is appended with the next id, the id is returned, and a table with distinct ids keeps distinct ids. |
| BaseModel.AddThenFind | EstateHub-backend/app/Models/BaseModel.php:60-69 | Finding a created row by the returned id gives back the data with that id. |
| BaseModel.UpdateStatement | EstateHub-backend/app/Models/BaseModel.php:71-82 | One `field = ?` per key of the data, bound in order, with the id bound last for `WHERE id = ?`. |
| BaseModel.UpdateById | EstateHub-backend/app/Models/BaseModel.php:71-86 | The rows carrying the id get the new values, every other row is left alone, the table keeps its size, and the affected-row count never exceeds the rows carrying the id. |
| BaseModel.UpdateRow | EstateHub-backend/app/Models/BaseModel.php:71-86 | An update with no data fails (the statement reads `SET  WHERE`); any other update is the update of the rows carrying that id. |
| BaseModel.UpdateTouchesOneRow | EstateHub-backend/app/Models/BaseModel.php:71-86 | In a table with distinct ids, an update changes at most one row and leaves every row with another id as it was. |
| BaseModel.Delete | EstateHub-backend/app/Models/BaseModel.php:88-92 | The rows carrying the id are removed, the others kept in order, the count is how many went, and afterwards the id is not found. |
| Php.LooseInWords | EstateHub-backend/app/Middleware/RoleMiddleware.php:14 | For a string, PHP's loose `in_array` over a list of letter-led words is plain membership. |
| Php.NullLooseEqString | EstateHub-backend/app/Controllers/PropertiesController.php:168 | In PHP 8's loose comparison null equals a string exactly when the string is empty: `null == "0"` is false although "0" is falsy. |
| Jwt.Stamp | EstateHub-backend/app/Utils/JWTHandler.php:19-25 | The signed claims are the payload's claims plus `iat` (the issue time) and `exp` one hour later, every other payload claim kept, and the token is within its validity window for the whole hour after issue. |
| Jwt.VerifyToken | EstateHub-backend/app/Utils/JWTHandler.php:30-38 | Verification yields claims exactly when the library decoder accepts the token under the configured secret (falling back to "supersecretkey"), and then yields what it decoded; any rejection reads as null. |
| Jwt.TokenRoundTrip | EstateHub-backend/app/Utils/JWTHandler.php:16-38 | With a decoder that undoes the encoder, a token issued for a payload verifies, at any time in its hour, to the payload stamped with its issue and expiry times. |
| Jwt.CompactTokenIsTruthy | EstateHub-backend/app/Utils/JWTHandler.php:27 | An issued token (three non-empty dot-separated parts) is never a string PHP considers false. |
| Jwt.FindBearer | EstateHub-backend/app/Utils/JWTHandler.php:60 | The leftmost position at or after the start where "Bearer", one whitespace character and a non-space character occur; none when there is no such position. |
| Jwt.ExtractBearer | EstateHub-backend/app/Utils/JWTHandler.php:60-61 | `preg_match('/Bearer\s(\S+)/')`: no token exactly when the pattern occurs nowhere; otherwise a non-empty run of non-space characters, taken at the leftmost occurrence, and as long as possible. |
| Jwt.BearerRoundTrip | EstateHub-backend/app/Utils/JWTHandler.php:60-61 | The header "Bearer <token>" gives back the token, for any non-empty token without whitespace. |
| Jwt.LowerCaseSchemeRejected | EstateHub-backend/app/Utils/JWTHandler.php:60 | The scheme is matched case-sensitively: "bearer x" carries no token. |
| Jwt.UnanchoredMatch | EstateHub-backend/app/Utils/JWTHandler.php:60 | The pattern is not anchored: "xBearer y" yields the token "y". |
| Jwt.TwoSpacesRejected | EstateHub-backend/app/Utils/JWTHandler.php:60 | Exactly one whitespace character may follow the scheme: "Bearer  y" carries no token. |
| Jwt.ShortHeaderHasNoBearer | EstateHub-backend/app/Utils/JWTHandler.php:60 | A header shorter than "Bearer x" never carries a token. |
| Jwt.GetUserFromBearer | EstateHub-backend/app/Utils/JWTHandler.php:40-45 | A header without the bearer pattern gives no user, and a header carrying a bearer token gives exactly what verifying that token gives. |
| Jwt.IssuedBearerGivesUser | EstateHub-backend/app/Utils/JWTHandler.php:40-45 | The header "Bearer <token>" for a token issued within the hour gives back the claims it was issued with. |
| Jwt.GetTokenFromHeader | EstateHub-backend/app/Utils/JWTHandler.php:47-65 | The server's HTTP_AUTHORIZATION wins; only without it is Apache's Authorization header read (when the function exists); either is trimmed before matching, no header means no token, and a token is a non-empty run of non-space characters. |
| AuthMiddleware.Begin | EstateHub-backend/app/Middleware/AuthMiddleware.php:55-57 | A request starts with no stored user. |
| AuthMiddleware.Handle | EstateHub-backend/app/Middleware/AuthMiddleware.php:16-40 | A request goes on exactly with a header token that verifies to non-empty claims, and then those claims are stored as the request's user; no token answers 401 UNAUTHORIZED and a token that does not verify 401 INVALID_TOKEN. |
| AuthMiddleware.Admit | EstateHub-backend/app/Middleware/AuthMiddleware.php:20-38 | Once the token is read: a falsy one answers 401 UNAUTHORIZED, one that does not verify to claims 401 INVALID_TOKEN, and one that verifies to non-empty claims stores them. |
| AuthMiddleware.TrimKeepsBearerHeader | EstateHub-backend/app/Utils/JWTHandler.php:52 | Trimming a "Bearer <token>" header changes nothing. |
| AuthMiddleware.IssuedTokenAuthenticates | EstateHub-backend/app/Middleware/AuthMiddleware.php:16-40 | A request sending "Bearer <token>" for a freshly issued token, within its hour, is admitted with the stamped claims as its user. |
| RoleMiddleware.Handle | EstateHub-backend/app/Middleware/RoleMiddleware.php:7-19 | The request goes on exactly when a stored user's role is loosely in the allowed list; with no user the answer is 401 UNAUTHORIZED, and with a user of another role 403 FORBIDDEN. |
| RoleMiddleware.FreshRequestUnauthenticated | EstateHub-backend/app/Middleware/RoleMiddleware.php:8-12 | Before AuthMiddleware::handle has run, any role check answers 401, whatever the request carries. |
| RoleMiddleware.AdminOnlyAdmitsAdmin | EstateHub-backend/app/Middleware/RoleMiddleware.php:21-23 | For a user whose role is a string, adminOnly admits exactly the role "admin". |
| RoleMiddleware.TrueRolePassesAnyCheck | EstateHub-backend/app/Middleware/RoleMiddleware.php:14 | A user whose role claim is boolean true passes every role check with a non-empty list, by PHP's loose comparison. |
| Router.Match | EstateHub-backend/routes/api.php:71-72 | A match captures one digit run per group, and filling the pattern with the captures gives back the path. |
| Router.MatchComplete | EstateHub-backend/routes/api.php:71-72 | No match is missed: for a pattern whose groups are never followed by a digit, the path built from any digit runs is matched with exactly those runs. |
| Router.StripBase | EstateHub-backend/routes/api.php:15-18 | The routed path is the request path without its first seven characters, and empty for a shorter path. |
| Router.FirstIndex | EstateHub-backend/routes/api.php:70-83 | No route before the returned position matches, and the route at it (when there is one) does. |
| Router.FirstMatch | EstateHub-backend/routes/api.php:68-88 | A request is routed to the first route of the table whose pattern matches, with its captures as arguments; it is not found exactly when no route matches. |
| Router.TablePatternsUnambiguous | EstateHub-backend/routes/api.php:21-66 | Every route pattern of the table is one Match decides exactly. |
| Router.NoRouteToMeOrRefresh | EstateHub-backend/routes/api.php:21-66 | No request ever reaches AuthController::me or AuthController::refresh. |
| Router.BasePathNotChecked | EstateHub-backend/routes/api.php:15-18 | Two request paths that differ only in their first seven characters are routed alike: the base path is not checked. |
| Router.UnknownVerbNotFound | EstateHub-backend/routes/api.php:70 | A request method other than POST, GET, PUT and DELETE is never routed. |
| Router.TenantsCurrentRoute | EstateHub-backend/routes/api.php:39-40 | GET /api/v1/tenants/current reaches getCurrentTenant: the earlier `/tenants/(\d+)` route does not take it. |
| Router.FirstIndexIs | EstateHub-backend/routes/api.php:70-83 | A route that matches, with no matching route before it, is the one chosen. |
| Router.PropertyShowRoute | EstateHub-backend/routes/api.php:37 | GET /api/v1/properties/<digits> reaches PropertiesController::show with the digits. |
| UserModel.NewUser | EstateHub-backend/app/Models/User.php:18-34 | The inserted row holds exactly the six named fields (the password under the column the statement names) and both timestamps set to the current time; a field the data lacks is stored as NULL. |
| UserModel.Create | EstateHub-backend/app/Models/User.php:18-34 | The user is appended under the next id, which is returned, and in a table with distinct ids it is then found by that id. |
| UserModel.FindByEmail | EstateHub-backend/app/Models/User.php:51-58 | A user returned is in the table and holds that email; nothing is returned exactly when no user holds it. |
| UserModel.FindByResetToken | EstateHub-backend/app/Models/User.php:63-74 | A user returned holds the token and its expiry lies strictly after now; nothing is returned exactly when no user holds a live token. |
| UserModel.BoundId | EstateHub-backend/app/Models/User.php:79-97 | Without an `id` key in the data, `:id` is bound to the id asked for. |
| UserModel.Update | EstateHub-backend/app/Models/User.php:79-97 | An update with no data fails; otherwise the table keeps its size and, for data without an `id` key, the users carrying the id get the new values and a fresh `updated_at` while every other user stays. |
| UserModel.UpdateChangesOnlyThatUser | EstateHub-backend/app/Models/User.php:79-97 | In a table with distinct ids, only the user with that id is rewritten, and at most one row changes. |
| UserModel.UpdateLastLogin | EstateHub-backend/app/Models/User.php:102-107 | The users with that id get `last_login_at` set to now; every other row is unchanged. |
| UserModel.DeleteUser | EstateHub-backend/app/Models/User.php:112-118 | Afterwards the id is not found, and the remaining users are exactly those with another id. |
| UserModel.GetAll | EstateHub-backend/app/Models/User.php:123-135 | A negative limit or offset fails; otherwise at most `limit` users, taken in order from position `offset`, each with the listed columns only. |
| UserModel.Count | EstateHub-backend/app/Models/User.php:140-147 | The count is the number of users. |
| UserModel.GetByRole | EstateHub-backend/app/Models/User.php:152-163 | Exactly the users with that role, in order, each with the listed columns only. |
| UserModel.ListingsHideSecrets | EstateHub-backend/app/Models/User.php:123-163 | Neither listing ever returns a password, hash or reset-token column. |
| UserModel.ColumnsOutsideSchema | EstateHub-backend/database/migrations/A_create_users_table.php:5-19 | The users table declares `password_hash` and `reset_token_expiry`, while create writes `password` and the reset flow uses `reset_token_expires`; with `password_hash` in its place, every column create writes is declared. |
| AuthController.RegisterCheck | EstateHub-backend/app/Controllers/AuthController.php:20-53 | Invalid JSON, a missing field (in the order email, password, full_name), an invalid email, a password under six bytes and a registered email give their errors in that order; it goes on exactly when all checks pass, and every early answer is a 400 VALIDATION_ERROR. |
| AuthController.RegisterWith | EstateHub-backend/app/Controllers/AuthController.php:19-93 | A failing check answers its 400 VALIDATION_ERROR with the tables untouched; when all pass, the user is created and the answer is a success carrying a token for the new id. |
| AuthController.RegisteredClaims | EstateHub-backend/app/Controllers/AuthController.php:70-75 | The registration token carries exactly the claims `sub`, `email`, `full_name` and `role`. |
| AuthController.Registered | EstateHub-backend/app/Controllers/AuthController.php:79-87 | Registration answers a success (with status 200: the 201 argument is ignored) carrying the token and the message "Registration successful". |
| AuthController.RegisteredRow | EstateHub-backend/app/Controllers/AuthController.php:60-67 | The stored user has the trimmed email, status `active` and the hash of the password, and no column beyond those create names. |
| AuthController.LoginWith | EstateHub-backend/app/Controllers/AuthController.php:98-165 | Invalid JSON and a missing email or password answer 400; an unknown email and a wrong password give the same 401; a non-active account 403, checked only after the password; only a success records the login time, and it carries a token for the stored user. |
| AuthController.LoginClaims | EstateHub-backend/app/Controllers/AuthController.php:138-143 | The login token carries exactly the stored user's id as `sub`, its email, name and role. |
| AuthController.LoggedIn | EstateHub-backend/app/Controllers/AuthController.php:150-159 | Login answers a success carrying the token and the message "Login successful". |
| AuthController.Logout | EstateHub-backend/app/Controllers/AuthController.php:170-178 | Logout always succeeds with only the message "Logout successful", whoever asks. |
| AuthController.ResetRequest | EstateHub-backend/app/Controllers/AuthController.php:204-207 | The reset update sets something and never the id. |
| AuthController.ForgotPassword | EstateHub-backend/app/Controllers/AuthController.php:183-221 | An empty email answers 400; any other email gets the same success message whether or not it is known; only for a known email is a 64-digit hexadecimal token stored with its expiry, and echoed back. |
| AuthController.ForgotAcknowledged | EstateHub-backend/app/Controllers/AuthController.php:195-197 | For an unknown email the answer is the success message with no token. |
| AuthController.ResetIssued | EstateHub-backend/app/Controllers/AuthController.php:215 | For a known email the answer is the same success message, carrying the reset token. |
| AuthController.ResetSucceeded | EstateHub-backend/app/Controllers/AuthController.php:265 | The answer to a completed reset is a success. |
| AuthController.ResetDone | EstateHub-backend/app/Controllers/AuthController.php:257-261 | The completing update sets something and never the id. |
| AuthController.ResetPasswordWith | EstateHub-backend/app/Controllers/AuthController.php:226-271 | Both fields are required, then six bytes of password, then a live token; only a passing reset replaces the hash and clears both reset columns of the token's user. |
| AuthController.ExpiryCheckUnreachable | EstateHub-backend/app/Controllers/AuthController.php:247-251 | The second expiry check can never fire: a user found by a live token has an expiry that is not before now. |
| AuthController.Me | EstateHub-backend/app/Controllers/AuthController.php:276-297 | An unauthenticated request gets the middleware's 401; an authenticated one gets 404 when its `sub` names no user, and otherwise that user less the three hidden columns. |
| AuthController.MeAnswer | EstateHub-backend/app/Controllers/AuthController.php:280-291 | With no user under the token's `sub` the answer is 404; otherwise a success holding that user less `password`, `reset_token` and `reset_token_expires`. |
| AuthController.RefreshClaims | EstateHub-backend/app/Controllers/AuthController.php:306-311 | A refreshed token carries exactly the four identity claims of the current token, unchanged. |
| AuthController.Refresh | EstateHub-backend/app/Controllers/AuthController.php:302-319 | An authenticated request gets a new token over its own identity claims; any other gets the middleware's 401. |
| AuthController.RefreshAnswer | EstateHub-backend/app/Controllers/AuthController.php:306-313 | The answer is a success holding a token signed over `sub`, `email`, `full_name` and `role` copied from the current claims. |
| AuthController.NewUserIsFound | EstateHub-backend/app/Models/User.php:18-58 | A user created under an email no one holds is the one findByEmail then returns for it. |
| AuthController.RegisteredUserIsFound | EstateHub-backend/app/Controllers/AuthController.php:107-114 | After a successful registration with an already-trimmed email, login with the same body passes its presence checks and finds exactly the stored row. |
| AuthController.RegisteredUserCannotLogIn | EstateHub-backend/app/Controllers/AuthController.php:60-67 | As written, a user who has just registered is refused with "Invalid credentials" when logging in with the same email and password. |
| AuthController.UnhashedUserRefused | EstateHub-backend/app/Controllers/AuthController.php:123-128 | Login refuses a user row with nothing under `password_hash` with the 401 for bad credentials, whatever password is sent. |
| AuthController.CorrectedRegistrationLogsIn | EstateHub-backend/app/Controllers/AuthController.php:124 | With the hash stored under `password_hash`, a user who has just registered logs in with the same email and password. |
| AuthController.RequestedRowIsLive | EstateHub-backend/app/Controllers/AuthController.php:201-207 | A user updated by forgotPassword holds the token until an hour after the request. |
| AuthController.ResetRequestIsLive | EstateHub-backend/app/Models/User.php:63-74 | Within the hour, findByResetToken finds a user for a token forgotPassword stored. |
| AuthController.TokenIsTruthy | EstateHub-backend/app/Controllers/AuthController.php:201 | A reset token is never a string PHP considers empty. |
| AuthController.ResetWithLiveToken | EstateHub-backend/app/Controllers/AuthController.php:239-265 | A reset with both fields, a six-byte password and a live token always succeeds. |
| AuthController.ForgotThenReset | EstateHub-backend/app/Controllers/AuthController.php:183-271 | The token forgotPassword hands out works: presented within the hour with a long enough password, resetPassword succeeds. |
| UserController.Profile | EstateHub-backend/app/Controllers/UserController.php:27 | The profile is the stored row less exactly the hidden keys, every other value unchanged. |
| UserController.GetProfile | EstateHub-backend/app/Controllers/UserController.php:17-30 | An unauthenticated request gets the middleware's 401; an authenticated one gets 404 when its `sub` names no user, and otherwise that user's profile. |
| UserController.ProfileAnswer | EstateHub-backend/app/Controllers/UserController.php:21-29 | With no user under the token's `sub` the answer is 404; otherwise a success holding that user's profile. |
| UserController.Trimmed | EstateHub-backend/app/Controllers/UserController.php:39-44 | A field is copied exactly when the input sets it, and then trimmed. |
| UserController.UpdateData | EstateHub-backend/app/Controllers/UserController.php:37-51 | The update names only `full_name`, `phone` and `avatar`, each exactly when the input sets it (the avatar when one was stored), names each once and never the id; the two text fields are trimmed. |
| UserController.AvatarUpload | EstateHub-backend/app/Controllers/UserController.php:47-52 | Without an avatar sent free of upload errors nothing is stored; otherwise a failing upload ends the request with its answer, never a success, and a stored avatar is the upload's result. |
| UserController.ProfileWrite | EstateHub-backend/app/Controllers/UserController.php:64-67 | The user is updated only when there is something to change; otherwise the tables stay. |
| UserController.UpdateProfile | EstateHub-backend/app/Controllers/UserController.php:32-74 | After authentication and a successful avatar upload (if any), the user is updated and the answer carries the re-read user and "Profile updated successfully"; a failing step answers alone and writes nothing. |
| UserController.ProfileUpdated | EstateHub-backend/app/Controllers/UserController.php:64-73 | The tables are those after the profile write, and the answer is a success with the message "Profile updated successfully" holding the user re-read after the write, less the hidden keys. |
| UserController.WrongPassword | EstateHub-backend/app/Controllers/UserController.php:91-93 | A wrong current password answers 401 with the code VALIDATION_ERROR. |
| UserController.ChangePassword | EstateHub-backend/app/Controllers/UserController.php:76-101 | After authentication both fields are required and the current password must verify against the stored hash; only then is the new password stored, with no length check. |
| UserController.UpdateThenGetAgree | EstateHub-backend/app/Controllers/UserController.php:17-74 | What updateProfile answers as the user is what getProfile answers right after it. |
| UserController.UpdatedProfileAgrees | EstateHub-backend/app/Controllers/UserController.php:21-29 | After the profile write, the profile lookup succeeds and answers the same user value the update answered with. |
| Flows.RegisteredProfile | EstateHub-backend/app/Controllers/UserController.php:17-30 | The profile of a user who has just registered is the registered row less the hidden keys. |
| Flows.PasswordNotHidden | EstateHub-backend/app/Controllers/UserController.php:27 | The column register writes the hash to is not among those the profile hides. |
| Flows.ProfileShowsPasswordHash | EstateHub-backend/app/Controllers/UserController.php:17-30 | As written, the profile of a newly registered user carries the password hash under `password`. |
| Flows.CorrectedProfileHidesPasswordHash | EstateHub-backend/app/Controllers/UserController.php:27 | With the hash stored under `password_hash`, the profile of a newly registered user carries neither `password` nor `password_hash`. |
| PropertyModel.FilterWhere | EstateHub-backend/app/Models/Property.php:22-41 | The filter conjuncts and their parameters always agree in number; the parameters are the values of the filters that are set, in the order city, minimum price, maximum price, bedrooms, each price bound in cents like a stored price. |
| PropertyModel.PresentFilterKeys | EstateHub-backend/app/Models/Property.php:23-41 | A filter contributes its parameter exactly when it is not PHP-empty, in the fixed order of the four blocks, the price bounds converted to cents. |
| PropertyModel.FilterWhereMeaning | EstateHub-backend/app/Models/Property.php:22-41 | The WHERE clause holds of a property exactly when it is in the requested city, its price lies between the bounds (inclusive, both sides in cents) and it has at least the requested bedrooms, each unset filter constraining nothing. |
| PropertyModel.PriceBoundsInCents | EstateHub-backend/app/Models/Property.php:28-36 | A property whose stored price is p cents is under a maximum m exactly when p <= cents(m), and over a minimum exactly when p >= cents(m): prices and bounds compare in one unit. |
| PropertyModel.SortColumn | EstateHub-backend/app/Models/Property.php:44-51 | The sort column is always whitelisted: the requested one when it is in the list, `created_at` when it is absent or not in the list. |
| PropertyModel.SortOrder | EstateHub-backend/app/Models/Property.php:45-55 | The direction is ASC or DESC, and ASC exactly when the upper-cased request reads ASC. |
| PropertyModel.ListQuery | EstateHub-backend/app/Models/Property.php:18-69 | The listing statement is well formed, binds the filters then the limit and offset, and sorts by the whitelisted column and direction. |
| PropertyModel.CountQuery | EstateHub-backend/app/Models/Property.php:76-106 | The count statement has the listing's WHERE clause and parameters, without sort or LIMIT. |
| PropertyModel.HitsAreSelected | EstateHub-backend/app/Models/Property.php:18-71 | The rows the statement's WHERE clause keeps are exactly the properties the filters select. |
| PropertyModel.GetAvailableProperties | EstateHub-backend/app/Models/Property.php:18-71 | The listing is the window of the selected properties starting at the offset, of at most `limit` rows. |
| PropertyModel.CountAvailableProperties | EstateHub-backend/app/Models/Property.php:76-109 | The count is the number of selected properties. |
| PropertyModel.ListingWithinCount | EstateHub-backend/app/Models/Property.php:18-109 | The listing never holds more rows than the count; when the offset lies inside the count it holds `min(limit, count - offset)` rows; every listed row is a selected property. |
| PropertyModel.StatusIgnored | EstateHub-backend/app/Models/Property.php:18-41 | Whether a property is listed does not depend on its status: "available" properties include rented ones. |
| PropertyModel.Find | EstateHub-backend/app/Models/Property.php:114-121 | A property returned is in the table with that id; nothing is returned exactly when no property has it. |
| PropertyModel.NewProperty | EstateHub-backend/app/Models/Property.php:127-145 | The inserted row holds exactly the thirteen bound columns with the data's values (NULL for a missing one) and both timestamps at the current time. |
| PropertyModel.Create | EstateHub-backend/app/Models/Property.php:126-149 | The property is appended under the next id, the id is returned as a decimal string, and ids stay distinct. |
| PropertyModel.UpdateStatement | EstateHub-backend/app/Models/Property.php:154-169 | One `key = :key` per key of the data, each bound to its value, with `:id` bound to the id. |
| PropertyModel.Update | EstateHub-backend/app/Models/Property.php:154-172 | An update with no data fails; otherwise the properties with that id get the new values and a fresh `updated_at`, and every other property stays. |
| PropertyModel.Delete | EstateHub-backend/app/Models/Property.php:177-183 | The properties with that id are removed, the others kept in order, and the id is no longer found. |
| PropertyModel.GetByOwner | EstateHub-backend/app/Models/Property.php:188-195 | Exactly the properties whose owner equals the one asked for. |
| PropertiesController.CleanFilters | EstateHub-backend/app/Controllers/PropertiesController.php:25-39 | The filters are the six listing keys read with their defaults, a key kept exactly when its value is not PHP-empty, with that value. |
| PropertiesController.CleaningKeepsSelection | EstateHub-backend/app/Controllers/PropertiesController.php:34-39 | Dropping the empty filters does not change whether a property is selected. |
| PropertiesController.CleanFiltersSelectSame | EstateHub-backend/app/Controllers/PropertiesController.php:25-42 | The properties index lists are those its raw query selects. |
| PropertiesController.Listing | EstateHub-backend/app/Controllers/PropertiesController.php:41-52 | The answer holds the requested page of the selected properties and the pagination block counting every selected property, and no `status` key. |
| PropertiesController.Index | EstateHub-backend/app/Controllers/PropertiesController.php:18-53 | The listing always succeeds, with the page of selected properties for the clamped page and size and a pagination block over their total. |
| PropertiesController.IndexPageFitsTotal | EstateHub-backend/app/Controllers/PropertiesController.php:41-50 | The page holds at most `limit` properties and no more than the total, and the reported page count is just enough to hold the total. |
| PropertiesController.Show | EstateHub-backend/app/Controllers/PropertiesController.php:55-64 | An unknown id answers 404; a known one answers the stored property. |
| PropertiesController.ReadInput | EstateHub-backend/app/Controllers/PropertiesController.php:71-83 | A multipart request is read from the form fields; a JSON request that does not decode answers "Invalid JSON data", and otherwise its decoded object is the input. |
| PropertiesController.StoreInput | EstateHub-backend/app/Controllers/PropertiesController.php:71-98 | The input goes on exactly when it reads, every required field is non-empty and none of the four numbers is negative; otherwise the first failing check answers. |
| PropertiesController.NewPropertyField | EstateHub-backend/app/Controllers/PropertiesController.php:132-146 | The new property belongs to the caller, is available, features the first uploaded image (or none), lists the uploaded images as JSON, has its text fields trimmed and its counts made integers. |
| PropertiesController.NewPropertyData | EstateHub-backend/app/Controllers/PropertiesController.php:132-146 | The data handed to create names exactly the thirteen columns create binds. |
| PropertiesController.Created | EstateHub-backend/app/Controllers/PropertiesController.php:132-150 | A created property is inserted under the next id, which is answered as `property_id` with "Property created successfully". |
| PropertiesController.StoreProperty | EstateHub-backend/app/Controllers/PropertiesController.php:66-155 | adminOnly, then the input checks, then the uploads; the first failure answers with the tables unchanged, and only when all pass is the property created from the input, the caller and the uploaded URLs. |
| PropertiesController.ZeroIsMissing | EstateHub-backend/app/Controllers/PropertiesController.php:86-92 | A required field given as 0 is reported missing, so a property with no bedrooms cannot be created. |
| PropertiesController.WhitelistData | EstateHub-backend/app/Controllers/PropertiesController.php:186-199 | Only whitelisted fields the input sets are written, each as its column stores it. |
| PropertiesController.UpdateValue | EstateHub-backend/app/Controllers/PropertiesController.php:186-199 | A written price is kept in cents by the conversion store uses, a written count as an integer, and any other field other than amenities exactly as given. |
| PropertiesController.OnePriceUnit | EstateHub-backend/app/Controllers/PropertiesController.php:141 | store and update keep a given price as the same value. |
| PropertiesController.WhitelistComplete | EstateHub-backend/app/Controllers/PropertiesController.php:188-199 | Every whitelisted field the input sets is written. |
| PropertiesController.WhitelistDistinct | EstateHub-backend/app/Controllers/PropertiesController.php:188-199 | No field is written twice. |
| PropertiesController.ImageData | EstateHub-backend/app/Controllers/PropertiesController.php:201-230 | With files sent, `images` becomes the stored list followed by the new URLs, and `featured_image` the first of that list when it is not empty; without files neither is written. |
| PropertiesController.UpdateFieldsDistinct | EstateHub-backend/app/Controllers/PropertiesController.php:188 | The ten whitelisted fields are distinct. |
| PropertiesController.UpdateData | EstateHub-backend/app/Controllers/PropertiesController.php:186-230 | The update names only whitelisted fields, the images and the featured image, each once. |
| PropertiesController.UpdateDataEmpty | EstateHub-backend/app/Controllers/PropertiesController.php:186-232 | There is nothing to write exactly when no file was sent and the input sets no whitelisted field. |
| PropertiesController.PropertyWrite | EstateHub-backend/app/Controllers/PropertiesController.php:232-241 | The property is updated only when there is something to write; otherwise the table stays. |
| PropertiesController.OwnedProperty | EstateHub-backend/app/Controllers/PropertiesController.php:158-171 | update and destroy go on exactly when adminOnly admits the caller, the property exists and the caller owns it (loose comparison); otherwise 401/403, 404 or 403, in that order. |
| PropertiesController.Update | EstateHub-backend/app/Controllers/PropertiesController.php:157-244 | After the shared checks, the body and the uploads, the property is rewritten with the whitelisted fields and images and the answer is "Property updated successfully"; a failing step answers alone with the tables unchanged. |
| PropertiesController.WriteKeepsOtherColumns | EstateHub-backend/app/Controllers/PropertiesController.php:232-241 | A write of updatable columns leaves every other column of every property as it was. |
| PropertiesController.UpdateKeepsOtherColumns | EstateHub-backend/app/Controllers/PropertiesController.php:157-244 | update never changes a column outside the whitelist, the images and `updated_at`, of any property. |
| PropertiesController.OwnerNotUpdatable | EstateHub-backend/app/Controllers/PropertiesController.php:188 | A property's owner is not a column update writes. |
| PropertiesController.Destroy | EstateHub-backend/app/Controllers/PropertiesController.php:246-279 | After the shared checks the property is deleted, even with active tenants, and is no longer found. |
| PropertiesController.WritesNeedPriorAuthentication | EstateHub-backend/app/Controllers/PropertiesController.php:67 | As routed, store, update and destroy answer 401 and write nothing, whatever token the request carries: nothing authenticates before adminOnly. |
| PropertiesController.CreatedThenFound | EstateHub-backend/app/Controllers/PropertiesController.php:132-150 | The property store creates is found under the id it answers, holding the data it was given. |
| PropertiesController.NewPropertyShape | EstateHub-backend/app/Controllers/PropertiesController.php:133-145 | The inserted row is the caller's, available, and features the first URL uploaded with it. |
| PropertiesController.CreatedPriceWithinMax | EstateHub-backend/app/Controllers/PropertiesController.php:132-146 | A property created with price x is listed under a maximum m exactly when cents(x) <= cents(m). |
| PropertiesController.StoreSucceeded | EstateHub-backend/app/Controllers/PropertiesController.php:66-155 | A successful store got through adminOnly, the input checks and every upload. |
| PropertiesController.StoredPropertyShape | EstateHub-backend/app/Controllers/PropertiesController.php:66-155 | After a successful store, the property found under the new id belongs to the caller, is available, and features the first uploaded image. |
| FileUpload.Sanitize | EstateHub-backend/app/Services/FileUploadService.php:38 | The sanitised name holds only letters, digits, `_` and `-`, one character per byte of the original. |
| FileUpload.SanitizeKeepsSafe | EstateHub-backend/app/Services/FileUploadService.php:38 | A name already made of safe characters is left as it is. |
| FileUpload.SanitizeIdempotent | EstateHub-backend/app/Services/FileUploadService.php:38 | Sanitising twice is sanitising once. |
| FileUpload.SanitizeKeepsSafePrefix | EstateHub-backend/app/Services/FileUploadService.php:38 | A prefix of safe characters survives sanitising unchanged. |
| FileUpload.BaseName | EstateHub-backend/app/Services/FileUploadService.php:37-39 | The base name of a path holds no `/`. |
| FileUpload.PathInfoSplits | EstateHub-backend/app/Services/FileUploadService.php:37-39 | The file name and the extension put back together with a dot give the base name; without a dot the file name is the whole base name; the extension holds neither `.` nor `/`. |
| FileUpload.UploadFile | EstateHub-backend/app/Services/FileUploadService.php:16-76 | The checks run in order (an upload error, a size over the maximum, a MIME type outside the list, a failed move), each with its own error; a stored file gets the sanitised name, `_`, a unique id and the extension, under `/uploads/<directory>/<year>/<month>/`. |
| FileUpload.UploadImage | EstateHub-backend/app/Services/FileUploadService.php:8-10 | A stored image has an allowed image type and a URL under its directory; a refusal is one of the four upload errors. |
| FileUpload.UploadDocument | EstateHub-backend/app/Services/FileUploadService.php:12-14 | A stored document has an allowed document type and a URL under its directory; a refusal is one of the four upload errors. |
| FileUpload.StoredNameShape | EstateHub-backend/app/Services/FileUploadService.php:37-43 | A stored file's name starts with the safe characters of the original name followed by `_`, and its URL ends with that name. |
| FileUpload.UploadImages | EstateHub-backend/app/Controllers/PropertiesController.php:101-122 | A failing upload in the loop ends the request with one of the four upload errors. |
| FileUpload.UploadImagesStored | EstateHub-backend/app/Controllers/PropertiesController.php:101-122 | The loop succeeds exactly when every file sent without an upload error is stored, and then yields one URL per such file. |
| FileUpload.UploadImagesUrls | EstateHub-backend/app/Controllers/PropertiesController.php:101-122 | Every URL the loop yields lies under the image directory. |
| TenantModel.ActiveQuery | EstateHub-backend/app/Models/Tenant.php:10-21 | The statement binds the property id only when it is truthy, and its WHERE clause holds of a tenancy exactly when it is active (and on that property when one is given). |
| TenantModel.GetActiveTenants | EstateHub-backend/app/Models/Tenant.php:9-27 | The active tenancies (of the property when one is given), each joined with its user and property, and only those whose user and property exist. |
| TenantModel.ActiveJoinsKeep | EstateHub-backend/app/Models/Tenant.php:10-13 | The listing's joins overwrite neither the tenancy's status nor its property id. |
| TenantModel.ActiveTenantsAreActive | EstateHub-backend/app/Models/Tenant.php:9-27 | Every listed tenancy comes from an active tenancy row (on the requested property) and is itself active. |
| TenantModel.GetTenantByUserId | EstateHub-backend/app/Models/Tenant.php:29-37 | Nothing exactly when the user has no active tenancy whose property exists; otherwise the first such tenancy joined with its property. |
| TenantModel.CurrentJoinsKeep | EstateHub-backend/app/Models/Tenant.php:30-32 | The property join overwrites neither the tenancy's status nor its user. |
| TenantModel.CurrentTenancyIsActive | EstateHub-backend/app/Models/Tenant.php:29-37 | A tenancy returned belongs to that user and is active. |
| TenantModel.CheckPropertyAvailability | EstateHub-backend/app/Models/Tenant.php:39-47 | A property is available exactly when no active tenancy is on it. |
| TenantModel.Update | EstateHub-backend/app/Models/Tenant.php:69-84 | An update with no data fails; otherwise it is the update of the tenancies with that id. |
| TenantModel.Termination | EstateHub-backend/app/Models/Tenant.php:50-53 | Ending a lease writes exactly the status `inactive` and the move-out date. |
| TenantModel.TerminateLease | EstateHub-backend/app/Models/Tenant.php:49-54 | The tenancies with that id become inactive with that move-out date; every other tenancy is unchanged and the table keeps its size. |
| TenantModel.TerminatedTenancy | EstateHub-backend/app/Models/Tenant.php:49-54 | A terminated tenancy is inactive, moved out on that date, and keeps every other column. |
| TenantModel.SoftDelete | EstateHub-backend/app/Models/Tenant.php:87-92 | A soft delete is a termination dated today. |
| TenantModel.GetExpiringLeases | EstateHub-backend/app/Models/Tenant.php:56-66 | The active tenancies whose lease ends within the given number of days, each joined with its user and property. |
| TenantModel.EndedLeaseIsExpiring | EstateHub-backend/app/Models/Tenant.php:61-62 | An active lease that has already ended is listed as expiring for any non-negative window. |
| TenantsController.Index | EstateHub-backend/app/Controllers/TenantsController.php:23-35 | After adminOnly, the answer is every active tenancy of the `property_id` query parameter (all of them when it is absent). |
| TenantsController.IndexIgnoresPaging | EstateHub-backend/app/Controllers/TenantsController.php:27-29 | The page, limit and status the query asks for change nothing in the answer. |
| TenantsController.IndexNeedsPriorAuthentication | EstateHub-backend/app/Controllers/TenantsController.php:24 | As routed, the tenant listing always answers 401. |
| TenantsController.Show | EstateHub-backend/app/Controllers/TenantsController.php:37-51 | An unknown id answers 404; a tenant caller is refused 403 for a tenancy of another user (loose comparison); otherwise the tenancy is answered. |
| TenantsController.ShowSkipsOwnershipWithoutUser | EstateHub-backend/app/Controllers/TenantsController.php:38-50 | As routed nothing authenticates the request, so any existing tenancy is answered to anyone. |
| TenantsController.ShowToTenantIsOwn | EstateHub-backend/app/Controllers/TenantsController.php:45-50 | A tenant caller who is answered a tenancy is that tenancy's user. |
| TenantsController.LeaseRejectedMeaning | EstateHub-backend/app/Controllers/TenantsController.php:88-93 | With both dates parsed the lease is refused exactly when it does not end after it starts; an end date that does not parse is always refused. |
| TenantsController.PropertyCheck | EstateHub-backend/app/Controllers/TenantsController.php:65-73 | The request goes on exactly when the property exists and is available; otherwise "Property not found" or "Property is not available". |
| TenantsController.UserCheck | EstateHub-backend/app/Controllers/TenantsController.php:75-79 | The request goes on exactly when the user exists with role `tenant`; otherwise "Invalid tenant user". |
| TenantsController.TenancyCheck | EstateHub-backend/app/Controllers/TenantsController.php:81-85 | The request goes on exactly when the user has no active tenancy; otherwise the error "User is already a tenant at another property". |
| TenantsController.LeaseCheck | EstateHub-backend/app/Controllers/TenantsController.php:88-93 | The request goes on exactly when the lease is not refused; otherwise the error "Lease end date must be after start date". |
| TenantsController.StoreChecks | EstateHub-backend/app/Controllers/TenantsController.php:54-93 | Store goes on exactly when adminOnly, the required fields and the property, user, tenancy and lease checks all pass; every early answer is an error. |
| TenantsController.TenantField | EstateHub-backend/app/Controllers/TenantsController.php:96-107 | The new tenancy is active, moves in on the lease start, keeps the given user, property and dates, has its money in cents and its emergency contact trimmed. |
| TenantsController.NewTenant | EstateHub-backend/app/Controllers/TenantsController.php:96-107 | The inserted tenancy names exactly the ten columns store writes. |
| TenantsController.Assigned | EstateHub-backend/app/Controllers/TenantsController.php:95-118 | The tenancy is inserted, the property's status is set to occupied, and the new id is answered. |
| TenantsController.StoreTenant | EstateHub-backend/app/Controllers/TenantsController.php:53-119 | The first failing check answers with the tables untouched; when every check passes, the tenancy is assigned. |
| TenantsController.StoreNeedsPriorAuthentication | EstateHub-backend/app/Controllers/TenantsController.php:54 | As routed, store answers 401 and writes nothing. |
| TenantsController.TakenPropertyRefused | EstateHub-backend/app/Controllers/TenantsController.php:71-73 | A property that is not available is refused once the caller is admitted and the fields are present, whatever the user and lease. |
| TenantsController.SecondTenancyRefused | EstateHub-backend/app/Controllers/TenantsController.php:81-85 | A user with an active tenancy is refused once the earlier checks pass, whatever the lease dates. |
| TenantsController.StoreSucceeded | EstateHub-backend/app/Controllers/TenantsController.php:53-119 | A successful store had an admitted caller, an existing available property, a tenant user without an active tenancy, and a lease that ends after it starts. |
| TenantsController.NewTenantShape | EstateHub-backend/app/Controllers/TenantsController.php:96-107 | The inserted tenancy is active, moves in on the lease start, for the requested user and property. |
| TenantsController.AssignedTenancy | EstateHub-backend/app/Controllers/TenantsController.php:96-118 | The tenancy store creates is found under the answered id, active, moved in on the lease start, for that user and property. |
| TenantsController.AssignedPropertyOccupied | EstateHub-backend/app/Controllers/TenantsController.php:109-110 | With updateStatus setting the status of that property, the assigned property ends up occupied. |
| TenantsController.TenancyAnswer | EstateHub-backend/app/Controllers/TenantsController.php:125-134 | A caller whose role is not `tenant` gets VALIDATION_ERROR, a tenant without a tenancy 404, and otherwise the tenancy. |
| TenantsController.GetCurrentTenant | EstateHub-backend/app/Controllers/TenantsController.php:121-135 | An unauthenticated request gets the middleware's 401; an authenticated one gets the answer for its own active tenancy, looked up by its `sub`. |
| TenantsController.CurrentTenantIsOwn | EstateHub-backend/app/Controllers/TenantsController.php:121-135 | A tenancy getCurrentTenant answers is the caller's own, and active. |
| PaymentModel.ListJoinsKeep | EstateHub-backend/app/Models/Payment.php:10-14 | The listing's joins overwrite neither the payment's status nor its payment date. |
| PaymentModel.TenantListJoinsKeep | EstateHub-backend/app/Models/Payment.php:67-69 | The per-tenancy join does not overwrite the payment's tenancy. |
| PaymentModel.DetailJoinsKeep | EstateHub-backend/app/Models/Payment.php:86-91 | The detail joins overwrite neither the payment's id nor its tenancy. |
| PaymentModel.OverdueJoinsKeep | EstateHub-backend/app/Models/Payment.php:99-103 | The overdue joins overwrite neither the payment's status nor its due date. |
| PaymentModel.FilterWhere | EstateHub-backend/app/Models/Payment.php:19-32 | At most three filter conjuncts, with as many parameters as placeholders. |
| PaymentModel.FilterWhereMeaning | EstateHub-backend/app/Models/Payment.php:19-32 | The WHERE clause holds of a payment exactly when it has the requested status and its payment date lies in the requested range, each unset filter constraining nothing. |
| PaymentModel.ListQuery | EstateHub-backend/app/Models/Payment.php:9-36 | The listing statement is well formed, binds the filters then the limit and offset. |
| PaymentModel.CountQuery | EstateHub-backend/app/Models/Payment.php:42-59 | The count statement has the listing's filters and no LIMIT. |
| PaymentModel.HitsAreListed | EstateHub-backend/app/Models/Payment.php:9-59 | The statement keeps exactly the payments the filters select. |
| PaymentModel.GetAllPayments | EstateHub-backend/app/Models/Payment.php:9-40 | The window, at the offset and of at most `limit` rows, of the joined payments the filters select. |
| PaymentModel.CountAllPayments | EstateHub-backend/app/Models/Payment.php:42-64 | The count is the number of payments the filters select, joined or not. |
| PaymentModel.ListedJoined | EstateHub-backend/app/Models/Payment.php:9-40 | Filtering the joined rows is joining the filtered payments: the filters look only at payment columns. |
| PaymentModel.ListingWithinCount | EstateHub-backend/app/Models/Payment.php:9-64 | The listing never holds more rows than the count, and every listed row is a selected payment joined with its partners. |
| PaymentModel.CountIsListingTotal | EstateHub-backend/app/Models/Payment.php:42-64 | When every payment's tenancy, user and property exist, the count is the number of rows the unpaged listing returns. |
| PaymentModel.TenancyWhere | EstateHub-backend/app/Models/Payment.php:70 | `p.tenant_id = ?` holds of a payment exactly when it belongs to that tenancy. |
| PaymentModel.TenancyQuery | EstateHub-backend/app/Models/Payment.php:66-74 | The per-tenancy statement is well formed and binds the tenancy, the limit and the offset in order. |
| PaymentModel.TenancyHits | EstateHub-backend/app/Models/Payment.php:66-74 | The per-tenancy statement keeps exactly the tenancy's payments. |
| PaymentModel.GetPaymentsByTenant | EstateHub-backend/app/Models/Payment.php:66-76 | The window, at the offset and of at most `limit` rows, of the tenancy's payments joined with their property. |
| PaymentModel.CountPaymentsByTenant | EstateHub-backend/app/Models/Payment.php:78-83 | The count is the number of the tenancy's payments. |
| PaymentModel.TenancyListingIsOwn | EstateHub-backend/app/Models/Payment.php:66-76 | Every row of the per-tenancy listing is one of that tenancy's payments, joined. |
| PaymentModel.DetailsFromPayment | EstateHub-backend/app/Models/Payment.php:85-96 | A detailed payment is a payment with that id joined with its partners; an unknown id gives nothing. |
| PaymentModel.DetailsOfFound | EstateHub-backend/app/Models/Payment.php:85-96 | With distinct ids, the detailed payment is the one find returns, joined. |
| PaymentModel.OverdueQuery | EstateHub-backend/app/Models/Payment.php:98-106 | The statement binds nothing and holds of a payment exactly when it is pending and due before today. |
| PaymentModel.GetOverduePayments | EstateHub-backend/app/Models/Payment.php:98-108 | The joined payments that are pending and due before today. |
| PaymentModel.OverdueArePending | EstateHub-backend/app/Models/Payment.php:104 | Every overdue payment is pending and due strictly before today. |
| PaymentModel.PaidNeverOverdue | EstateHub-backend/app/Models/Payment.php:104 | A payment with status `paid` is never overdue. |
| PaymentsController.Visible | EstateHub-backend/app/Controllers/PaymentsController.php:31-41 | An admin sees the filtered page of all payments and their total; anyone else sees nothing exactly when they have no active tenancy. |
| PaymentsController.ListingAnswer | EstateHub-backend/app/Controllers/PaymentsController.php:36-51 | Without a tenancy the answer is 404; otherwise a success holding the page and its pagination block. |
| PaymentsController.Index | EstateHub-backend/app/Controllers/PaymentsController.php:23-52 | An unauthenticated request gets the middleware's 401; an authenticated one gets the listing its role allows. |
| PaymentsController.TenantSeesOwnPayments | EstateHub-backend/app/Controllers/PaymentsController.php:34-41 | Every payment a non-admin is listed belongs to their own active tenancy. |
| PaymentsController.AdminPageWithinTotal | EstateHub-backend/app/Controllers/PaymentsController.php:31-33 | An admin's page holds at most `limit` payments and no more than the total. |
| PaymentsController.Viewable | EstateHub-backend/app/Controllers/PaymentsController.php:58-69 | A missing payment answers 404 and one the caller may not view 403; otherwise the payment goes on. |
| PaymentsController.Show | EstateHub-backend/app/Controllers/PaymentsController.php:54-72 | A failed authentication gets the middleware's answer; after it, the view check on the payment with that id decides: not found, access denied, or the payment. |
| PaymentsController.ShowAnswer | EstateHub-backend/app/Controllers/PaymentsController.php:60-71 | A refusal from the view check is answered as it is; otherwise a success holding the payment. |
| PaymentsController.TenantShownOwnPayment | EstateHub-backend/app/Controllers/PaymentsController.php:64-71 | A tenant shown a payment has an active tenancy, and the payment belongs to it. |
| PaymentsController.ReceiptNumber | EstateHub-backend/app/Controllers/PaymentsController.php:93 | The receipt number is 15 characters: "RCP", today's date as eight digits, and the drawn number as four zero-padded digits. |
| PaymentsController.PaymentField | EstateHub-backend/app/Controllers/PaymentsController.php:95-108 | The recorded payment is `paid`, carries the receipt number and its creator, is due on the given due date or else the payment date, has the amount in cents, and copies the other fields. |
| PaymentsController.NewPayment | EstateHub-backend/app/Controllers/PaymentsController.php:95-108 | The inserted payment names exactly the twelve columns store writes. |
| PaymentsController.AssignedCheck | EstateHub-backend/app/Controllers/PaymentsController.php:86-90 | The request goes on exactly when the tenancy exists and is (loosely) on the given property; otherwise "Tenant is not assigned to this property". |
| PaymentsController.StoreChecks | EstateHub-backend/app/Controllers/PaymentsController.php:75-90 | The request goes on only when adminOnly admits it, every required field is present and the tenancy is on the property. |
| PaymentsController.Recorded | EstateHub-backend/app/Controllers/PaymentsController.php:95-119 | The payment is inserted and the answer carries its id and receipt number. |
| PaymentsController.StorePayment | EstateHub-backend/app/Controllers/PaymentsController.php:74-120 | A failing check answers with the tables untouched; otherwise the payment is recorded with a receipt number for today and the caller as creator. |
| PaymentsController.StoreNeedsPriorAuthentication | EstateHub-backend/app/Controllers/PaymentsController.php:75 | As routed, store answers 401 and writes nothing. |
| PaymentsController.NewPaymentShape | EstateHub-backend/app/Controllers/PaymentsController.php:95-108 | The inserted payment is `paid`, with its receipt number, due date, tenancy and creator. |
| PaymentsController.RecordedPayment | EstateHub-backend/app/Controllers/PaymentsController.php:95-108 | A recorded payment is found under its id, `paid`, and never overdue. |
| PaymentsController.StoreSucceeded | EstateHub-backend/app/Controllers/PaymentsController.php:74-120 | A successful store had an admitted caller, every required field, and a tenancy on the given property. |
| PaymentsController.Receipt | EstateHub-backend/app/Controllers/PaymentsController.php:140-148 | The receipt holds exactly the seven receipt fields, read from the detailed payment. |
| PaymentsController.ReceiptAnswer | EstateHub-backend/app/Controllers/PaymentsController.php:126-150 | A refusal is answered as it is; otherwise a success holding the receipt. |
| PaymentsController.GenerateReceipt | EstateHub-backend/app/Controllers/PaymentsController.php:122-151 | After authentication, the receipt of the detailed payment is answered when the caller may view it. |
| PaymentsController.ReceiptFieldKept | EstateHub-backend/app/Models/Payment.php:86-91 | The detail joins overwrite none of the payment's own receipt fields. |
| PaymentsController.ReceiptHas | EstateHub-backend/app/Controllers/PaymentsController.php:140-148 | Each receipt field holds the detailed payment's value. |
| PaymentsController.ReceiptOfPayment | EstateHub-backend/app/Controllers/PaymentsController.php:122-151 | For a payment whose partners exist, each of the payment's own receipt fields appears on its receipt unchanged. |
| MaintenanceModel.TenancyJoins | EstateHub-backend/app/Models/Maintenance.php:15-16 | The tenancy and tenant-user joins are LEFT joins: a request without a tenancy still appears. |
| MaintenanceModel.ListJoinsKeep | EstateHub-backend/app/Models/Maintenance.php:10-16 | The administrator listing's joins overwrite none of the request's status, priority or property id, so the filters apply to the request's own columns. |
| MaintenanceModel.TenantListJoinsKeep | EstateHub-backend/app/Models/Maintenance.php:64-66 | The tenant listing's property join does not overwrite the request's tenant id. |
| MaintenanceModel.StatusJoinsKeep | EstateHub-backend/app/Models/Maintenance.php:83-86 | The by-status listing's joins do not overwrite the request's status. |
| MaintenanceModel.StatusPriorityWhere | EstateHub-backend/app/Models/Maintenance.php:45-56 | The count's statement binds at most two values, one per hole, and holds of a request exactly when it matches each non-empty status and priority filter. |
| MaintenanceModel.ListWhere | EstateHub-backend/app/Models/Maintenance.php:17-34 | The listing's statement binds at most three values, one per hole, and holds of a request exactly when it matches each non-empty status, priority and property filter. |
| MaintenanceModel.ListQuery | EstateHub-backend/app/Models/Maintenance.php:9-41 | The listing statement is well formed, its limit and offset are the caller's, and it binds the filter values before them. |
| MaintenanceModel.GetAllRequests | EstateHub-backend/app/Models/Maintenance.php:9-42 | The requested page of the requests that match the status, priority and property filters and whose property and reporter exist. |
| MaintenanceModel.CountAllRequests | EstateHub-backend/app/Models/Maintenance.php:44-61 | The number of requests matching the status and priority filters, whatever the property filter says. |
| MaintenanceModel.CountListedRequests | EstateHub-backend/app/Models/Maintenance.php:44-61 | Corrected count: the number of requests matching all three filters the listing applies. |
| MaintenanceModel.ListedJoined | EstateHub-backend/app/Models/Maintenance.php:12-34 | Filtering the joined rows equals joining the filtered requests. |
| MaintenanceModel.ListedWithoutTenancy | EstateHub-backend/app/Models/Maintenance.php:12-16 | A request whose property and reporter exist is listed even when it has no tenancy. |
| MaintenanceModel.StatusJoinsSurvive | EstateHub-backend/app/Models/Maintenance.php:83-87 | A request whose property and reporter exist survives the by-status joins. |
| MaintenanceModel.ListingWithinCount | EstateHub-backend/app/Models/Maintenance.php:9-61 | A listing page never holds more requests than the corrected count. |
| MaintenanceModel.CountListedIsListingTotal | EstateHub-backend/app/Models/Maintenance.php:9-61 | When every request's property and reporter exist, the corrected count is the number of rows the listing pages through. |
| MaintenanceModel.CountAllRequestsIgnoresProperty | EstateHub-backend/app/Models/Maintenance.php:31-34 | With one request on property 1 and a filter on property 2, the count reports 1 while the listing and the corrected count report none. |
| MaintenanceModel.CountAllRequestsAtLeastListed | EstateHub-backend/app/Models/Maintenance.php:44-61 | The count as written is never below the corrected count. |
| MaintenanceModel.TenancyRequestsQuery | EstateHub-backend/app/Models/Maintenance.php:63-71 | The per-tenancy statement is well formed and binds the tenancy, the limit and the offset in order. |
| MaintenanceModel.GetRequestsByTenant | EstateHub-backend/app/Models/Maintenance.php:63-73 | The requested page of the tenancy's requests whose property exists. |
| MaintenanceModel.CountRequestsByTenant | EstateHub-backend/app/Models/Maintenance.php:75-80 | The number of requests filed under the tenancy. |
| MaintenanceModel.TenancyListingIsOwn | EstateHub-backend/app/Models/Maintenance.php:63-73 | Every listed row comes from a request filed under that tenancy. |
| MaintenanceModel.TenancyPageWithinCount | EstateHub-backend/app/Models/Maintenance.php:63-80 | A tenancy's listing page never holds more rows than its count. |
| MaintenanceModel.GetRequestsByStatus | EstateHub-backend/app/Models/Maintenance.php:82-92 | The requests with that status whose property and reporter exist. |
| MaintenanceModel.ByStatusFromRequests | EstateHub-backend/app/Models/Maintenance.php:82-92 | Filtering the joined rows by status equals joining the requests with that status. |
| MaintenanceController.Visible | EstateHub-backend/app/Controllers/MaintenanceController.php:29-42 | An administrator sees a filtered page of all requests with the property-blind count; anyone else sees nothing exactly when they have no active tenancy. |
| MaintenanceController.ListingAnswer | EstateHub-backend/app/Controllers/MaintenanceController.php:37-52 | No tenancy gives 404 NOT_FOUND; otherwise a success carrying the requests and the pagination block. |
| MaintenanceController.Index | EstateHub-backend/app/Controllers/MaintenanceController.php:24-53 | An unauthenticated caller gets the middleware's answer; anyone else gets the listing of what they may see. |
| MaintenanceController.TenantSeesOwnRequests | EstateHub-backend/app/Controllers/MaintenanceController.php:35-41 | A non-administrator's listed request belongs to their own active tenancy. |
| MaintenanceController.AdminPageWithinTotal | EstateHub-backend/app/Controllers/MaintenanceController.php:29-34 | An administrator's page holds at most limit rows and at most the corrected count, which is at most the reported total. |
| MaintenanceController.ShowAnswer | EstateHub-backend/app/Controllers/MaintenanceController.php:59-72 | A missing request gives 404; a tenant whose tenancy does not match the request's tenant id (loose comparison) gives 403; otherwise success carrying the request. |
| MaintenanceController.Show | EstateHub-backend/app/Controllers/MaintenanceController.php:55-73 | Authentication first, then the lookup and the tenancy check. |
| MaintenanceController.TenantShownOwnRequest | EstateHub-backend/app/Controllers/MaintenanceController.php:64-72 | A tenant who is shown a request has a tenancy whose id loosely equals the request's tenant id. |
| MaintenanceController.CurrentTenantForProperty | EstateHub-backend/app/Controllers/MaintenanceController.php:186-189 | Null when the property has no active tenancy. |
| MaintenanceController.ActiveJoinsKeepId | EstateHub-backend/app/Models/Tenant.php:10-13 | The active-tenancy listing's joins do not overwrite the tenancy's id. |
| MaintenanceController.CurrentTenantIsActive | EstateHub-backend/app/Controllers/MaintenanceController.php:186-189 | When the property has an active tenancy, the id returned is that of an active tenancy on the property. |
| MaintenanceController.FiledUnder | EstateHub-backend/app/Controllers/MaintenanceController.php:88-98 | A tenant proceeds exactly when their tenancy's property loosely equals the input's, and then files under that tenancy; otherwise 403. Anyone else files under the input's tenant id or else the property's current tenancy. |
| MaintenanceController.RequestField | EstateHub-backend/app/Controllers/MaintenanceController.php:119-129 | Each column of the new request: the chosen tenancy, the caller as reporter, the trimmed title and description, status pending, the JSON list of image URLs, and the other fields copied from the input. |
| MaintenanceController.NewRequest | EstateHub-backend/app/Controllers/MaintenanceController.php:119-129 | The new request has exactly the nine written columns, each as the column rule gives it. |
| MaintenanceController.Submitted | EstateHub-backend/app/Controllers/MaintenanceController.php:119-137 | The request is inserted and the success carries its new id. |
| MaintenanceController.StoreAnswer | EstateHub-backend/app/Controllers/MaintenanceController.php:79-137 | The checks in order: the five required fields, the tenancy check, the image uploads; the first failure answers and nothing is stored; otherwise the request is inserted. |
| MaintenanceController.StoreRequest | EstateHub-backend/app/Controllers/MaintenanceController.php:75-138 | Authentication first, then the submission. |
| MaintenanceController.NewRequestShape | EstateHub-backend/app/Controllers/MaintenanceController.php:119-129 | A new request is pending, reported by the caller, filed under the chosen tenancy, on the input's property, with the trimmed title. |
| MaintenanceController.SubmittedThenFound | EstateHub-backend/app/Controllers/MaintenanceController.php:119-137 | After a submission the request is found under the id returned. |
| MaintenanceController.StoreChecksFail | EstateHub-backend/app/Controllers/MaintenanceController.php:81-117 | Each check that halts answers with an error, never a success. |
| MaintenanceController.StoreAnswerSucceeded | EstateHub-backend/app/Controllers/MaintenanceController.php:79-137 | A successful submission had every required field non-empty, passed the tenancy check and stored every image. |
| MaintenanceController.TenantFilesOwnTenancy | EstateHub-backend/app/Controllers/MaintenanceController.php:88-129 | A tenant's successful submission is filed under their own tenancy on that property, reported by them and pending. |
| MaintenanceController.Changes | EstateHub-backend/app/Controllers/MaintenanceController.php:151-156 | The update row holds the whitelisted fields the input sets. |
| MaintenanceController.Progress | EstateHub-backend/app/Controllers/MaintenanceController.php:149-163 | Always a success; the table changes only when some whitelisted field is set, and then by updating that request with those fields. |
| MaintenanceController.Update | EstateHub-backend/app/Controllers/MaintenanceController.php:140-164 | Administrators only; a missing request gives 404; otherwise the whitelisted update. |
| MaintenanceController.UpdateNeedsPriorAuthentication | EstateHub-backend/app/Controllers/MaintenanceController.php:141 | On a fresh request the update is refused with 401 and nothing changes. |
| MaintenanceController.ChangesAreProgressFields | EstateHub-backend/app/Controllers/MaintenanceController.php:151-158 | The update row is exactly the whitelisted fields the input sets to non-null, and it is empty exactly when none is set. |
| MaintenanceController.ProgressKeepsTheRest | EstateHub-backend/app/Controllers/MaintenanceController.php:158-160 | No request is added or removed, columns outside the update keep their values, and other requests are untouched. |
| MaintenanceController.ProgressWrites | EstateHub-backend/app/Controllers/MaintenanceController.php:151-160 | Every whitelisted field the input sets is written to the matching request. |
| MaintenanceController.Removal | EstateHub-backend/app/Controllers/MaintenanceController.php:170-183 | A missing request gives 404; a tenant who did not report it (loose comparison) gives 403; otherwise it is deleted with a success. |
| MaintenanceController.Destroy | EstateHub-backend/app/Controllers/MaintenanceController.php:166-184 | Authentication first, then the removal. |
| MaintenanceController.TenantRemovesOnlyOwn | EstateHub-backend/app/Controllers/MaintenanceController.php:175-180 | A tenant whose removal succeeds reported that request, and exactly that request disappears. |
| MaintenanceController.OthersRemoveAny | EstateHub-backend/app/Controllers/MaintenanceController.php:175-183 | A non-tenant removes any existing request, and tenancies and payments are untouched. |
| NotificationModel.UserWhere | EstateHub-backend/app/Models/Notification.php:41 | The per-user statement has one hole and holds of a notification exactly when it belongs to the bound user. |
| NotificationModel.UnreadWhere | EstateHub-backend/app/Models/Notification.php:11 | The unread statement has one hole and holds exactly of the bound user's unread notifications. |
| NotificationModel.OwnedWhere | EstateHub-backend/app/Models/Notification.php:17 | The mark statement has two holes and holds exactly of the notification with that id belonging to that user. |
| NotificationModel.GetUnreadByUser | EstateHub-backend/app/Models/Notification.php:10-14 | At most limit notifications, each one of the user's unread ones. |
| NotificationModel.GetByUser | EstateHub-backend/app/Models/Notification.php:40-44 | The requested page of the user's notifications; at most limit, each the user's own. |
| NotificationModel.CountUnreadByUser | EstateHub-backend/app/Models/Notification.php:46-51 | The number of the user's unread notifications. |
| NotificationModel.MarkingChanges | EstateHub-backend/app/Models/Notification.php:17-19 | Setting is_read changes a row exactly when it was not already true, which is what the affected-row count reports. |
| NotificationModel.MarkAsRead | EstateHub-backend/app/Models/Notification.php:16-20 | Only the user's notification with that id is marked read, nothing is added or removed, and the count is the number of rows that changed. |
| NotificationModel.MarkAllAsRead | EstateHub-backend/app/Models/Notification.php:22-26 | Exactly the user's unread notifications are marked read, and the count is how many there were. |
| NotificationModel.NotificationData | EstateHub-backend/app/Models/Notification.php:29-37 | Seven distinct columns, starting with the user and ending with is_read false. |
| NotificationModel.CreateNotification | EstateHub-backend/app/Models/Notification.php:28-38 | One row is appended under the next id, unread and owned by the user; earlier rows are unchanged. |
| NotificationModel.MarkAsReadCountsNewlyRead | EstateHub-backend/app/Models/Notification.php:16-20 | The unread count drops by exactly the number reported. |
| NotificationModel.NothingMarkedNothingChanged | EstateHub-backend/app/Models/Notification.php:16-20 | The count is zero exactly when the user has no unread notification with that id, and then the table is unchanged. |
| NotificationModel.MarkAsReadAtMostOne | EstateHub-backend/app/Models/Notification.php:16-20 | When ids are unique, at most one row is marked. |
| NotificationModel.MarkAllLeavesNoneUnread | EstateHub-backend/app/Models/Notification.php:22-26 | Afterwards the user has no unread notification, and the count reported is the previous unread count. |
| NotificationModel.CreatedIsUnread | EstateHub-backend/app/Models/Notification.php:28-38 | A created notification is found under its id, unread, and the user's unread count grows by one. |
| NotificationModel.UnreadWithinAll | EstateHub-backend/app/Models/Notification.php:40-51 | A user's unread count never exceeds the number of their notifications. |
| NotificationController.ListingAnswer | EstateHub-backend/app/Controllers/NotificationController.php:19-37 | Success carrying the caller's page of notifications, their unread count, and pagination over the total the count-all helper gives for the caller's user id. |
| NotificationController.Index | EstateHub-backend/app/Controllers/NotificationController.php:15-38 | Authentication first, then the listing. |
| NotificationController.ListingIsCallersOwn | EstateHub-backend/app/Controllers/NotificationController.php:19-37 | When the count-all helper counts the matching rows, the page holds at most limit of the caller's own notifications, the total is the number of them, and the unread count is within it. |
| NotificationController.MarkAnswer | EstateHub-backend/app/Controllers/NotificationController.php:44-49 | The table is marked; no affected row gives 404 NOT_FOUND, otherwise success. |
| NotificationController.MarkAsRead | EstateHub-backend/app/Controllers/NotificationController.php:40-50 | Authentication first, then the marking. |
| NotificationController.MarkAnswerMeaning | EstateHub-backend/app/Controllers/NotificationController.php:44-49 | 404 exactly when the caller has no unread notification with that id, and then nothing changes; on success the unread count drops by one. |
| NotificationController.MarkAllAnswer | EstateHub-backend/app/Controllers/NotificationController.php:56-57 | Always a success carrying the number of notifications marked. |
| NotificationController.MarkAllAsRead | EstateHub-backend/app/Controllers/NotificationController.php:52-58 | Authentication first, then marking all. |
| NotificationController.MarkAllMeaning | EstateHub-backend/app/Controllers/NotificationController.php:56-57 | The marked count is the caller's previous unread count, none remains unread, and other users' notifications are untouched. |
| NotificationController.UnreadAnswer | EstateHub-backend/app/Controllers/NotificationController.php:64-65 | Success carrying the caller's unread count. |
| NotificationController.UnreadCount | EstateHub-backend/app/Controllers/NotificationController.php:60-66 | Authentication first, then the unread count. |
| ReportRevenue.RevenueWhere | EstateHub-backend/app/Models/Report.php:98-99 | Two holes; holds of a payment exactly when its date lies between the bound dates and its status is the given one. |
| ReportRevenue.Settlements | EstateHub-backend/app/Models/Report.php:97-101 | The payments the summary aggregates are those with the status and a date in the range. |
| ReportRevenue.SummaryOf | EstateHub-backend/app/Models/Report.php:88-99 | The summary counts the selected payments, sums their amounts, and sums the amounts of each of the five payment types. |
| ReportRevenue.GetRevenueSummary | EstateHub-backend/app/Models/Report.php:87-103 | As written: the summary over payments whose status is 'completed'. |
| ReportRevenue.CorrectedRevenueSummary | EstateHub-backend/app/Models/Report.php:87-103 | Corrected: the same summary over payments whose status is 'paid', the status payments are recorded with. |
| ReportRevenue.SummaryTypesDistinct | EstateHub-backend/app/Models/Report.php:92-96 | The five payment types the summary splits by are distinct. |
| ReportRevenue.FiveColumns | EstateHub-backend/app/Models/Report.php:92-96 | Summing the five CASE columns equals adding the five per-type totals. |
| ReportRevenue.TypeSumsAddUp | EstateHub-backend/app/Models/Report.php:90-96 | When every selected payment has one of the five types, the per-type revenues add up to the total revenue. |
| ReportRevenue.CompletedNeverStored | EstateHub-backend/app/Models/Report.php:99 | When no payment has status 'completed' (as none recorded by the API does), the summary reports zero transactions and a NULL total. |
| ReportRevenue.RecordedFields | EstateHub-backend/app/Controllers/PaymentsController.php:95-107 | A payment the API records is 'paid' and dated with the input's payment date. |
| ReportRevenue.RecordedPaymentNotCounted | EstateHub-backend/app/Models/Report.php:87-103 | Recording a payment leaves the summary as written unchanged. |
| ReportRevenue.SameSettledSameSummary | EstateHub-backend/app/Models/Report.php:87-103 | Two payment lists with the same selected payments give the same summary. |
| ReportRevenue.RecordedPaymentCounted | EstateHub-backend/app/Models/Report.php:87-103 | Recording a payment dated in the range raises the corrected summary's transaction count by one and its total by the payment's amount. |
| ReportRevenue.GroupFormat | EstateHub-backend/app/Models/Report.php:58-64 | The period format is always one of the four DATE_FORMAT patterns. |
| ReportRevenue.GroupFormatChoices | EstateHub-backend/app/Models/Report.php:58-64 | day, week and year pick their own format exactly when named; anything else, 'month' included, picks the month format. |
| ReportRevenue.PeriodRows | EstateHub-backend/app/Models/Report.php:66-77 | One report row per (period, payment type) group. |
| ReportRevenue.GetRevenueReport | EstateHub-backend/app/Models/Report.php:57-82 | Every row counts at least one transaction. |
| ReportRevenue.PeriodRowsAddUp | EstateHub-backend/app/Models/Report.php:69-70 | The rows' transaction counts add up to the grouped payments, and their amounts to the grouped total. |
| ReportRevenue.RevenueReportMatchesSummary | EstateHub-backend/app/Models/Report.php:57-103 | Over the same range, the report's counts and amounts add up to the summary's transaction count and revenue. |
| ReportRevenue.RevenueReportKeysDistinct | EstateHub-backend/app/Models/Report.php:77 | No two report rows share both period and payment type. |
| ReportRevenue.KeyOfRow | EstateHub-backend/app/Models/Report.php:67-77 | A row's period and payment type are its group's key. |
| ReportRevenue.PropertyJoinKeeps | EstateHub-backend/app/Models/Report.php:36 | The property join overwrites neither the payment's date, status, property id nor id. |
| ReportRevenue.PropertyRevenueWhere | EstateHub-backend/app/Models/Report.php:37-45 | The property id is bound only when truthy; the WHERE clause holds exactly of 'completed' payments dated in range (on that property when one is given). |
| ReportRevenue.PropertyRevenueRows | EstateHub-backend/app/Models/Report.php:27-47 | One row per property group, in group order, each the summary of its own group. |
| ReportRevenue.GenerateRevenueReport | EstateHub-backend/app/Models/Report.php:26-52 | Every row carries a payment count and a revenue. |
| ReportRevenue.PropertyRowsCount | EstateHub-backend/app/Models/Report.php:30 | The rows' payment counts add up to the grouped payments. |
| ReportRevenue.SelectedBeforeJoin | EstateHub-backend/app/Models/Report.php:35-45 | Filtering the joined payments equals joining the filtered payments. |
| ReportRevenue.SettledAtIgnoresJoin | EstateHub-backend/app/Models/Report.php:35-45 | Joining a payment's property does not change whether the payment is counted: its date, status and property are the payment's own. |
| ReportRevenue.PropertyRevenueCounts | EstateHub-backend/app/Models/Report.php:26-52 | When every payment's property exists, the report's payment counts add up to the selected payments. |
| ReportOccupancy.Paired | EstateHub-backend/app/Models/Report.php:122-123 | A joined row carries the tenancy's id, status and lease dates, and the property's other columns. |
| ReportOccupancy.Pair | EstateHub-backend/app/Models/Report.php:122-123 | One joined row per tenancy of the property. |
| ReportOccupancy.PropertyPairs | EstateHub-backend/app/Models/Report.php:123 | The LEFT JOIN gives every property at least one row. |
| ReportOccupancy.GetOccupancySummary | EstateHub-backend/app/Models/Report.php:164-184 | As written: the total counts properties, but the occupied count adds one per joined row. |
| ReportOccupancy.PairsKeepStatus | EstateHub-backend/app/Models/Report.php:179-180 | A property's joined rows count under its status once per row of its fan-out. |
| ReportOccupancy.StatusCount | EstateHub-backend/app/Models/Report.php:167-169 | A CASE count over rows of one status counts all of them or none. |
| ReportOccupancy.StatusCountsJoinRows | EstateHub-backend/app/Models/Report.php:167-180 | Each status count is the sum of the fan-outs of the properties with that status. |
| ReportOccupancy.OccupiedCountsJoinRows | EstateHub-backend/app/Models/Report.php:167 | The occupied count is the sum of the occupied properties' fan-outs. |
| ReportOccupancy.OccupiedExceedsTotal | EstateHub-backend/app/Models/Report.php:166-167 | One occupied property with two tenancies gives one property in total and two occupied. |
| ReportOccupancy.CorrectedOccupancySummary | EstateHub-backend/app/Models/Report.php:164-184 | Corrected: each status count counts properties, not joined rows. |
| ReportOccupancy.CorrectedCountsProperties | EstateHub-backend/app/Models/Report.php:166-167 | The corrected occupied count is the number of occupied properties and never exceeds the total. |
| ReportOccupancy.PropertyStatusesDistinct | EstateHub-backend/database/migrations/B_create_properties_table.php:16 | The three property statuses are distinct. |
| ReportOccupancy.CorrectedStatusesAddUp | EstateHub-backend/app/Models/Report.php:166-169 | When every property has one of the three statuses, the corrected counts add up to the total. |
| ReportOccupancy.OccupancyWhere | EstateHub-backend/app/Models/Report.php:147-152 | With both dates the statement binds end then start and keeps rows whose lease overlaps the range; otherwise it keeps every row. |
| ReportOccupancy.OccupancyRow | EstateHub-backend/app/Models/Report.php:135-143 | A property's row carries its id, the number of kept tenancies and the number of active ones. |
| ReportOccupancy.OccupancyRows | EstateHub-backend/app/Models/Report.php:134-159 | One row per property that keeps at least one joined row, in table order. |
| ReportOccupancy.OccupancyRowsAgree | EstateHub-backend/app/Models/Report.php:134-159 | Two filters that agree on every row give the same report. |
| ReportOccupancy.GetOccupancyReport | EstateHub-backend/app/Models/Report.php:134-159 | The report groups the joined rows the date filter keeps. |
| ReportOccupancy.PairedCount | EstateHub-backend/app/Models/Report.php:145-150 | Filtering a property's joined rows counts as many as filtering its tenancies by the same test. |
| ReportOccupancy.KeptHaveIds | EstateHub-backend/app/Models/Report.php:140 | When the property has tenancies, each kept joined row has a tenancy id. |
| ReportOccupancy.DatedGroup | EstateHub-backend/app/Models/Report.php:149-152 | With dates, a property's kept rows and its tenant count are its tenancies whose lease overlaps the range. |
| ReportOccupancy.UndatedGroup | EstateHub-backend/app/Models/Report.php:144-145 | Without dates every joined row is kept and the tenant count is the property's number of tenancies. |
| ReportOccupancy.UndatedListsEveryProperty | EstateHub-backend/app/Models/Report.php:134-159 | Without dates every property gets a row with its number of tenancies, in table order. |
| ReportOccupancy.DatedListsOverlapping | EstateHub-backend/app/Models/Report.php:149-159 | With dates only properties with an overlapping lease are listed, each with its number of overlapping tenancies. |
| ReportOccupancy.ActiveHasId | EstateHub-backend/app/Models/Report.php:140-141 | A kept row counted as active always has a tenancy id. |
| ReportOccupancy.ActiveWithinTenantCount | EstateHub-backend/app/Models/Report.php:140-141 | No row reports more active tenants than tenants. |
| ReportOccupancy.GeneratedRow | EstateHub-backend/app/Models/Report.php:109-116 | A property's row carries its id, its number of tenancies and its number of active ones. |
| ReportOccupancy.GenerateOccupancyReport | EstateHub-backend/app/Models/Report.php:108-129 | One row per property, in table order. |
| ReportOccupancy.GeneratedCounts | EstateHub-backend/app/Models/Report.php:108-129 | Each row's total is the property's number of tenancies and its active count is within it. |
| ReportMaintenance.MaintenanceWhere | EstateHub-backend/app/Models/Report.php:231-238 | The status is bound only when truthy; the WHERE clause holds exactly of requests raised in the range (with that status when one is given). |
| ReportMaintenance.PropertyJoinKeepsRequests | EstateHub-backend/app/Models/Report.php:230 | The property join overwrites none of the request's creation date, status, priority, id or property id. |
| ReportMaintenance.ProjectEach | EstateHub-backend/app/Models/Report.php:213-224 | The SELECT list projects each joined row onto the listed columns. |
| ReportMaintenance.GetMaintenanceReport | EstateHub-backend/app/Models/Report.php:212-244 | Every row has exactly the selected columns. |
| ReportMaintenance.ListedBeforeJoin | EstateHub-backend/app/Models/Report.php:229-238 | Filtering the joined requests equals joining the filtered requests. |
| ReportMaintenance.ListedRow | EstateHub-backend/app/Models/Report.php:213-224 | A listed row keeps the request's id, status and creation date. |
| ReportMaintenance.ListsRaisedRequests | EstateHub-backend/app/Models/Report.php:212-244 | When every request's property exists, the report lists exactly the requests raised in range (with the status), in order, with their id, status and date. |
| ReportMaintenance.SummaryOf | EstateHub-backend/app/Models/Report.php:250-266 | The summary counts the requests raised in range, each of the four statuses among them, those of the given priority, and sums their cost. |
| ReportMaintenance.GetMaintenanceSummary | EstateHub-backend/app/Models/Report.php:249-270 | As written: the priority counted is 'urgent'. |
| ReportMaintenance.CorrectedMaintenanceSummary | EstateHub-backend/app/Models/Report.php:249-270 | Corrected: the priority counted is 'emergency', the highest one the schema allows. |
| ReportMaintenance.MaintenanceStatusesDistinct | EstateHub-backend/database/migrations/D_create_maintenance_table.php:13 | The four request statuses are distinct. |
| ReportMaintenance.StatusCountsAddUp | EstateHub-backend/app/Models/Report.php:251-255 | When every request has one of the four statuses, the status counts add up to the total. |
| ReportMaintenance.UrgentNeverCounted | EstateHub-backend/app/Models/Report.php:256 | When every priority is one the schema allows, the urgent count is always zero. |
| ReportMaintenance.CorrectedUrgentCounts | EstateHub-backend/app/Models/Report.php:256 | The corrected count is the number of emergency requests raised in range. |
| ReportMaintenance.EmergencyNotUrgent | EstateHub-backend/app/Models/Report.php:256 | One emergency request in range counts 0 as written and 1 corrected. |
| ReportMaintenance.GeneratedRow | EstateHub-backend/app/Models/Report.php:193-196 | A property group's row counts its requests and those completed, pending and in progress. |
| ReportMaintenance.GeneratedRows | EstateHub-backend/app/Models/Report.php:190-202 | One row per property group. |
| ReportMaintenance.GenerateMaintenanceReport | EstateHub-backend/app/Models/Report.php:189-207 | The rows of the property groups of the requests raised in range. |
| ReportMaintenance.GeneratedBeforeJoin | EstateHub-backend/app/Models/Report.php:199-201 | Filtering the joined requests equals joining the filtered requests. |
| ReportMaintenance.SelectedWellFormed | EstateHub-backend/app/Models/Report.php:199-201 | When requests carry ids and string statuses, so do the selected rows. |
| ReportMaintenance.GeneratedRowsCount | EstateHub-backend/app/Models/Report.php:193 | The rows' request counts add up to the grouped requests. |
| ReportMaintenance.GeneratedCountsAddUp | EstateHub-backend/app/Models/Report.php:189-207 | When every request's property exists, the rows' counts add up to the requests raised in range. |
| ReportMaintenance.GroupStatusesWithin | EstateHub-backend/app/Models/Report.php:193-196 | A row's completed, pending and in-progress counts together never exceed its total. |
| ReportMaintenance.GeneratedStatusesWithin | EstateHub-backend/app/Models/Report.php:189-207 | The same holds for every row of the report. |
| ReportPerformance.OrNull | EstateHub-backend/app/Models/Report.php:323-327 | A LEFT JOIN with no match gives one NULL row; the amounts and costs are unchanged. |
| ReportPerformance.Combined | EstateHub-backend/app/Models/Report.php:322-327 | A joined row carries the payment's amount and the request's cost. |
| ReportPerformance.WithRequestsTotals | EstateHub-backend/app/Models/Report.php:326-327 | Joining one payment with the requests repeats its amount once per request. |
| ReportPerformance.CrossTotals | EstateHub-backend/app/Models/Report.php:322-328 | Over the cross product each amount is summed once per request and each cost once per payment. |
| ReportPerformance.Figures | EstateHub-backend/app/Models/Report.php:313-321 | A row carries the property id, both counts, revenue, cost and net income as revenue minus cost. |
| ReportPerformance.PerformanceOf | EstateHub-backend/app/Models/Report.php:312-329 | One row per property, from its payments and its requests in range. |
| ReportPerformance.GetPropertyPerformance | EstateHub-backend/app/Models/Report.php:311-333 | As written: the performance over 'completed' payments. |
| ReportPerformance.RowMultiplies | EstateHub-backend/app/Models/Report.php:318-320 | A property's revenue is its payments' total times its number of requests (at least one), and its cost the requests' total times its number of payments. |
| ReportPerformance.JoinMultiplies | EstateHub-backend/app/Models/Report.php:311-333 | The same fan-out holds for every row of the report. |
| ReportPerformance.RevenueDoubled | EstateHub-backend/app/Models/Report.php:318 | One payment of 100 and two requests in range report a revenue of 200. |
| ReportPerformance.SeparateOf | EstateHub-backend/app/Models/Report.php:311-333 | Corrected: one row per property with payments and requests summed separately. |
| ReportPerformance.CorrectedPropertyPerformance | EstateHub-backend/app/Models/Report.php:311-333 | Corrected: the separate sums over 'paid' payments. |
| ReportPerformance.CorrectedTablesIndependent | EstateHub-backend/app/Models/Report.php:318-320 | In the corrected report revenue does not depend on the requests nor cost on the payments. |
| ReportPerformance.AgreeRow | EstateHub-backend/app/Models/Report.php:318-320 | The joined and separate sums agree when the other side has at most one row. |
| ReportPerformance.AgreeWithoutFanout | EstateHub-backend/app/Models/Report.php:311-333 | For every property, the two reports agree on revenue when it has at most one request in range, and on cost when it has at most one payment. |
| ReportAnalysis.Cutoff | EstateHub-backend/app/Models/Report.php:284 | The window start is NULL exactly when DATE_SUB leaves the calendar, and otherwise a valid date that many months before today. |
| ReportAnalysis.MonthRow | EstateHub-backend/app/Models/Report.php:277-282 | A month's row carries the month, its payment count, total amount, and the amounts with the settled status and with status pending. |
| ReportAnalysis.MonthRows | EstateHub-backend/app/Models/Report.php:276-285 | One row per month group. |
| ReportAnalysis.MonthGroups | EstateHub-backend/app/Models/Report.php:284-285 | No month group is empty. |
| ReportAnalysis.AnalysisOf | EstateHub-backend/app/Models/Report.php:276-289 | One row per month of the payments dated on or after the window start. |
| ReportAnalysis.GeneratePaymentAnalysis | EstateHub-backend/app/Models/Report.php:275-290 | As written: the settled amount counts status 'completed'. |
| ReportAnalysis.CorrectedPaymentAnalysis | EstateHub-backend/app/Models/Report.php:275-290 | Corrected: the settled amount counts status 'paid'. |
| ReportAnalysis.MonthRowsAddUp | EstateHub-backend/app/Models/Report.php:278-279 | The rows' counts and amounts add up to the grouped payments. |
| ReportAnalysis.AnalysisCoversWindow | EstateHub-backend/app/Models/Report.php:275-290 | The rows' counts and amounts add up to the payments in the window. |
| ReportAnalysis.AnalysisMonthsDistinct | EstateHub-backend/app/Models/Report.php:285 | No two rows share a month. |
| ReportAnalysis.AnalysisEmptyOutOfRange | EstateHub-backend/app/Models/Report.php:284 | When the window start leaves the calendar (NULL), no payment qualifies and the analysis is empty. |
| ReportAnalysis.AnalysisWindowStart | EstateHub-backend/app/Models/Report.php:284 | Zero months starts the window today; more months start it strictly earlier. |
| ReportAnalysis.GroupsOfPayments | EstateHub-backend/app/Models/Report.php:283-285 | Every grouped payment is one of the payments. |
| ReportAnalysis.GroupWithout | EstateHub-backend/app/Models/Report.php:281 | A CASE sum over a status no payment has is zero. |
| ReportAnalysis.AnalysisPaidNeverCounted | EstateHub-backend/app/Models/Report.php:281 | When no payment is 'completed' (as none recorded by the API is), every month's paid amount is 0. |
| ReportAnalysis.CorrectedAnalysisSplitsTotal | EstateHub-backend/app/Models/Report.php:279-282 | When every status is one the schema allows, the corrected paid and pending amounts plus the overdue and cancelled ones add up to the month's total. |
| ReportAnalysis.MonthRowSplits | EstateHub-backend/app/Models/Report.php:279-282 | The same split for one month's row. |
| ReportAnalysis.GroupSplits | EstateHub-backend/database/migrations/F_create_payments_table.php:15 | The four payment statuses partition any group's total amount. |
| ReportAnalysis.CountersRow | EstateHub-backend/app/Models/Report.php:296-302 | The dashboard row carries the six counters. |
| ReportAnalysis.DashboardOf | EstateHub-backend/app/Models/Report.php:296-302 | Available and occupied properties, active tenancies and pending requests are counted by status; the revenue sums settled payments dated this month; overdue counts pending payments dated before today by the chosen date column. |
| ReportAnalysis.GetDashboardStats | EstateHub-backend/app/Models/Report.php:295-306 | As written: revenue counts 'completed' and overdue compares the payment date. |
| ReportAnalysis.CorrectedDashboardStats | EstateHub-backend/app/Models/Report.php:295-306 | Corrected: revenue counts 'paid' and overdue compares the due date. |
| ReportAnalysis.DashboardAgreesWithOccupancy | EstateHub-backend/app/Models/Report.php:297-298 | The dashboard's property counts equal the corrected occupancy summary's, and together never exceed the number of properties. |
| ReportAnalysis.StatusCounted | EstateHub-backend/app/Models/Report.php:297-300 | A CASE sum of ones counts the rows with that status. |
| ReportAnalysis.MonthlyRevenueNeverCounted | EstateHub-backend/app/Models/Report.php:301 | When no payment is 'completed', the monthly revenue is 0. |
| ReportAnalysis.CorrectedCountsPaidToday | EstateHub-backend/app/Models/Report.php:301 | Adding a paid payment dated today raises the corrected monthly revenue by its amount. |
| ReportAnalysis.OverdueByPaymentDate | EstateHub-backend/app/Models/Report.php:302 | A pending payment dated before today whose due date has not passed raises the overdue count as written, though it is not overdue by its due date. |
| ReportAnalysis.CorrectedOverdueIsListing | EstateHub-backend/app/Models/Report.php:302 | The corrected overdue count equals the number of payments the overdue listing reports. |
| ReportHistory.HistoryWhere | EstateHub-backend/app/Models/Report.php:347-355 | The dates are bound only when both are given; the WHERE clause holds exactly of the tenancy's payments (dated in range when dates are given). |
| ReportHistory.HistoryJoinsKeep | EstateHub-backend/app/Models/Report.php:344-346 | The joins overwrite neither the payment's tenancy nor its date. |
| ReportHistory.Selected | EstateHub-backend/app/Models/Report.php:340-342 | A history row keeps every payment and joined column except the tenancy's user id. |
| ReportHistory.HistoryRows | EstateHub-backend/app/Models/Report.php:343-355 | The joined payments that pass the WHERE clause. |
| ReportHistory.GetTenantPaymentHistory | EstateHub-backend/app/Models/Report.php:338-361 | One selected row per qualifying joined payment. |
| ReportHistory.HistoryIsTheTenancys | EstateHub-backend/app/Models/Report.php:347-355 | Every row is a payment of that tenancy, dated in range when dates are given. |
| ReportHistory.HistoryBeforeJoin | EstateHub-backend/app/Models/Report.php:343-355 | Filtering the joined payments equals joining the filtered payments. |
| ReportHistory.HistoryCountsPayments | EstateHub-backend/app/Models/Report.php:338-361 | When every payment's tenancy, property and user exist, the history has one row per qualifying payment. |
| ReportHistory.UndatedHistoryIsWholeList | EstateHub-backend/app/Models/Report.php:351 | Without both dates, the history has as many rows as the tenancy has payments. |
| ReportHistory.DatesOnlyNarrow | EstateHub-backend/app/Models/Report.php:351-355 | Giving dates never lengthens the history. |
| ReportsController.CheckRange | EstateHub-backend/app/Controllers/ReportsController.php:31-39 | The range passes exactly when both dates are valid and the start is not after the end; an invalid date is reported before a reversed range. |
| ReportsController.ThisMonthInOrder | EstateHub-backend/app/Controllers/ReportsController.php:26-27 | The default range, first to last day of the current month, passes the range check. |
| ReportsController.TruePassesExportChecks | EstateHub-backend/app/Controllers/ReportsController.php:179-190 | The boolean true passes both loose in_array checks of the export. |
| ReportsController.RevenuePayload | EstateHub-backend/app/Controllers/ReportsController.php:52-60 | The revenue payload has no status key of its own. |
| ReportsController.RevenueCheck | EstateHub-backend/app/Controllers/ReportsController.php:30-46 | An invalid date, a reversed range and a group-by not loosely among the four give their errors in that order; it goes on exactly when the range is in order and the group-by allowed. |
| ReportsController.RevenueAnswer | EstateHub-backend/app/Controllers/ReportsController.php:30-64 | The first failing check answers; past the checks a failing query gives 500 and otherwise the summary, the grouped rows and the echoed filters; it succeeds exactly when the checks pass and the query does not fail. |
| ReportsController.Revenue | EstateHub-backend/app/Controllers/ReportsController.php:20-65 | Administrators only; it succeeds exactly when the defaulted filters pass and the query does not fail, and answers as RevenueAnswer on this month by default and grouped by month. |
| ReportsController.RevenueDefaultsToThisMonth | EstateHub-backend/app/Controllers/ReportsController.php:26-28 | With no query parameters an administrator gets this month's report grouped by month. |
| ReportsController.GroupByIsOneOfFour | EstateHub-backend/app/Controllers/ReportsController.php:42-46 | With a valid range and a string group-by, the report succeeds exactly when it is day, week, month or year. |
| ReportsController.OccupancyPayload | EstateHub-backend/app/Controllers/ReportsController.php:97-104 | The occupancy payload has no status key of its own. |
| ReportsController.OccupancyCheck | EstateHub-backend/app/Controllers/ReportsController.php:77-91 | A truthy start date that is invalid, then a truthy invalid end date, then a reversed pair of truthy dates give their errors in that order; it goes on exactly when none applies. |
| ReportsController.OccupancyAnswer | EstateHub-backend/app/Controllers/ReportsController.php:77-108 | The first failing check answers, then a failing query gives 500, otherwise the report; it succeeds exactly when the checks pass and the query does not fail. |
| ReportsController.Occupancy | EstateHub-backend/app/Controllers/ReportsController.php:70-109 | Administrators only, the dates defaulting to null, then the checks. |
| ReportsController.OneDateAnswer | EstateHub-backend/app/Controllers/ReportsController.php:88-94 | With only a start date the report is the undated one. |
| ReportsController.OccupancyOneDateIgnored | EstateHub-backend/app/Controllers/ReportsController.php:74-94 | A query giving only a valid start date succeeds with the report over all leases. |
| ReportsController.MaintenancePayload | EstateHub-backend/app/Controllers/ReportsController.php:145-153 | The maintenance payload has no status key of its own. |
| ReportsController.CheckStatus | EstateHub-backend/app/Controllers/ReportsController.php:135-139 | A status passes exactly when it is falsy or one of the four request statuses. |
| ReportsController.MaintenanceCheck | EstateHub-backend/app/Controllers/ReportsController.php:123-139 | An invalid date, a reversed range and a truthy status not among the four give their errors in that order; it goes on exactly when the range is in order and the status allowed. |
| ReportsController.MaintenanceAnswer | EstateHub-backend/app/Controllers/ReportsController.php:123-157 | The first failing check answers, then a failing query gives 500, otherwise the report; it succeeds exactly when the checks pass and the query does not fail. |
| ReportsController.Maintenance | EstateHub-backend/app/Controllers/ReportsController.php:114-158 | Administrators only, with this month as the default range, then the checks. |
| ReportsController.StatusIsARequestStatus | EstateHub-backend/app/Controllers/ReportsController.php:135-139 | With a valid range and a non-empty string status, the report succeeds exactly when it is a request status. |
| ReportsController.ReportsNeedAuthentication | EstateHub-backend/app/Middleware/RoleMiddleware.php:8-20 | On a fresh request all four report endpoints answer 401. |
| ReportsController.ReportData | EstateHub-backend/app/Controllers/ReportsController.php:218-226 | Each report type selects its report by strict match (the revenue one with its default grouping); anything else gives no rows. |
| ReportsController.CsvLine | EstateHub-backend/app/Controllers/ReportsController.php:250-252 | A data line holds the row's value under each header column. |
| ReportsController.Csv | EstateHub-backend/app/Controllers/ReportsController.php:247-252 | A header line of the columns, then one line per row. |
| ReportsController.CsvReadsBack | EstateHub-backend/app/Controllers/ReportsController.php:247-252 | Reading cell j of data line i under header j gives back row i's value for that column. |
| ReportsController.ExportCsv | EstateHub-backend/app/Controllers/ReportsController.php:231-256 | No rows gives 404 NOT_FOUND; otherwise the CSV file of the rows. |
| ReportsController.ExportCheck | EstateHub-backend/app/Controllers/ReportsController.php:178-196 | An unknown report type, an unknown format and an invalid date give their errors in that order; it goes on exactly when the three checks pass. |
| ReportsController.ExportFile | EstateHub-backend/app/Controllers/ReportsController.php:198-212 | A failing query gives 500; format csv gives the CSV export of the report data and any other format the JSON file of it. |
| ReportsController.ExportAnswer | EstateHub-backend/app/Controllers/ReportsController.php:178-212 | A failing check answers with its error; once the checks pass, the answer is the export file. |
| ReportsController.Export | EstateHub-backend/app/Controllers/ReportsController.php:163-213 | Administrators only; a malformed body gives the JSON error; otherwise the export of the body's fields with their defaults. |
| ReportsController.FullBodyFilters | EstateHub-backend/app/Controllers/ReportsController.php:173-176 | A body giving all four fields is read as given. |
| ReportsController.TypeAndFormatFilters | EstateHub-backend/app/Controllers/ReportsController.php:173-176 | A body without dates exports this month. |
| ReportsController.ExportOfInput | EstateHub-backend/app/Controllers/ReportsController.php:166-213 | An administrator's well-formed body gets the export of its fields. |
| ReportsController.TrueTypeAnswer | EstateHub-backend/app/Controllers/ReportsController.php:180-233 | Report type true passes the loose check but matches no report, so a CSV export answers 404 NOT_FOUND. |
| ReportsController.TrueReportTypeFindsNothing | EstateHub-backend/app/Controllers/ReportsController.php:173-233 | A body whose report type is true gets 404 NOT_FOUND. |
| ReportsController.TrueFormatAnswer | EstateHub-backend/app/Controllers/ReportsController.php:187-205 | Format true passes the loose check and, not being 'csv', exports JSON. |
| ReportsController.TrueFormatExportsJson | EstateHub-backend/app/Controllers/ReportsController.php:173-205 | A body asking for the occupancy report with format true gets this month's occupancy report as JSON. |
| ReportsController.PerformanceAnswer | EstateHub-backend/app/Controllers/ReportsController.php:199-223 | The performance export as JSON has one row per property. |
| ReportsController.ExportAcceptsReversedRange | EstateHub-backend/app/Controllers/ReportsController.php:192-205 | The export checks the dates' format but not their order: a reversed range is exported. |
| ReportsController.CsvExportHasALinePerRow | EstateHub-backend/app/Controllers/ReportsController.php:199-252 | A CSV export is 404 exactly when the report has no rows, and otherwise has a header plus one line per row. |
| Dates.DaysInMonth | EstateHub-backend/app/Controllers/ReportsController.php:27 | A month has 28 to 31 days, and February has 29 exactly in leap years (the `t` of `Y-m-t`). |
| Dates.Format | EstateHub-backend/app/Controllers/ReportsController.php:283 | The `Y-m-d` spelling of an in-range date is ten characters long. |
| Dates.Compact | EstateHub-backend/app/Controllers/PaymentsController.php:93 | The `Ymd` spelling of an in-range date is eight digits. |
| Dates.MonthPath | EstateHub-backend/app/Services/FileUploadService.php:43 | The `Y/m/` path of an in-range date is eight characters with slashes after the year and the month. |
| Dates.Parse | EstateHub-backend/app/Controllers/ReportsController.php:282 | The fields read are at most four year digits and two month and day digits. |
| Dates.Overflow | EstateHub-backend/app/Controllers/ReportsController.php:282 | A day past the month's end rolls into later months and always gives a proper date; a day within the month is kept. |
| Dates.Normalize | EstateHub-backend/app/Controllers/ReportsController.php:282 | Out-of-range fields always give a proper date, and proper fields are kept. |
| Dates.ParseFormat | EstateHub-backend/app/Controllers/ReportsController.php:282-283 | Reading back the spelling of an in-range date gives its fields; an out-of-range one is not read. |
| Dates.ValidDateMeaning | EstateHub-backend/app/Controllers/ReportsController.php:281-284 | A string is accepted exactly when its fields form a proper date whose `Y-m-d` spelling is the string itself. |
| Dates.FormatIsValid | EstateHub-backend/app/Controllers/ReportsController.php:281-284 | The spelling of every in-range date is accepted. |
| Dates.DateOf | EstateHub-backend/app/Controllers/ReportsController.php:281-284 | An accepted string is the spelling of one in-range date. |
| Dates.DateOfFormat | EstateHub-backend/app/Controllers/ReportsController.php:281-284 | Spelling a date and reading it back gives the date. |
| Dates.FirstOfMonth | EstateHub-backend/app/Controllers/ReportsController.php:26 | `Y-m-01` is day 1 of today's month. |
| Dates.LastOfMonth | EstateHub-backend/app/Controllers/ReportsController.php:27 | `Y-m-t` is the last day of today's month, not before today. |
| Dates.MonthRangeValid | EstateHub-backend/app/Controllers/ReportsController.php:26-39 | Both default dates are accepted and in order. |
| MysqlDates.DayOfYear | EstateHub-backend/app/Models/Report.php:67 | A date's zero-based day of the year is at most 365, and 365 only in a leap year. |
| MysqlDates.NewYearAdvances | EstateHub-backend/app/Models/Report.php:67 | New Year's weekday advances by one, or two after a leap year. |
| MysqlDates.NewYearAnchors | EstateHub-backend/app/Models/Report.php:67 | 1 January 2024 is a Monday and 1 January 2023 a Sunday. |
| MysqlDates.Weekday | EstateHub-backend/app/Models/Report.php:67 | Weekdays are numbered 0 (Monday) to 6. |
| MysqlDates.WeekOfYear | EstateHub-backend/app/Models/Report.php:67 | The `%u` week is between 0 and 53. |
| MysqlDates.WeeksStartOnMonday | EstateHub-backend/app/Models/Report.php:60 | 1 January is in week 1 exactly when it falls on Monday to Thursday and in week 0 otherwise; the week number rises by one exactly on the days that are Mondays. |
| MysqlDates.DateFormat | EstateHub-backend/app/Models/Report.php:67 | DATE_FORMAT gives NULL exactly when the value is not a valid date, and a string otherwise. |
| MysqlDates.FormatPrefixes | EstateHub-backend/app/Models/Report.php:59-62 | The year and year-month spellings are prefixes of the date's spelling. |
| MysqlDates.PeriodsArePrefixes | EstateHub-backend/app/Models/Report.php:58-67 | For a valid date, the day period is the date, the month period its first seven characters, the year its first four, and the week period the year, a dash and two digits. |
| MysqlDates.DateSubMonths | EstateHub-backend/app/Models/Report.php:284 | DATE_SUB moves back n calendar months, clamping the day to the month's last day, and gives NULL outside years 0 to 9999. |
| MysqlDates.DateSubNothing | EstateHub-backend/app/Models/Report.php:284 | Subtracting zero months is the identity. |
| MysqlDates.DateSubGoesBack | EstateHub-backend/app/Models/Report.php:284 | Subtracting months never moves forward, and a positive number moves strictly back. |
| Aggregates.Sum | EstateHub-backend/app/Models/Report.php:90 | SUM over no rows is NULL, and otherwise the total of the values. |
| Aggregates.SumColumn | EstateHub-backend/app/Models/Report.php:90 | SUM of a column is NULL exactly when every value is NULL, and otherwise the total of the non-NULL ones. |
| Aggregates.CaseCountIsFilter | EstateHub-backend/app/Models/Report.php:116 | A `SUM(CASE WHEN col = v THEN 1 ELSE 0 END)` counts the rows whose column is v. |
| Aggregates.CasesCoverAll | EstateHub-backend/app/Models/Report.php:92-96 | When every row's column is one of the CASE values, the CASE columns add up to the plain total. |
| Aggregates.Groups | EstateHub-backend/app/Models/Report.php:77 | GROUP BY makes non-empty groups of rows sharing the first row's key. |
| Aggregates.GroupsPartition | EstateHub-backend/app/Models/Report.php:77 | The groups together hold every row once: their sizes and totals add up to the rows'. |
| Aggregates.GroupKeysDistinct | EstateHub-backend/app/Models/Report.php:77 | No two groups share a key. |
| Migrate.SortFiles | EstateHub-backend/migrate.php:11-12 | The migration files are reordered, none added or lost. |
| Migrate.SortFilesSorts | EstateHub-backend/migrate.php:12 | sort leaves the files in ascending byte order and is a permutation of them. |
| Migrate.CommonPrefixOrder | EstateHub-backend/migrate.php:11-12 | Paths in one directory sort as their file names do. |
| Migrate.MigrationName | EstateHub-backend/migrate.php:33 | basename drops the `.php` suffix when the name is longer than it, and otherwise keeps the name. |
| Migrate.UcWords | EstateHub-backend/migrate.php:41 | ucwords upper-cases each letter that starts the string or follows a space, and keeps every other character. |
| Migrate.WithoutSpaces | EstateHub-backend/migrate.php:41 | Removing spaces keeps every other character, as many times as before. |
| Migrate.ClassNameHasNoSeparators | EstateHub-backend/migrate.php:41 | A derived class name holds no underscore and no space. |
| Migrate.ClassNameOfWords | EstateHub-backend/migrate.php:40-41 | The class name of underscore-joined plain words is the words capitalized and concatenated. |
| Migrate.UsersTableClass | EstateHub-backend/migrate.php:40 | A_create_users_table gives ACreateUsersTable, as the comment promises. |
| Migrate.MaxBatch | EstateHub-backend/migrate.php:29 | The largest batch in the table is at least every batch and is one of them. |
| Migrate.NextBatchFollows | EstateHub-backend/migrate.php:29-30 | The new batch is 1 on an empty table and one more than the largest otherwise, so it exceeds every recorded batch. |
| Migrate.Recorded | EstateHub-backend/migrate.php:25-26 | The recorded names, one per table row, in order. |
| Migrate.Unrecorded | EstateHub-backend/migrate.php:32-35 | The pending files are files whose name was not run. |
| Migrate.PendingAreUnrecordedFiles | EstateHub-backend/migrate.php:11-35 | When every name starts with a letter, the pending files are sorted and are exactly the files whose name is not recorded. |
| Migrate.OutcomeRecordsInOrder | EstateHub-backend/migrate.php:32-67 | The run records a prefix of the pending files in order under the new batch, each having defined its class and run; it completes exactly when all were recorded, and otherwise stops at the next file with the missing class or failure. |
| Migrate.RunMigrations | EstateHub-backend/migrate.php:7-70 | The table afterwards is the old one followed by the records of the run, and the run stops as the outcome says. |
| Migrate.RunOne | EstateHub-backend/migrate.php:33-66 | For one file of the sorted list: a recorded file adds nothing; a file without its class or whose statement fails stops the run there with nothing more recorded; otherwise the file's record comes next, and the run goes on with the following file. |
| Migrate.RunKeepsAndExtends | EstateHub-backend/migrate.php:29-65 | Old records are kept; each new record names the next pending file, in order, under a batch above every earlier one. |
| Frontend.Headers | frontend/js/script.js:22-23 | The JSON content type is always sent, and the bearer header exactly when the token is non-empty. |
| Frontend.Authorization | frontend/js/script.js:23 | The Authorization value is found exactly when such a header is present. |
| Frontend.TokenReachesMiddleware | frontend/js/script.js:22-23 | A non-empty token without whitespace sent by the browser is the token the middleware extracts; with no token no header is sent. |
| Frontend.Lower | frontend/js/script.js:127 | toLowerCase maps A-Z to a-z and keeps every other character. |
| Frontend.EmailPatternIsShape | frontend/js/script.js:127 | The email pattern matches exactly a non-empty local part without whitespace or @, an @, and a domain with a dot that has non-empty parts on both sides. |
| Frontend.LowerKeepsShape | frontend/js/script.js:127 | Lower-casing neither adds nor removes that shape. |
| Frontend.ValidateEmail | frontend/js/script.js:127 | validateEmail accepts exactly the strings of that shape. |
| Frontend.ParsePhone | frontend/js/script.js:128 | A phone read by the parser renders back to the input. |
| Frontend.PhoneRoundTrip | frontend/js/script.js:128 | Parsing the rendering of any well-formed phone gives it back. |
| Frontend.ValidatePhoneIsPattern | frontend/js/script.js:128 | validatePhone accepts exactly the renderings of well-formed phones. |
| Frontend.PhoneBounds | frontend/js/script.js:128 | An accepted phone has 10 to 12 digits and 10 to 17 characters. |
| Frontend.LoginRequest | frontend/js/script.js:242-247 | No request when the trimmed email or the password is empty; otherwise the body of the trimmed email and the password. |
| Frontend.LoginBodyIsWellFormed | frontend/js/script.js:242-247 | The server accepts the body's fields exactly when neither is "0", which PHP's empty() also rejects. |
| Frontend.RoleRedirect | frontend/js/script.js:256-263 | The admin page exactly for admin, the tenant page exactly for tenant, the home page for anything else. |
| Frontend.LoginOpensStoredRolesPage | frontend/js/script.js:250-263 | After a successful login the page opened is that of the role stored for the user. |
| Frontend.ReadForm | frontend/js/script.js:278-283 | Name, email and phone are trimmed; role and passwords are taken as entered. |
| Frontend.RegisterRequest | frontend/js/script.js:285-289 | A request is sent exactly when every field is filled and the passwords match, with the five fields the server reads. |
| Frontend.RegisterBodyHasRequiredFields | frontend/js/script.js:285-289 | The server finds every required field exactly when none of email, password and name is "0". |
| Text.Bin2Hex | EstateHub-backend/app/Controllers/AuthController.php:201 | bin2hex gives two lower-case hex digits per byte. |
| Text.HexRoundTrip | EstateHub-backend/app/Controllers/AuthController.php:201 | Decoding the hex spelling gives back the bytes, so distinct random tokens have distinct spellings. |

## Left out

- ORDER BY is not applied: listings come back in storage order. Only which rows a page holds is modelled, not their order.
- AVG, MIN, MAX, ROUND and DATEDIFF columns of the report queries, and the occupancy rates, are not modelled: they need floating point or the wall clock.
- Money is integer cents: `floatval` is a parameter (`cents`), so float rounding is not modelled. The DECIMAL price is compared with a listing's price bound after MySQL converts the bound to a number; the model converts the bound with the same `cents`, taking MySQL's conversion and `floatval` to agree.
- SQL errors are not modelled: PDO exceptions, the `Database` singleton and the 500 `SERVER_ERROR` answers of the catch blocks. Rows are maps keyed by the column names the code uses, so a statement that names a column the migrations do not declare still runs in the model. The code names these undeclared columns: `password` (see Findings), `cost` and `completed_at` (the report queries), `reset_token_expires` (AuthController.php:206,248 and User.php:66; the users table declares `reset_token_expiry`), `last_login_at` (User.php:103, written on every login that passes the password check, AuthController.php:145), and `t.lease_start`/`t.lease_end` (Report.php:142,150; the tenants table declares `lease_start_date`/`lease_end_date`). Where a report can fail, the failure is the parameter `raises`.
- Column types are not modelled: a value keeps the PHP type it was written with. Two strings compare as text, where MySQL compares an INT or DECIMAL column numerically. The property writes convert their numeric columns (`intval` counts, the price in cents), so the listing's bedroom and price filters compare numbers. A numeric column elsewhere written from a string (an id read from a form) compares as text with another string, which differs from MySQL only for spellings like "05".
- Column DEFAULTs are not modelled: a column the INSERT leaves out is absent from the row, where MySQL fills `created_at` with CURRENT_TIMESTAMP.
- `Logger`, `echo`, `exit`, the envelope's `timestamp => date('c')`, HTTP headers, and the `Content-Disposition` file names and `generated_at` of exports are I/O, not state.
- `EmailService` and `sendPaymentReceipt` are foreign calls with no effect on the answer.
- `CorsMiddleware` only sets headers.
- The avatar's old-file deletion (UserController.php:53-60) and `generateWebP` are file-system effects and not modelled; `mkdir` and `move_uploaded_file` succeed or fail through parameters.
- The clock (`time()`, `date()`, `CURDATE()`), `random_bytes`, `mt_rand` and `uniqid` are parameters.
- The JWT library is a parameter pair (encode, decode); its signature scheme is not modelled.
- `password_hash` and `password_verify` are a parameter pair (`Hasher`).
- `strtotime` is a parameter wherever a lease or expiry is compared.
- `BaseModel::countAll`, `Property::updateStatus`, `User::verifyPassword` and `User::updatePassword` are called but defined nowhere in the source, so they are parameters.
- `TenantsController::update` and `::destroy` are routed but not defined, so they are not modelled. The `auth/me` and `auth/refresh` actions exist but are unrouted (`Router.NoRouteToMeOrRefresh`).
- `migrate.php`: `require_once` and class loading are the parameters `defines` and `succeeds`; the `CREATE TABLE migrations` statement and the migrations' own DDL are not modelled. The migration files are used only for the enum domains and column names.
- PHP runtime details: numeric strings are limited to integers; `ucwords` assumes ASCII; JavaScript `toLowerCase` is modelled on ASCII letters only.
- The browser side: `JSON.stringify`, `fetch`, the DOM, toasts, `localStorage` and modals are not modelled. `js/script.js` only opens and closes modals and toggles the navigation, so it is not modelled.
- Array-valued query parameters are not modelled; query values are strings or absent.
- Migrate.PendingAreUnrecordedFiles: exact only when every migration name starts with a letter, because `in_array` compares loosely and numeric-looking names could equal one another.
- PaymentModel.CountIsListingTotal: assumes every payment's tenancy, user and property exist, because the schema's ON DELETE CASCADE is not modelled.
- MaintenanceModel.CountListedIsListingTotal: assumes every request's property and reporter exist, for the same reason.
- ReportRevenue.TypeSumsAddUp: assumes every selected payment has one of the five summary types. The payments schema allows 'penalty', which falls into none of the five columns, and 'utility' and 'other' do not occur in it.
- ReportOccupancy.GetOccupancyReport: `COUNT(DISTINCT t.id)` is modelled as the number of kept rows with a tenancy id. The two agree because tenancy ids are primary keys.
- NotificationController.ListingIsCallersOwn: holds only for a `countAll` that counts like `findAll` (`CountsLikeFindAll`), since the source never defines one.
- UserModel.FindByEmail: compares emails code point by code point. The tables' utf8mb4_unicode_ci collation (A_create_users_table.php:22) compares case-insensitively and ignores trailing spaces, so the source finds "bob@x.com" when asked for "Bob@x.com". The same exact comparison stands in AuthController.RegisterCheck's duplicate check (the model accepts "Bob@x.com" next to "bob@x.com"), AuthController.LoginWith, AuthController.ForgotPassword, and every text equality built on `Sql.Compare`, among them the city filter of PropertyModel.Selected and the status filters. Unicode collation is not modelled.
- MaintenanceController.NewRequest: the new row has no `created_at`, which MySQL fills with CURRENT_TIMESTAMP (D_create_maintenance_table.php:20). A request filed through the API therefore never falls within the date range of ReportMaintenance.GetMaintenanceReport or ReportPerformance, where the source counts it in the current range.
- AuthController.LoggedIn: against the declared schema `updateLastLogin` fails on `last_login_at`, so as written every login that passes the password check answers 500 "Login failed". The model states the success the code is written to give.
- AuthController.ResetWithLiveToken: against the declared schema `reset_token_expires` does not exist, so forgotPassword and resetPassword fail with 500. The model states the reset the code is written to perform.
- AuthController.ForgotThenReset: holds only for a users table with the `reset_token_expires` column the code uses, for the same reason.
- ReportOccupancy.GetOccupancyReport: selects `MAX(t.lease_end)` unconditionally (Report.php:142), a column the tenants table does not declare, so against the declared schema the occupancy report always fails. The model describes the rows the query is written to group.
- ReportOccupancy.DatedListsOverlapping: filters on `t.lease_start` and `t.lease_end` (Report.php:150), undeclared for the same reason; it describes what the dated filter is written to keep.
- Validate.Paginate: the offset `($page - 1) * $limit` is an unbounded integer. In PHP a page near PHP_INT_MAX makes the product a float, which is bound as a non-integer offset; the model answers an empty page instead.
- Validate.PageCount: `pages` is an integer, where PHP's `ceil()` yields a float that JSON encodes with a fractional part (`1.0`).
- Router.Match: the route patterns end in `$`, which in PCRE also matches before a final newline; the model requires the path to end exactly where the pattern does.

## Findings

| source | as written | input that shows it | evidently intended | confidence | as-written member | corrected member |
|---|---|---|---|---|---|---|
| EstateHub-backend/app/Controllers/AuthController.php:60-67 | register stores the hash under `password`, a column the users table does not declare, while login reads `password_hash` | register a user, then log in with the same email and password: 401 invalid credentials (the model does not reject unknown columns; against the declared schema the INSERT itself fails) | the hash is stored under `password_hash`, so the new user can log in | not executed | AuthController.RegisteredUserCannotLogIn | AuthController.CorrectedRegistrationLogsIn |
| EstateHub-backend/app/Controllers/UserController.php:27 | the profile unsets `password_hash` but not `password`, which is where register put the hash | register, then GET the profile: the response carries the hash under `password` | no password hash is ever returned | not executed | Flows.ProfileShowsPasswordHash | Flows.CorrectedProfileHidesPasswordHash |
| EstateHub-backend/app/Models/Maintenance.php:44-61 | countAllRequests ignores the `property_id` filter that getAllRequests applies | one request on property 1, admin index with `property_id=2`: total 1, listing empty | the total counts the same requests the listing pages through | not executed | MaintenanceModel.CountAllRequestsIgnoresProperty | MaintenanceModel.CountListedIsListingTotal |
| EstateHub-backend/app/Models/Report.php:87-103 | the revenue queries, analysis and dashboard count status 'completed', but payments are recorded 'paid' and the schema has no 'completed' | record a payment, then ask for the revenue summary: nothing changes | settled payments (status 'paid') are counted | not executed | ReportRevenue.RecordedPaymentNotCounted | ReportRevenue.RecordedPaymentCounted |
| EstateHub-backend/app/Models/Report.php:164-184 | the status counts add 1 per LEFT JOIN row, so a property counts once per tenancy | one occupied property with two tenancies: 1 property, 2 occupied | each property is counted once | not executed | ReportOccupancy.OccupiedExceedsTotal | ReportOccupancy.CorrectedCountsProperties |
| EstateHub-backend/app/Models/Report.php:256 | the summary counts priority 'urgent', which the schema does not allow | one 'emergency' request in range: urgent_requests 0 | the highest priority, 'emergency', is counted | not executed | ReportMaintenance.EmergencyNotUrgent | ReportMaintenance.CorrectedUrgentCounts |
| EstateHub-backend/app/Models/Report.php:311-333 | payments and requests are both LEFT JOINed before SUM, so each side is multiplied by the other's row count | one payment of 100 and two requests in range: revenue 200 | each table is summed on its own | not executed | ReportPerformance.RevenueDoubled | ReportPerformance.CorrectedTablesIndependent |
| EstateHub-backend/app/Models/Report.php:302 | overdue payments are pending ones whose `payment_date` is past | a pending payment dated yesterday, due next week: counted overdue | overdue compares `due_date`, as Payment::getOverduePayments does | not executed | ReportAnalysis.OverdueByPaymentDate | ReportAnalysis.CorrectedOverdueIsListing |
