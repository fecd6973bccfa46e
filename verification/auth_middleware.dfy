/**
 AuthMiddleware: authenticate the bearer token of the current request and
 remember its claims for the rest of the request (`$GLOBALS['user']`).
 */
module AuthMiddleware {
  import opened Text
  import opened Php
  import opened Wrappers
  import opened Http
  import Jwt

  /** What a request can observe of its surroundings while authenticating. */
  datatype Env = Env(auth: Jwt.AuthSource, codec: Jwt.Codec, secretEnv: Option<string>, now: int)

  /** The per-request state: the environment and the claims Handle stored, if any. */
  datatype Request = Request(env: Env, user: Option<Row>)

  /** Every request starts with no authenticated user. */
  function Begin(env: Env): (req: Request)
    ensures req.user.None? && req.env == env
  {
    Request(env, None)
  }

  /** `!$token`: no token, or a falsy one (the token "0"). */
  predicate Falsy(token: Option<string>) {
    token.None? || !Truthy(Str(token.value))
  }

  /** `!$token` for the token of the request's Authorization header. */
  predicate NoToken(auth: Jwt.AuthSource) {
    Falsy(Jwt.GetTokenFromHeader(auth))
  }

  /** The claims the request's token verifies to, when it carries one. */
  function Verified(env: Env): Option<Row>
    requires Jwt.GetTokenFromHeader(env.auth).Some?
  {
    Jwt.VerifyToken(env.codec, env.secretEnv, Jwt.GetTokenFromHeader(env.auth).value, env.now)
  }

  function NoTokenError(): Outcome {
    Error("Authentication token required", "UNAUTHORIZED", Arr(map[]), 401)
  }

  function BadTokenError(): Outcome {
    Error("Invalid or expired token", "INVALID_TOKEN", Arr(map[]), 401)
  }

  /** The handler's decision once the token has been read from the header. */
  function Admit(req: Request, token: Option<string>): (s: Step<(Request, Row)>)
    ensures s.Next? ==> && s.value.0 == req.(user := Some(s.value.1)) && |s.value.1| > 0 && !Falsy(token)
                        && Jwt.VerifyToken(req.env.codec, req.env.secretEnv, token.value, req.env.now) == Some(s.value.1)
    ensures s.Halt? ==> s.out == if Falsy(token) then NoTokenError() else BadTokenError()
    ensures !Falsy(token) && Jwt.VerifyToken(req.env.codec, req.env.secretEnv, token.value, req.env.now).Some?
            && |Jwt.VerifyToken(req.env.codec, req.env.secretEnv, token.value, req.env.now).value| > 0 ==>
              s == Next((req.(user := Jwt.VerifyToken(req.env.codec, req.env.secretEnv, token.value, req.env.now)),
                         Jwt.VerifyToken(req.env.codec, req.env.secretEnv, token.value, req.env.now).value))
  {
    if Falsy(token) then Halt(NoTokenError())
    else match Jwt.VerifyToken(req.env.codec, req.env.secretEnv, token.value, req.env.now)
      case None => Halt(BadTokenError())
      case Some(claims) =>
        if !Truthy(Arr(claims)) then Halt(BadTokenError())
        else Next((req.(user := Some(claims)), claims))
  }

  /**
   AuthMiddleware::handle. A missing (or falsy "0") token answers 401
   UNAUTHORIZED, a token that does not verify (or verifies to no claims)
   401 INVALID_TOKEN; a token that verifies to claims stores and returns
   them.
   */
  function Handle(req: Request): (s: Step<(Request, Row)>)
    ensures s.Next? ==> s.value.0 == req.(user := Some(s.value.1))
    ensures s.Next? ==> |s.value.1| > 0
    ensures s.Next? ==> !NoToken(req.env.auth) && Verified(req.env) == Some(s.value.1)
    ensures s.Halt? ==> s.out == if NoToken(req.env.auth) then NoTokenError() else BadTokenError()
    ensures !NoToken(req.env.auth) && Verified(req.env).Some? && |Verified(req.env).value| > 0 ==>
              s == Next((req.(user := Verified(req.env)), Verified(req.env).value))
  {
    Admit(req, Jwt.GetTokenFromHeader(req.env.auth))
  }

  /** AuthMiddleware::requireAuth: the same as Handle. */
  function RequireAuth(req: Request): Step<(Request, Row)> {
    Handle(req)
  }

  /** AuthMiddleware::getUser: `$GLOBALS['user'] ?? null`. */
  function GetUser(req: Request): Option<Row> {
    req.user
  }

  /** AuthMiddleware::generateToken forwards to JWTHandler, at the request's clock. */
  function GenerateToken(env: Env, payload: Row): string {
    Jwt.GenerateToken(env.codec, env.secretEnv, payload, env.now)
  }

  lemma TrimKeepsBearerHeader(token: string)
    requires Jwt.IsCompactToken(token)
    ensures PhpTrim("Bearer " + token) == "Bearer " + token
    ensures forall k :: 0 <= k < |token| ==> Jwt.NotSpace(token[k])
  {
    var h := "Bearer " + token;
    assert '.' in token;
    assert !IsPhpTrimChar(h[0]);
    assert !IsPhpTrimChar(h[|h| - 1]) by { assert h[|h| - 1] == token[|token| - 1]; }
  }

  /**
   A token the handler issued, presented as "Bearer <token>" before it
   expires, authenticates the request with exactly the stamped claims.
   */
  lemma IssuedTokenAuthenticates(env: Env, payload: Row, issuedAt: int)
    requires Jwt.RoundTrips(env.codec) && Jwt.EmitsCompactTokens(env.codec)
    requires env.auth.server == Some("Bearer " + Jwt.GenerateToken(env.codec, env.secretEnv, payload, issuedAt))
    requires issuedAt <= env.now < issuedAt + Jwt.EXPIRY
    ensures Handle(Begin(env)) == Next((Request(env, Some(Jwt.Stamp(payload, issuedAt))), Jwt.Stamp(payload, issuedAt)))
  {
    var token := Jwt.GenerateToken(env.codec, env.secretEnv, payload, issuedAt);
    var claims := Jwt.Stamp(payload, issuedAt);
    assert Jwt.IsCompactToken(token);
    TrimKeepsBearerHeader(token);
    Jwt.BearerRoundTrip(token);
    assert Jwt.GetTokenFromHeader(env.auth) == Some(token);
    Jwt.CompactTokenIsTruthy(token);
    Jwt.TokenRoundTrip(env.codec, env.secretEnv, payload, issuedAt, env.now);
    assert Jwt.VerifyToken(env.codec, env.secretEnv, token, env.now) == Some(claims);
    assert "iat" in claims;
  }
}
