/**
 JWTHandler: stamping and signing claims, verifying tokens, and pulling the
 bearer token out of the Authorization header. HS256 signing itself is a
 parameter (`Codec`); what the handler relies on is stated as the
 hypothesis `RoundTrips`: a token decodes, under the same secret, to the
 claims it was made from while its issue/expiry window lasts.
 */
module Jwt {
  import opened Text
  import opened Php
  import opened Wrappers

  /** Lifetime of a token in seconds (`$expiry`). */
  const EXPIRY: int := 3600

  /** The secret used when JWT_SECRET is not set. */
  const DEFAULT_SECRET: string := "supersecretkey"

  /** The ways the JWT library can refuse a token. */
  datatype JwtError = Malformed | SignatureInvalid | Expired | BeforeValid | UnexpectedValue

  datatype Decoded = Accepted(claims: Row) | Rejected(reason: JwtError)

  /** HS256 encoding and decoding with a secret; decoding also reads the clock. */
  datatype Codec = Codec(encode: (Row, string) -> string, decode: (string, string, int) -> Decoded)

  /** The claims carry an issue time and an expiry and `t` lies in between (the library's leeway is 0). */
  predicate InWindow(claims: Row, t: int) {
    "iat" in claims && "exp" in claims && claims["iat"].Int? && claims["exp"].Int?
    && claims["iat"].i <= t < claims["exp"].i
  }

  /** The library's promise: an unexpired token decodes to the claims it was made from. */
  ghost predicate RoundTrips(codec: Codec) {
    forall claims: Row, secret: string, t: int {:trigger codec.decode(codec.encode(claims, secret), secret, t)} ::
      InWindow(claims, t) ==> codec.decode(codec.encode(claims, secret), secret, t) == Accepted(claims)
  }

  /** A compact JWS: base64url characters and dots, at least one dot. */
  predicate IsCompactToken(t: string) {
    (forall i :: 0 <= i < |t| ==> IsAsciiLetter(t[i]) || IsDigit(t[i]) || t[i] in "-_.")
    && '.' in t
  }

  /** A compact token is never one of the strings PHP treats as false. */
  lemma CompactTokenIsTruthy(t: string)
    requires IsCompactToken(t)
    ensures Truthy(Str(t))
  {
    assert '.' !in "0";
  }

  ghost predicate EmitsCompactTokens(codec: Codec) {
    forall claims: Row, secret: string {:trigger codec.encode(claims, secret)} ::
      IsCompactToken(codec.encode(claims, secret))
  }

  /** `$_ENV['JWT_SECRET'] ?? 'supersecretkey'`. */
  function Secret(env: Option<string>): string {
    env.GetOr(DEFAULT_SECRET)
  }

  /**
   array_merge($payload, ['iat' => now, 'exp' => now + 3600]): the caller's
   claims are kept, and iat/exp always take the handler's values.
   */
  function Stamp(payload: Row, now: int): (claims: Row)
    ensures claims.Keys == payload.Keys + {"iat", "exp"}
    ensures claims["iat"] == Int(now) && claims["exp"] == Int(now + EXPIRY)
    ensures forall k :: k in payload && k != "iat" && k != "exp" ==> claims[k] == payload[k]
    ensures forall t :: now <= t < now + EXPIRY ==> InWindow(claims, t)
  {
    payload["iat" := Int(now)]["exp" := Int(now + EXPIRY)]
  }

  /** JWTHandler::generateToken. */
  function GenerateToken(codec: Codec, secretEnv: Option<string>, payload: Row, now: int): string {
    codec.encode(Stamp(payload, now), Secret(secretEnv))
  }

  /** JWTHandler::verifyToken: every decoding failure, whatever its kind, becomes null. */
  function VerifyToken(codec: Codec, secretEnv: Option<string>, token: string, now: int): (r: Option<Row>)
    ensures r.None? <==> codec.decode(token, Secret(secretEnv), now).Rejected?
    ensures r.Some? ==> codec.decode(token, Secret(secretEnv), now) == Accepted(r.value)
  {
    match codec.decode(token, Secret(secretEnv), now)
    case Accepted(claims) => Some(claims)
    case Rejected(_) => None
  }

  /**
   A token issued at `issuedAt` verifies at any time `t` before it expires,
   and yields exactly the stamped claims.
   */
  lemma TokenRoundTrip(codec: Codec, secretEnv: Option<string>, payload: Row, issuedAt: int, t: int)
    requires RoundTrips(codec)
    requires issuedAt <= t < issuedAt + EXPIRY
    ensures VerifyToken(codec, secretEnv, GenerateToken(codec, secretEnv, payload, issuedAt), t)
            == Some(Stamp(payload, issuedAt))
  {
    var claims := Stamp(payload, issuedAt);
    assert InWindow(claims, t);
    assert codec.decode(codec.encode(claims, Secret(secretEnv)), Secret(secretEnv), t) == Accepted(claims);
  }

  // ---------------------------------------------------------------------------
  // The pattern /Bearer\s(\S+)/
  // ---------------------------------------------------------------------------

  predicate NotSpace(c: char) { !IsPcreSpace(c) }

  /** The pattern matches at position `i`: "Bearer", one \s character, then at least one \S character. */
  predicate BearerAt(h: string, i: nat) {
    OccursAt(h, "Bearer", i) && i + 7 < |h| && IsPcreSpace(h[i + 6]) && NotSpace(h[i + 7])
  }

  /** The greedy \S+ run starting at `start`. */
  function SpanFrom(h: string, start: nat): (t: string)
    requires start <= |h|
    ensures forall k :: 0 <= k < |t| ==> NotSpace(t[k])
    ensures start + |t| <= |h| && h[start .. start + |t|] == t
    ensures start + |t| < |h| ==> IsPcreSpace(h[start + |t|])
  {
    var n := LeadingCount(h[start..], NotSpace);
    h[start .. start + n]
  }

  /** The leftmost position at or after `from` where the pattern matches. */
  function FindBearer(h: string, from: nat): (p: Option<nat>)
    ensures p.Some? ==> from <= p.value && BearerAt(h, p.value)
    ensures p.Some? ==> forall j :: from <= j < p.value ==> !BearerAt(h, j)
    ensures p.None? ==> forall j :: from <= j ==> !BearerAt(h, j)
    decreases |h| - from
  {
    if from + 7 >= |h| then None
    else if BearerAt(h, from) then Some(from)
    else FindBearer(h, from + 1)
  }

  /**
   preg_match('/Bearer\s(\S+)/', h) and its first group: the \S+ run after
   the leftmost place where the whole pattern matches (a "Bearer" followed
   by two spaces does not match there, but a later "Bearer" still can).
   */
  function ExtractBearer(h: string): (r: Option<string>)
    ensures r.None? <==> forall i :: !BearerAt(h, i)
    ensures r.Some? ==> |r.value| > 0 && forall k :: 0 <= k < |r.value| ==> NotSpace(r.value[k])
    ensures r.Some? ==> exists i: nat :: BearerAt(h, i) && (forall j :: 0 <= j < i ==> !BearerAt(h, j))
                                    && r.value == SpanFrom(h, i + 7)
  {
    match FindBearer(h, 0)
    case None => None
    case Some(i) => Some(SpanFrom(h, i + 7))
  }

  /** What the front end sends, "Bearer " + token, gives the token back. */
  lemma BearerRoundTrip(token: string)
    requires |token| > 0 && forall k :: 0 <= k < |token| ==> NotSpace(token[k])
    ensures ExtractBearer("Bearer " + token) == Some(token)
  {
    var h := "Bearer " + token;
    assert h[..6] == "Bearer";
    assert h[7] == token[0];
    assert BearerAt(h, 0);
    assert FindBearer(h, 0) == Some(0);
    assert h[7..] == token;
    assert LeadingCount(token, NotSpace) == |token|;
    assert SpanFrom(h, 7) == h[7 .. 7 + |token|] == token;
  }

  /** The scheme name is case-sensitive. */
  lemma LowerCaseSchemeRejected()
    ensures ExtractBearer("bearer x") == None
  {
    var h := "bearer x";
    forall i | true ensures !BearerAt(h, i) {
      if i == 0 { assert h[0] != "Bearer"[0]; assert h[..6] != "Bearer"; }
    }
  }

  /** The pattern is not anchored: text before "Bearer" is allowed. */
  lemma UnanchoredMatch()
    ensures ExtractBearer("xBearer y") == Some("y")
  {
    var h := "xBearer y";
    assert h[0] != "Bearer"[0];
    assert !BearerAt(h, 0);
    assert h[1..7] == "Bearer";
    assert BearerAt(h, 1);
    assert FindBearer(h, 0) == Some(1);
    assert h[8..] == "y";
    assert LeadingCount("y", NotSpace) == 1;
    assert SpanFrom(h, 8) == "y";
  }

  /** Exactly one whitespace character may separate the scheme from the token. */
  lemma TwoSpacesRejected()
    ensures ExtractBearer("Bearer  y") == None
  {
    var h := "Bearer  y";
    forall i | true ensures !BearerAt(h, i) {
      if i == 1 { assert h[1] != "Bearer"[0]; assert h[1..7] != "Bearer"; }
    }
  }

  /** JWTHandler::getUserFromBearer: extract, then verify; no match gives null. */
  function GetUserFromBearer(codec: Codec, secretEnv: Option<string>, header: string, now: int): (r: Option<Row>)
    ensures ExtractBearer(header).None? ==> r.None?
    ensures r.Some? ==> codec.decode(ExtractBearer(header).value, Secret(secretEnv), now) == Accepted(r.value)
    ensures ExtractBearer(header).Some? ==> r == VerifyToken(codec, secretEnv, ExtractBearer(header).value, now)
  {
    match ExtractBearer(header)
    case None => None
    case Some(token) => VerifyToken(codec, secretEnv, token, now)
  }

  /**
   The header "Bearer <token>" for a token issued within the last hour
   gives back the claims the token was issued with.
   */
  lemma IssuedBearerGivesUser(codec: Codec, secretEnv: Option<string>, payload: Row, issuedAt: int, t: int)
    requires RoundTrips(codec) && EmitsCompactTokens(codec)
    requires issuedAt <= t < issuedAt + EXPIRY
    ensures GetUserFromBearer(codec, secretEnv, "Bearer " + GenerateToken(codec, secretEnv, payload, issuedAt), t)
            == Some(Stamp(payload, issuedAt))
  {
    var token := GenerateToken(codec, secretEnv, payload, issuedAt);
    assert IsCompactToken(token);
    assert |token| > 0 by { assert '.' in token; }
    assert forall k :: 0 <= k < |token| ==> NotSpace(token[k]);
    BearerRoundTrip(token);
    TokenRoundTrip(codec, secretEnv, payload, issuedAt, t);
  }

  /**
   Where the Authorization header can be read: `$_SERVER['HTTP_AUTHORIZATION']`,
   and, when the server offers apache_request_headers(), its `Authorization` entry.
   */
  datatype AuthSource = AuthSource(server: Option<string>, apacheAvailable: bool, apache: Option<string>)

  /**
   JWTHandler::getTokenFromHeader: the server variable wins whenever it is set;
   only otherwise is the Apache header consulted; either is trimmed first.
   */
  function GetTokenFromHeader(src: AuthSource): (r: Option<string>)
    ensures src.server.Some? ==> r == ExtractBearer(PhpTrim(src.server.value))
    ensures src.server.None? && src.apacheAvailable && src.apache.Some? ==>
              r == ExtractBearer(PhpTrim(src.apache.value))
    ensures src.server.None? && !(src.apacheAvailable && src.apache.Some?) ==> r.None?
    ensures r.Some? ==> |r.value| > 0 && forall k :: 0 <= k < |r.value| ==> NotSpace(r.value[k])
  {
    var headers: Option<string> :=
      if src.server.Some? then Some(PhpTrim(src.server.value))
      else if src.apacheAvailable && src.apache.Some? then Some(PhpTrim(src.apache.value))
      else None;
    if headers.None? then None
    else if Empty(Str(headers.value)) then ShortHeaderHasNoBearer(headers.value); None
    else ExtractBearer(headers.value)
  }

  /** The headers empty() rejects ("" and "0") are too short to match anyway. */
  lemma ShortHeaderHasNoBearer(h: string)
    requires |h| < 8
    ensures ExtractBearer(h).None?
  {
  }
}
