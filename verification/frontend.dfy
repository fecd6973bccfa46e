/**
 The browser side of EstateHub that talks to the API: the headers every
 request carries, the two form validators, the login and registration
 requests the forms send, and the page a successful login opens. Each is
 paired with the back-end code it meets: the bearer token the auth
 middleware extracts, the presence checks of AuthController, and the user
 view login answers with.
 */
module Frontend {
  import opened Php
  import opened Wrappers
  import opened Text
  import opened Http
  import opened Constants
  import Jwt
  import AuthController
  import AuthMiddleware
  import Validate
  import Store

  // ---------------------------------------------------------------------
  // apiRequest
  // ---------------------------------------------------------------------

  /** One request header. */
  datatype Header = Header(name: string, value: string)

  const JSON_TYPE: Header := Header("Content-Type", "application/json")

  /**
   The headers of apiRequest for a stored token (`None` for JavaScript's
   null): the JSON content type always, and an Authorization header only for
   a truthy token, that is a non-empty string.
   */
  function Headers(token: Option<string>): (hs: seq<Header>)
    ensures |hs| >= 1 && hs[0] == JSON_TYPE
    ensures |hs| == 2 <==> token.Some? && token.value != ""
    ensures |hs| <= 2
    ensures |hs| == 2 ==> hs[1] == Header("Authorization", "Bearer " + token.value)
  {
    if token.Some? && token.value != "" then [JSON_TYPE, Header("Authorization", "Bearer " + token.value)]
    else [JSON_TYPE]
  }

  /** The value of the Authorization header, as PHP reads it: `null` when there is none. */
  function Authorization(hs: seq<Header>): (v: Option<string>)
    ensures v.Some? <==> exists i :: 0 <= i < |hs| && hs[i].name == "Authorization"
    ensures v.Some? ==> exists i :: 0 <= i < |hs| && hs[i] == Header("Authorization", v.value)
  {
    if |hs| == 0 then None
    else if hs[0].name == "Authorization" then Some(hs[0].value)
    else
      var rest := Authorization(hs[1..]);
      assert forall i :: 1 <= i < |hs| ==> hs[i] == hs[1..][i - 1];
      rest
  }

  /**
   A token without whitespace, which is what the back end issues, comes back
   out of the header apiRequest builds: the auth middleware's bearer
   extraction yields exactly the stored token. Without a token there is no
   header to extract from.
   */
  lemma TokenReachesMiddleware(token: Option<string>)
    ensures token.Some? && token.value != "" && (forall k :: 0 <= k < |token.value| ==> Jwt.NotSpace(token.value[k])) ==>
              && Authorization(Headers(token)).Some?
              && Jwt.ExtractBearer(Authorization(Headers(token)).value) == Some(token.value)
    ensures !(token.Some? && token.value != "") ==> Authorization(Headers(token)).None?
  {
    var hs := Headers(token);
    if token.Some? && token.value != "" {
      assert hs[0].name != "Authorization";
      assert Authorization(hs) == Authorization(hs[1..]);
      assert hs[1..] == [Header("Authorization", "Bearer " + token.value)];
      if forall k :: 0 <= k < |token.value| ==> Jwt.NotSpace(token.value[k]) {
        Jwt.BearerRoundTrip(token.value);
      }
    } else {
      assert hs == [JSON_TYPE];
      assert Authorization(hs) == Authorization(hs[1..]);
    }
  }

  // ---------------------------------------------------------------------
  // validateEmail
  // ---------------------------------------------------------------------

  /** String.prototype.toLowerCase on one character, for the ASCII letters. */
  function LowerChar(c: char): (l: char)
    ensures 'A' <= c <= 'Z' ==> 'a' <= l <= 'z'
    ensures !('A' <= c <= 'Z') ==> l == c
  {
    if 'A' <= c <= 'Z' then (c as int + 32) as char else c
  }

  function Lower(s: string): (r: string)
    ensures |r| == |s|
    ensures forall i :: 0 <= i < |s| ==> r[i] == LowerChar(s[i])
  {
    seq(|s|, i requires 0 <= i < |s| => LowerChar(s[i]))
  }

  /** What the class `[^\s@]` admits: neither JavaScript whitespace nor `@`. */
  predicate Plain(c: char) { !IsJsSpace(c) && c != '@' }

  predicate AllPlain(s: string) { forall k :: 0 <= k < |s| ==> Plain(s[k]) }

  /**
   The pattern `^[^\s@]+@[^\s@]+\.[^\s@]+$`: the string splits at an `@` and
   a later `.` into three non-empty runs of plain characters.
   */
  predicate EmailPattern(s: string) {
    exists i, j :: 0 < i && i + 1 < j && j + 1 < |s| && s[i] == '@' && s[j] == '.'
                 && AllPlain(s[..i]) && AllPlain(s[i + 1 .. j]) && AllPlain(s[j + 1 ..])
  }

  /**
   The shape the pattern amounts to: no whitespace, exactly one `@` and not
   in front, and after it a `.` that neither follows the `@` directly nor
   ends the string.
   */
  predicate EmailShape(s: string) {
    && (forall k :: 0 <= k < |s| ==> !IsJsSpace(s[k]))
    && exists i :: 0 < i < |s| && s[i] == '@'
                 && (forall k :: 0 <= k < |s| && k != i ==> s[k] != '@')
                 && (exists j :: i + 1 < j < |s| - 1 && s[j] == '.')
  }

  lemma {:induction false} PatternHasShape(s: string)
    requires EmailPattern(s)
    ensures EmailShape(s)
  {
    var i, j :| 0 < i && i + 1 < j && j + 1 < |s| && s[i] == '@' && s[j] == '.'
                && AllPlain(s[..i]) && AllPlain(s[i + 1 .. j]) && AllPlain(s[j + 1 ..]);
    forall k | 0 <= k < |s| && k != i ensures Plain(s[k]) {
      if k < i {
        assert s[k] == s[..i][k];
      } else if k < j {
        assert s[k] == s[i + 1 .. j][k - i - 1];
      } else if k > j {
        assert s[k] == s[j + 1 ..][k - j - 1];
      }
    }
    assert forall k :: 0 <= k < |s| ==> !IsJsSpace(s[k]);
    assert forall k :: 0 <= k < |s| && k != i ==> s[k] != '@';
  }

  lemma {:induction false} ShapeHasPattern(s: string)
    requires EmailShape(s)
    ensures EmailPattern(s)
  {
    var i :| 0 < i < |s| && s[i] == '@'
             && (forall k :: 0 <= k < |s| && k != i ==> s[k] != '@')
             && (exists j :: i + 1 < j < |s| - 1 && s[j] == '.');
    var j :| i + 1 < j < |s| - 1 && s[j] == '.';
    assert forall k :: 0 <= k < |s| && k != i ==> Plain(s[k]);
    assert AllPlain(s[..i]);
    assert AllPlain(s[i + 1 .. j]);
    assert AllPlain(s[j + 1 ..]);
  }

  lemma EmailPatternIsShape(s: string)
    ensures EmailPattern(s) <==> EmailShape(s)
  {
    if EmailPattern(s) {
      PatternHasShape(s);
    }
    if EmailShape(s) {
      ShapeHasPattern(s);
    }
  }

  /** Lower-casing changes no whitespace, `@` or `.`, so it leaves the shape alone. */
  lemma {:induction false} LowerKeepsShape(s: string)
    ensures EmailShape(Lower(s)) <==> EmailShape(s)
  {
    var l := Lower(s);
    assert forall k :: 0 <= k < |s| ==> (IsJsSpace(l[k]) <==> IsJsSpace(s[k]));
    assert forall k :: 0 <= k < |s| ==> (l[k] == '@' <==> s[k] == '@') && (l[k] == '.' <==> s[k] == '.');
  }

  /**
   validateEmail: the pattern tested against the lower-cased string, which
   holds exactly for strings of the shape above, whatever their case.
   */
  method ValidateEmail(email: string) returns (ok: bool)
    ensures ok <==> EmailPattern(Lower(email))
    ensures ok <==> EmailShape(email)
  {
    var s := Lower(email);
    EmailPatternIsShape(s);
    LowerKeepsShape(email);
    var at := -1;
    var i := 0;
    while i < |s|
      invariant 0 <= i <= |s|
      invariant -1 <= at < i
      invariant forall k :: 0 <= k < i ==> !IsJsSpace(s[k])
      invariant at == -1 ==> forall k :: 0 <= k < i ==> s[k] != '@'
      invariant at >= 0 ==> s[at] == '@' && forall k :: 0 <= k < i && k != at ==> s[k] != '@'
    {
      if IsJsSpace(s[i]) {
        return false;
      }
      if s[i] == '@' {
        if at >= 0 {
          assert s[at] == '@' && s[i] == '@';
          return false;
        }
        at := i;
      }
      i := i + 1;
    }
    if at <= 0 {
      return false;
    }
    var j := at + 2;
    while j < |s| - 1
      invariant at + 2 <= j
      invariant forall k :: at + 1 < k < j && k < |s| - 1 ==> s[k] != '.'
    {
      if s[j] == '.' {
        return true;
      }
      j := j + 1;
    }
    return false;
  }

  // ---------------------------------------------------------------------
  // validatePhone
  // ---------------------------------------------------------------------

  /** What `[-\s\.]` admits. */
  predicate IsPhoneSep(c: char) { c == '-' || IsJsSpace(c) || c == '.' }

  lemma DigitIsNoMark(c: char)
    requires IsDigit(c)
    ensures !IsPhoneSep(c) && c != '+' && c != '(' && c != ')'
  {
  }

  /**
   A telephone number as the pattern reads it: an optional `+`, an optional
   `(`, three digits, an optional `)`, an optional separator, three digits,
   an optional separator and four to six digits.
   */
  datatype Phone = Phone(plus: bool, open: bool, area: string, close: bool, sep1: Option<char>,
                         exchange: string, sep2: Option<char>, line: string)

  predicate SepOk(sep: Option<char>) { sep.Some? ==> IsPhoneSep(sep.value) }

  /** The parts from the first separator on are well formed. */
  predicate BackOk(p: Phone) {
    SepOk(p.sep1) && |p.exchange| == 3 && AllDigits(p.exchange) && SepOk(p.sep2) && 4 <= |p.line| <= 6 && AllDigits(p.line)
  }

  predicate WellFormed(p: Phone) { |p.area| == 3 && AllDigits(p.area) && BackOk(p) }

  function Flag(present: bool, c: char): string { if present then [c] else [] }

  function SepText(sep: Option<char>): string { if sep.Some? then [sep.value] else [] }

  /** The text from the first separator on. */
  function BackText(p: Phone): string { SepText(p.sep1) + (p.exchange + (SepText(p.sep2) + p.line)) }

  /** The text from the area code on. */
  function MiddleText(p: Phone): string { p.area + (Flag(p.close, ')') + BackText(p)) }

  /** The text a phone number is written as. */
  function Render(p: Phone): string { Flag(p.plus, '+') + (Flag(p.open, '(') + MiddleText(p)) }

  /** An optional `c` at the front of `s`: whether it is there, and the rest. */
  function Optional(s: string, c: char): (r: (bool, string))
    ensures Flag(r.0, c) + r.1 == s
  {
    if |s| > 0 && s[0] == c then (true, s[1..]) else (false, s)
  }

  /** An optional separator at the front of `s`. */
  function OptionalSep(s: string): (r: (Option<char>, string))
    ensures SepText(r.0) + r.1 == s
    ensures SepOk(r.0)
  {
    if |s| > 0 && IsPhoneSep(s[0]) then (Some(s[0]), s[1..]) else (None, s)
  }

  /** Three digits at the front of `s`, and the rest. */
  function Three(s: string): (r: Option<(string, string)>)
    ensures r.Some? ==> |r.value.0| == 3 && AllDigits(r.value.0) && r.value.0 + r.value.1 == s
  {
    if |s| < 3 || !AllDigits(s[..3]) then None
    else
      assert s == s[..3] + s[3..];
      Some((s[..3], s[3..]))
  }

  /** Reads `t` as the text from the first separator on, the earlier parts given. */
  function ParseBack(t: string, plus: bool, open: bool, area: string, close: bool): (r: Option<Phone>)
    ensures r.Some? ==> BackOk(r.value) && BackText(r.value) == t
    ensures r.Some? ==> r.value.plus == plus && r.value.open == open && r.value.area == area && r.value.close == close
  {
    var (sep1, t1) := OptionalSep(t);
    var exchange := Three(t1);
    if exchange.None? then None else
    var (sep2, line) := OptionalSep(exchange.value.1);
    if 4 <= |line| <= 6 && AllDigits(line) then Some(Phone(plus, open, area, close, sep1, exchange.value.0, sep2, line))
    else None
  }

  /** Reads `t` as the text from the area code on. */
  function ParseMiddle(t: string, plus: bool, open: bool): (r: Option<Phone>)
    ensures r.Some? ==> WellFormed(r.value) && MiddleText(r.value) == t
    ensures r.Some? ==> r.value.plus == plus && r.value.open == open
  {
    var area := Three(t);
    if area.None? then None else
    var (close, t1) := Optional(area.value.1, ')');
    ParseBack(t1, plus, open, area.value.0, close)
  }

  /**
   Reads `s` left to right as the pattern does. No class of the pattern
   shares a character with the next one, so every optional part is taken
   exactly when its character is there, and the reading is the only one.
   */
  function ParsePhone(s: string): (r: Option<Phone>)
    ensures r.Some? ==> WellFormed(r.value) && Render(r.value) == s
  {
    var (plus, s1) := Optional(s, '+');
    var (open, s2) := Optional(s1, '(');
    ParseMiddle(s2, plus, open)
  }

  /** validatePhone: whether the pattern matches. */
  predicate ValidatePhone(s: string) { ParsePhone(s).Some? }

  lemma OptionalAbsent(present: bool, c: char, rest: string)
    requires |rest| > 0 && rest[0] != c
    ensures Optional(Flag(present, c) + rest, c) == (present, rest)
  {
    if present {
      assert (Flag(present, c) + rest)[1..] == rest;
    } else {
      assert Flag(present, c) + rest == rest;
    }
  }

  lemma OptionalSepAbsent(sep: Option<char>, rest: string)
    requires SepOk(sep)
    requires |rest| > 0 && IsDigit(rest[0])
    ensures OptionalSep(SepText(sep) + rest) == (sep, rest)
  {
    DigitIsNoMark(rest[0]);
    if sep.Some? {
      assert (SepText(sep) + rest)[1..] == rest;
    } else {
      assert SepText(sep) + rest == rest;
    }
  }

  lemma ThreeDigits(d: string, rest: string)
    requires |d| == 3 && AllDigits(d)
    ensures Three(d + rest) == Some((d, rest))
  {
    assert (d + rest)[..3] == d && (d + rest)[3..] == rest;
  }

  lemma {:induction false} BackRoundTrip(p: Phone)
    requires BackOk(p)
    ensures ParseBack(BackText(p), p.plus, p.open, p.area, p.close) == Some(p)
  {
    var tail := SepText(p.sep2) + p.line;
    assert IsDigit(p.line[0]);
    OptionalSepAbsent(p.sep2, p.line);
    ThreeDigits(p.exchange, tail);
    var t1 := p.exchange + tail;
    assert t1[0] == p.exchange[0] && IsDigit(t1[0]);
    OptionalSepAbsent(p.sep1, t1);
  }

  /** The first character of the text from the first separator on: a separator or a digit, never `)`. */
  lemma BackStart(p: Phone)
    requires BackOk(p)
    ensures |BackText(p)| > 0 && BackText(p)[0] != ')'
  {
    assert IsDigit(p.exchange[0]);
    DigitIsNoMark(p.exchange[0]);
    if p.sep1.None? {
      assert BackText(p)[0] == p.exchange[0];
    }
  }

  lemma {:induction false} MiddleRoundTrip(p: Phone)
    requires WellFormed(p)
    ensures ParseMiddle(MiddleText(p), p.plus, p.open) == Some(p)
  {
    var t1 := Flag(p.close, ')') + BackText(p);
    ThreeDigits(p.area, t1);
    BackStart(p);
    OptionalAbsent(p.close, ')', BackText(p));
    BackRoundTrip(p);
  }

  /** Every well-formed number is read back from its text: the reading is complete and unambiguous. */
  lemma {:induction false} PhoneRoundTrip(p: Phone)
    requires WellFormed(p)
    ensures ParsePhone(Render(p)) == Some(p)
  {
    var m := MiddleText(p);
    assert m[0] == p.area[0] && IsDigit(m[0]);
    DigitIsNoMark(m[0]);
    OptionalAbsent(p.open, '(', m);
    var t0 := Flag(p.open, '(') + m;
    assert t0[0] != '+' by {
      if !p.open { assert t0[0] == m[0]; }
    }
    OptionalAbsent(p.plus, '+', t0);
    MiddleRoundTrip(p);
  }

  /** validatePhone holds exactly for the texts of well-formed numbers. */
  lemma ValidatePhoneIsPattern(s: string)
    ensures ValidatePhone(s) <==> exists p :: WellFormed(p) && Render(p) == s
  {
    if exists p :: WellFormed(p) && Render(p) == s {
      var p :| WellFormed(p) && Render(p) == s;
      PhoneRoundTrip(p);
    }
  }

  /** The number of decimal digits in `s`. */
  function DigitCount(s: string): (n: nat)
    ensures n <= |s|
  {
    if |s| == 0 then 0 else (if IsDigit(s[0]) then 1 else 0) + DigitCount(s[1..])
  }

  lemma {:induction false} DigitCountAppend(a: string, b: string)
    ensures DigitCount(a + b) == DigitCount(a) + DigitCount(b)
  {
    if |a| > 0 {
      assert (a + b)[1..] == a[1..] + b;
      DigitCountAppend(a[1..], b);
    } else {
      assert a + b == b;
    }
  }

  lemma {:induction false} DigitCountAll(s: string)
    requires AllDigits(s)
    ensures DigitCount(s) == |s|
  {
    if |s| > 0 {
      DigitCountAll(s[1..]);
    }
  }

  /** A mark of the pattern, zero or one character long, holds no digit. */
  lemma MarkHasNoDigit(s: string)
    requires |s| <= 1 && forall k :: 0 <= k < |s| ==> !IsDigit(s[k])
    ensures DigitCount(s) == 0
  {
    if |s| == 1 {
      assert s[1..] == [];
    }
  }

  lemma {:induction false} BackDigits(p: Phone)
    requires BackOk(p)
    ensures DigitCount(BackText(p)) == 3 + |p.line| && 7 <= |BackText(p)| <= 11
  {
    MarkHasNoDigit(SepText(p.sep1));
    MarkHasNoDigit(SepText(p.sep2));
    DigitCountAll(p.exchange);
    DigitCountAll(p.line);
    DigitCountAppend(SepText(p.sep2), p.line);
    DigitCountAppend(p.exchange, SepText(p.sep2) + p.line);
    DigitCountAppend(SepText(p.sep1), p.exchange + (SepText(p.sep2) + p.line));
  }

  lemma {:induction false} MiddleDigits(p: Phone)
    requires WellFormed(p)
    ensures DigitCount(MiddleText(p)) == 6 + |p.line| && 10 <= |MiddleText(p)| <= 15
  {
    BackDigits(p);
    MarkHasNoDigit(Flag(p.close, ')'));
    DigitCountAll(p.area);
    DigitCountAppend(Flag(p.close, ')'), BackText(p));
    DigitCountAppend(p.area, Flag(p.close, ')') + BackText(p));
  }

  lemma {:induction false} RenderDigits(p: Phone)
    requires WellFormed(p)
    ensures DigitCount(Render(p)) == 6 + |p.line| && 10 <= |Render(p)| <= 17
  {
    MiddleDigits(p);
    MarkHasNoDigit(Flag(p.open, '('));
    MarkHasNoDigit(Flag(p.plus, '+'));
    DigitCountAppend(Flag(p.open, '('), MiddleText(p));
    DigitCountAppend(Flag(p.plus, '+'), Flag(p.open, '(') + MiddleText(p));
  }

  /** A number the validator accepts has ten to twelve digits and is ten to seventeen characters long. */
  lemma {:induction false} PhoneBounds(s: string)
    requires ValidatePhone(s)
    ensures 10 <= DigitCount(s) <= 12
    ensures 10 <= |s| <= 17
  {
    var p := ParsePhone(s).value;
    RenderDigits(p);
  }

  // ---------------------------------------------------------------------
  // Login form
  // ---------------------------------------------------------------------

  /**
   The body the login form posts, if any: the trimmed email and the password
   as typed; nothing is sent when either is empty.
   */
  function LoginRequest(email: string, password: string): (body: Option<Row>)
    ensures body.None? <==> JsTrim(email) == "" || password == ""
    ensures body.Some? ==> body.value == map["email" := Str(JsTrim(email)), "password" := Str(password)]
  {
    var e := JsTrim(email);
    if e == "" || password == "" then None
    else Some(map["email" := Str(e), "password" := Str(password)])
  }

  /**
   A body the form sends passes login's presence check, except when the
   trimmed email or the password is the string "0", which JavaScript finds
   truthy and PHP finds empty.
   */
  lemma LoginBodyIsWellFormed(email: string, password: string)
    requires LoginRequest(email, password).Some?
    ensures AuthController.LoginWellFormed(Store.Decoded(Arr(LoginRequest(email, password).value)))
            <==> JsTrim(email) != "0" && password != "0"
  {
  }

  /** The pages a login can open. */
  const ADMIN_PAGE: string := "admin-dashboard.html"
  const TENANT_PAGE: string := "tenants_dashboard.html"
  const HOME_PAGE: string := "index.html"

  /** `res.data.data.user?.role`: the role in the user of the answer, `Null` when there is none. */
  function AnsweredRole(o: Outcome): (role: Val)
    ensures role != Null ==> "user" in DataOf(o) && DataOf(o)["user"].Arr? && "role" in DataOf(o)["user"].fields
  {
    var data := DataOf(o);
    if "user" in data && data["user"].Arr? then Get(data["user"].fields, "role") else Null
  }

  /**
   The page a successful login opens, compared strictly: the admin
   dashboard for the string "admin", the tenants' dashboard for "tenant",
   the home page for anything else.
   */
  function RoleRedirect(role: Val): (page: string)
    ensures page == ADMIN_PAGE <==> role == Str(ROLE_ADMIN)
    ensures page == TENANT_PAGE <==> role == Str(ROLE_TENANT)
    ensures page == HOME_PAGE <==> role != Str(ROLE_ADMIN) && role != Str(ROLE_TENANT)
  {
    if role == Str(ROLE_ADMIN) then ADMIN_PAGE
    else if role == Str(ROLE_TENANT) then TENANT_PAGE
    else HOME_PAGE
  }

  /** After login answers for a stored user, the form opens the dashboard of the user's stored role. */
  lemma LoginOpensStoredRolesPage(req: AuthMiddleware.Request, user: Row)
    ensures AnsweredRole(AuthController.LoggedIn(req, user)) == Get(user, "role")
    ensures RoleRedirect(AnsweredRole(AuthController.LoggedIn(req, user))) == ADMIN_PAGE <==> Get(user, "role") == Str(ROLE_ADMIN)
    ensures RoleRedirect(AnsweredRole(AuthController.LoggedIn(req, user))) == TENANT_PAGE <==> Get(user, "role") == Str(ROLE_TENANT)
  {
    var o := AuthController.LoggedIn(req, user);
    assert "user" in DataOf(o);
  }

  // ---------------------------------------------------------------------
  // Register form
  // ---------------------------------------------------------------------

  /** The six fields of the register form, name, email and phone already trimmed by the page. */
  datatype RegisterForm = RegisterForm(name: string, email: string, phone: string, role: string,
                                       password: string, confirmPassword: string)

  predicate AllFilled(f: RegisterForm) {
    f.name != "" && f.email != "" && f.phone != "" && f.role != "" && f.password != "" && f.confirmPassword != ""
  }

  /** The form as the page reads it: name, email and phone trimmed, the rest as typed. */
  function ReadForm(name: string, email: string, phone: string, role: string, password: string, confirmPassword: string): (f: RegisterForm)
    ensures f.name == JsTrim(name) && f.email == JsTrim(email) && f.phone == JsTrim(phone)
    ensures f.role == role && f.password == password && f.confirmPassword == confirmPassword
  {
    RegisterForm(JsTrim(name), JsTrim(email), JsTrim(phone), role, password, confirmPassword)
  }

  /**
   The body the register form posts, if any: every field filled and the two
   passwords equal; the name goes as `full_name`, the confirmation is not sent.
   Neither validator is consulted.
   */
  function RegisterRequest(f: RegisterForm): (body: Option<Row>)
    ensures body.Some? <==> AllFilled(f) && f.password == f.confirmPassword
    ensures body.Some? ==> body.value.Keys == {"full_name", "email", "phone", "password", "role"}
    ensures body.Some? ==> && body.value["full_name"] == Str(f.name) && body.value["email"] == Str(f.email)
                           && body.value["phone"] == Str(f.phone) && body.value["password"] == Str(f.password)
                           && body.value["role"] == Str(f.role)
  {
    if !AllFilled(f) || f.password != f.confirmPassword then None
    else Some(map["full_name" := Str(f.name), "email" := Str(f.email), "phone" := Str(f.phone),
                  "password" := Str(f.password), "role" := Str(f.role)])
  }

  /**
   A body the form sends has every field register requires, unless the
   email, the password or the name is the string "0".
   */
  lemma RegisterBodyHasRequiredFields(f: RegisterForm)
    requires RegisterRequest(f).Some?
    ensures Validate.FirstMissing(RegisterRequest(f).value, AuthController.REGISTER_FIELDS).None?
            <==> f.email != "0" && f.password != "0" && f.name != "0"
  {
    var body := RegisterRequest(f).value;
    assert AuthController.REGISTER_FIELDS == ["email", "password", "full_name"];
    assert Get(body, "email") == Str(f.email) && Get(body, "password") == Str(f.password) && Get(body, "full_name") == Str(f.name);
    assert AuthController.REGISTER_FIELDS[0] == "email" && AuthController.REGISTER_FIELDS[1] == "password";
    assert AuthController.REGISTER_FIELDS[2] == "full_name";
    assert Empty(Get(body, "email")) <==> f.email == "0";
    assert Empty(Get(body, "password")) <==> f.password == "0";
    assert Empty(Get(body, "full_name")) <==> f.name == "0";
  }
}
