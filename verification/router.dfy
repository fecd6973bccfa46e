/**
 The front controller's route table and its dispatch: strip the seven
 characters of "/api/v1", try the patterns of the request method in table
 order, and call the first whose anchored regular expression matches, with
 the digits its (\d+) groups captured.
 */
module Router {
  import opened Text
  import opened Wrappers
  import opened Http
  import opened Php

  /** A piece of a route pattern: literal text, or a (\d+) group. */
  datatype Seg = Lit(text: string) | Num

  type Pattern = seq<Seg>

  /** The controller methods the table can name, plus the two AuthController methods no route names. */
  datatype Action =
    | AuthRegister | AuthLogin | AuthLogout | AuthForgotPassword | AuthResetPassword | AuthMe | AuthRefresh
    | PropertiesIndex | PropertiesShow | PropertiesStore | PropertiesUpdate | PropertiesDestroy
    | TenantsIndex | TenantsShow | TenantsCurrent | TenantsStore | TenantsUpdate | TenantsDestroy
    | PaymentsIndex | PaymentsShow | PaymentsStore | PaymentsReceipt
    | MaintenanceIndex | MaintenanceShow | MaintenanceStore | MaintenanceUpdate | MaintenanceDestroy
    | ReportsRevenue | ReportsOccupancy | ReportsMaintenance | ReportsExport
    | UsersGetProfile | UsersUpdateProfile | UsersChangePassword
    | NotificationsIndex | NotificationsUnreadCount | NotificationsMarkAsRead | NotificationsMarkAllRead

  datatype Route = Route(pattern: Pattern, action: Action)

  datatype Dispatch = Routed(action: Action, args: seq<string>) | NotFound

  const BASE_PATH: string := "/api/v1"

  /** The number of (\d+) groups in a pattern. */
  function Groups(p: Pattern): nat {
    if |p| == 0 then 0 else (if p[0].Num? then 1 else 0) + Groups(p[1..])
  }

  predicate IsDigitRun(s: string) { |s| > 0 && AllDigits(s) }

  /**
   The text a pattern stands for once each group is given its captured
   digits: what the anchored regular expression matches.
   */
  function Fill(p: Pattern, caps: seq<string>): string
    requires |caps| == Groups(p)
  {
    if |p| == 0 then ""
    else match p[0]
      case Lit(t) => t + Fill(p[1..], caps)
      case Num => caps[0] + Fill(p[1..], caps[1..])
  }

  /**
   Patterns in which a group is followed only by the end or by literal text
   that starts with something other than a digit, so a group's digits are
   never ambiguous.
   */
  predicate Unambiguous(p: Pattern) {
    forall i :: 0 <= i < |p| ==>
      (p[i].Lit? ==> |p[i].text| > 0)
      && (p[i].Num? && i + 1 < |p| ==> p[i + 1].Lit? && |p[i + 1].text| > 0 && !IsDigit(p[i + 1].text[0]))
  }

  /** preg_match("#^pattern$#", path): the captured groups, in order. */
  function Match(p: Pattern, path: string): (r: Option<seq<string>>)
    ensures r.Some? ==> |r.value| == Groups(p) && Fill(p, r.value) == path
    ensures r.Some? ==> forall k :: 0 <= k < |r.value| ==> IsDigitRun(r.value[k])
  {
    if |p| == 0 then (if path == "" then Some([]) else None)
    else match p[0]
      case Lit(t) =>
        if StartsWith(path, t) then
          match Match(p[1..], path[|t|..])
          case None => None
          case Some(caps) =>
            assert path == t + path[|t|..];
            Some(caps)
        else None
      case Num =>
        var n := LeadingCount(path, IsDigit);
        if n == 0 then None
        else match Match(p[1..], path[n..])
          case None => None
          case Some(caps) =>
            assert path == path[..n] + path[n..];
            Some([path[..n]] + caps)
  }

  /**
   Match finds every match: when an unambiguous pattern's groups are
   filled with digit runs, matching the resulting text gives the runs back.
   */
  lemma {:induction false} MatchComplete(p: Pattern, caps: seq<string>)
    requires Unambiguous(p)
    requires |caps| == Groups(p) && forall k :: 0 <= k < |caps| ==> IsDigitRun(caps[k])
    ensures Match(p, Fill(p, caps)) == Some(caps)
  {
    if |p| > 0 {
      assert Unambiguous(p[1..]) by {
        forall i | 0 <= i < |p[1..]| ensures (p[1..][i].Lit? ==> |p[1..][i].text| > 0) {
          assert p[1..][i] == p[i + 1];
        }
      }
      var path := Fill(p, caps);
      match p[0]
      case Lit(t) =>
        assert path == t + Fill(p[1..], caps);
        assert path[|t|..] == Fill(p[1..], caps);
        MatchComplete(p[1..], caps);
      case Num =>
        var rest := Fill(p[1..], caps[1..]);
        assert path == caps[0] + rest;
        assert forall k :: 0 <= k < |caps[1..]| ==> IsDigitRun(caps[1..][k]) by {
          forall k | 0 <= k < |caps[1..]| ensures IsDigitRun(caps[1..][k]) { assert caps[1..][k] == caps[k + 1]; }
        }
        NumStopsAtRest(p, caps);
        var n := LeadingCount(path, IsDigit);
        assert n == |caps[0]|;
        assert path[..n] == caps[0];
        assert path[n..] == rest;
        MatchComplete(p[1..], caps[1..]);
        assert [caps[0]] + caps[1..] == caps;
    }
  }

  /** After a group's digits, the rest of the text does not start with a digit. */
  lemma NumStopsAtRest(p: Pattern, caps: seq<string>)
    requires Unambiguous(p) && |p| > 0 && p[0].Num?
    requires |caps| == Groups(p) && forall k :: 0 <= k < |caps| ==> IsDigitRun(caps[k])
    ensures var path := Fill(p, caps);
            LeadingCount(path, IsDigit) == |caps[0]|
  {
    var rest := Fill(p[1..], caps[1..]);
    var path := caps[0] + rest;
    assert Fill(p, caps) == path;
    if |p| > 1 {
      assert p[1].Lit? && !IsDigit(p[1].text[0]);
      assert rest == p[1].text + Fill(p[2..], caps[1..]);
      assert path[|caps[0]|] == p[1].text[0];
    } else {
      assert rest == "";
    }
    LeadingDigitsOfRun(caps[0], rest);
  }

  lemma {:induction false} LeadingDigitsOfRun(d: string, rest: string)
    requires AllDigits(d)
    requires rest == "" || !IsDigit(rest[0])
    ensures LeadingCount(d + rest, IsDigit) == |d|
    decreases |d|
  {
    if |d| > 0 {
      assert (d + rest)[1..] == d[1..] + rest;
      LeadingDigitsOfRun(d[1..], rest);
    }
  }

  /** The route tables, per request method, in the order the PHP array lists them. */
  function Table(verb: string): seq<Route> {
    if verb == "POST" then [
      Route([Lit("/auth/register")], AuthRegister),
      Route([Lit("/auth/login")], AuthLogin),
      Route([Lit("/auth/logout")], AuthLogout),
      Route([Lit("/auth/forgot-password")], AuthForgotPassword),
      Route([Lit("/auth/reset-password")], AuthResetPassword),
      Route([Lit("/properties")], PropertiesStore),
      Route([Lit("/tenants")], TenantsStore),
      Route([Lit("/payments")], PaymentsStore),
      Route([Lit("/maintenance")], MaintenanceStore),
      Route([Lit("/reports/export")], ReportsExport),
      Route([Lit("/notifications/mark-all-read")], NotificationsMarkAllRead)]
    else if verb == "GET" then [
      Route([Lit("/properties")], PropertiesIndex),
      Route([Lit("/properties/"), Num], PropertiesShow),
      Route([Lit("/tenants")], TenantsIndex),
      Route([Lit("/tenants/"), Num], TenantsShow),
      Route([Lit("/tenants/current")], TenantsCurrent),
      Route([Lit("/payments")], PaymentsIndex),
      Route([Lit("/payments/"), Num], PaymentsShow),
      Route([Lit("/payments/"), Num, Lit("/receipt")], PaymentsReceipt),
      Route([Lit("/maintenance")], MaintenanceIndex),
      Route([Lit("/maintenance/"), Num], MaintenanceShow),
      Route([Lit("/reports/revenue")], ReportsRevenue),
      Route([Lit("/reports/occupancy")], ReportsOccupancy),
      Route([Lit("/reports/maintenance")], ReportsMaintenance),
      Route([Lit("/users/me")], UsersGetProfile),
      Route([Lit("/notifications")], NotificationsIndex),
      Route([Lit("/notifications/unread-count")], NotificationsUnreadCount)]
    else if verb == "PUT" then [
      Route([Lit("/properties/"), Num], PropertiesUpdate),
      Route([Lit("/tenants/"), Num], TenantsUpdate),
      Route([Lit("/maintenance/"), Num], MaintenanceUpdate),
      Route([Lit("/users/me")], UsersUpdateProfile),
      Route([Lit("/users/change-password")], UsersChangePassword),
      Route([Lit("/notifications/"), Num, Lit("/read")], NotificationsMarkAsRead)]
    else if verb == "DELETE" then [
      Route([Lit("/properties/"), Num], PropertiesDestroy),
      Route([Lit("/tenants/"), Num], TenantsDestroy),
      Route([Lit("/maintenance/"), Num], MaintenanceDestroy)]
    else []
  }

  /** `substr($requestUri, strlen('/api/v1'))`: drops seven characters, whatever they are. */
  function StripBase(uri: string): (path: string)
    ensures |uri| >= |BASE_PATH| ==> path == uri[|BASE_PATH|..]
    ensures |uri| < |BASE_PATH| ==> path == ""
  {
    if |uri| < |BASE_PATH| then "" else uri[|BASE_PATH|..]
  }

  /** The position of the first route whose pattern matches, or |routes| when none does. */
  function FirstIndex(routes: seq<Route>, path: string): (k: nat)
    ensures k <= |routes|
    ensures forall j :: 0 <= j < k ==> Match(routes[j].pattern, path).None?
    ensures k < |routes| ==> Match(routes[k].pattern, path).Some?
  {
    if |routes| == 0 then 0
    else if Match(routes[0].pattern, path).Some? then 0
    else
      var k := FirstIndex(routes[1..], path);
      assert forall j :: 0 < j <= k ==> routes[j] == routes[1..][j - 1];
      1 + k
  }

  /** The foreach over the table: the first route whose pattern matches, with its captures. */
  function FirstMatch(routes: seq<Route>, path: string): (d: Dispatch)
    ensures d.Routed? ==> (exists i :: 0 <= i < |routes| && routes[i].action == d.action
                             && Match(routes[i].pattern, path) == Some(d.args)
                             && forall j :: 0 <= j < i ==> Match(routes[j].pattern, path).None?)
    ensures d.NotFound? <==> forall i :: 0 <= i < |routes| ==> Match(routes[i].pattern, path).None?
  {
    var k := FirstIndex(routes, path);
    if k == |routes| then NotFound
    else Routed(routes[k].action, Match(routes[k].pattern, path).value)
  }

  /** Which controller method a request reaches, and with which arguments. */
  function Resolve(verb: string, uri: string): Dispatch {
    FirstMatch(Table(verb), StripBase(uri))
  }

  /** What the router itself answers when nothing matches. */
  function NotFoundResponse(): Outcome {
    Error("Endpoint not found", "NOT_FOUND", Arr(map[]), 404)
  }

  /** Every pattern of the table is unambiguous, so Match decides each of them exactly. */
  lemma TablePatternsUnambiguous(verb: string, i: int)
    requires 0 <= i < |Table(verb)|
    ensures Unambiguous(Table(verb)[i].pattern)
  {
  }

  /** No route reaches AuthController::me or AuthController::refresh. */
  lemma NoRouteToMeOrRefresh(verb: string, uri: string)
    ensures Resolve(verb, uri).Routed? ==> Resolve(verb, uri).action != AuthMe && Resolve(verb, uri).action != AuthRefresh
  {
    var t := Table(verb);
    assert forall i :: 0 <= i < |t| ==> t[i].action != AuthMe && t[i].action != AuthRefresh;
  }

  /** Only the seven leading characters' count matters, not whether they spell "/api/v1". */
  lemma BasePathNotChecked(verb: string, prefix1: string, prefix2: string, rest: string)
    requires |prefix1| == |prefix2| == |BASE_PATH|
    ensures Resolve(verb, prefix1 + rest) == Resolve(verb, prefix2 + rest)
  {
    assert (prefix1 + rest)[|BASE_PATH|..] == rest == (prefix2 + rest)[|BASE_PATH|..];
  }

  /** A request method without a table (PATCH, OPTIONS, ...) is never routed. */
  lemma UnknownVerbNotFound(verb: string, uri: string)
    requires verb !in {"GET", "POST", "PUT", "DELETE"}
    ensures Resolve(verb, uri) == NotFound
  {
  }

  /** "/tenants/current" is not taken by the earlier "/tenants/(\d+)" route. */
  lemma TenantsCurrentRoute(verb: string, uri: string)
    requires verb == "GET" && uri == BASE_PATH + "/tenants/current"
    ensures Resolve(verb, uri) == Routed(TenantsCurrent, [])
  {
    var path := StripBase(uri);
    assert path == "/tenants/current";
    var t := Table(verb);
    GetHead();
    NoneBeforeCurrent(t, path);
    ExactLiteral(path);
    FirstIndexIs(t, path, 4);
  }

  /** The first five GET routes, in table order. */
  lemma GetHead()
    ensures |Table("GET")| > 4
    ensures Table("GET")[0].pattern == [Lit("/properties")]
    ensures Table("GET")[1].pattern == [Lit("/properties/"), Num]
    ensures Table("GET")[2].pattern == [Lit("/tenants")]
    ensures Table("GET")[3].pattern == [Lit("/tenants/"), Num]
    ensures Table("GET")[4] == Route([Lit("/tenants/current")], TenantsCurrent)
  {
  }

  lemma NoneBeforeCurrent(t: seq<Route>, path: string)
    requires path == "/tenants/current" && |t| > 4
    requires t[0].pattern == [Lit("/properties")] && t[1].pattern == [Lit("/properties/"), Num]
    requires t[2].pattern == [Lit("/tenants")] && t[3].pattern == [Lit("/tenants/"), Num]
    ensures forall j :: 0 <= j < 4 ==> Match(t[j].pattern, path).None?
  {
    forall j | 0 <= j < 4 ensures Match(t[j].pattern, path).None? {
      if j == 0 {
        LiteralMismatch("/properties", [], path, 1);
        assert [Lit("/properties")] + [] == t[0].pattern;
      } else if j == 1 {
        LiteralMismatch("/properties/", [Num], path, 1);
        assert [Lit("/properties/")] + [Num] == t[1].pattern;
      } else if j == 2 {
        TenantsLiteralLeavesText(path);
      } else {
        CurrentIsNotDigits(path);
      }
    }
  }

  /** The first matching position is the one before which nothing matches. */
  lemma FirstIndexIs(routes: seq<Route>, path: string, k: nat)
    requires k < |routes| && Match(routes[k].pattern, path).Some?
    requires forall j :: 0 <= j < k ==> Match(routes[j].pattern, path).None?
    ensures FirstIndex(routes, path) == k
  {
  }

  lemma ExactLiteral(lit: string)
    ensures Match([Lit(lit)], lit) == Some([])
  {
    assert [Lit(lit)][1..] == [];
    assert lit[|lit|..] == "";
  }

  lemma LiteralMismatch(lit: string, rest: Pattern, path: string, i: nat)
    requires i < |lit| && i < |path| && lit[i] != path[i]
    ensures Match([Lit(lit)] + rest, path).None?
  {
    assert ([Lit(lit)] + rest)[1..] == rest;
    assert !StartsWith(path, lit) by {
      if |lit| <= |path| { assert path[..|lit|][i] != lit[i]; }
    }
  }

  lemma TenantsLiteralLeavesText(path: string)
    requires path == "/tenants/current"
    ensures Match([Lit("/tenants")], path).None?
  {
    assert [Lit("/tenants")][1..] == [];
    assert path[|"/tenants"|..] != "" by { assert |path| > |"/tenants"|; }
  }

  lemma CurrentIsNotDigits(path: string)
    requires path == "/tenants/current"
    ensures Match([Lit("/tenants/"), Num], path).None?
  {
    var p: Pattern := [Lit("/tenants/"), Num];
    assert StartsWith(path, "/tenants/") by { assert path[..9] == "/tenants/"; }
    var rest := path[9..];
    assert rest[0] == 'c';
    assert LeadingCount(rest, IsDigit) == 0;
    assert p[1..] == [Num];
  }

  /** GET /properties/<digits> reaches PropertiesController::show with the digits. */
  lemma PropertyShowRoute(digits: string)
    requires IsDigitRun(digits)
    ensures Resolve("GET", BASE_PATH + "/properties/" + digits) == Routed(PropertiesShow, [digits])
  {
    var path := "/properties/" + digits;
    assert StripBase(BASE_PATH + "/properties/" + digits) == path;
    var t := Table("GET");
    assert Match(t[0].pattern, path).None? by {
      assert path != "/properties";
      assert path[|"/properties"|..] != "";
    }
    TablePatternsUnambiguous("GET", 1);
    MatchComplete(t[1].pattern, [digits]);
    assert Fill(t[1].pattern, [digits]) == path;
    FirstIndexIs(t, path, 1);
  }
}
