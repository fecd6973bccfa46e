/**
 RoleMiddleware: admit the request only when the user AuthMiddleware stored
 has one of the allowed roles. It never authenticates by itself.
 */
module RoleMiddleware {
  import opened Php
  import opened Wrappers
  import opened Http
  import opened Constants
  import AuthMiddleware

  /** The stored user, when there is one that PHP considers truthy. */
  predicate HasUser(req: AuthMiddleware.Request) {
    req.user.Some? && |req.user.value| > 0
  }

  /** `in_array($user['role'], $allowedRoles)`, with its loose comparison. */
  predicate RoleAllowed(user: Row, allowed: seq<string>) {
    InArrayLoose(Get(user, "role"), StrList(allowed))
  }

  /**
   RoleMiddleware::handle: no stored user answers 401 UNAUTHORIZED, a role
   outside the list 403 FORBIDDEN, and otherwise the request goes on.
   */
  function Handle(req: AuthMiddleware.Request, allowed: seq<string>): (s: Step<bool>)
    ensures s.Next? <==> HasUser(req) && RoleAllowed(req.user.value, allowed)
    ensures !HasUser(req) ==> s == Halt(Error("Authentication required", "UNAUTHORIZED", Arr(map[]), 401))
    ensures HasUser(req) && !RoleAllowed(req.user.value, allowed) ==>
              s == Halt(Error("Insufficient permissions", "FORBIDDEN", Arr(map[]), 403))
    ensures s.Halt? ==> !IsSuccess(s.out)
  {
    var user := AuthMiddleware.GetUser(req);
    if user.None? || !Truthy(Arr(user.value)) then Halt(Error("Authentication required", "UNAUTHORIZED", Arr(map[]), 401))
    else if !RoleAllowed(user.value, allowed) then Halt(Error("Insufficient permissions", "FORBIDDEN", Arr(map[]), 403))
    else Next(true)
  }

  /** `AuthMiddleware::getUser()` once a role check has admitted the request. */
  function Caller(req: AuthMiddleware.Request): Row
    requires HasUser(req)
  {
    req.user.value
  }

  function AdminOnly(req: AuthMiddleware.Request): Step<bool> { Handle(req, [ROLE_ADMIN]) }

  function TenantOnly(req: AuthMiddleware.Request): Step<bool> { Handle(req, [ROLE_TENANT]) }

  function AdminOrTenant(req: AuthMiddleware.Request): Step<bool> { Handle(req, [ROLE_ADMIN, ROLE_TENANT]) }

  /**
   On a fresh request, where nothing has called AuthMiddleware::handle yet,
   every role check answers 401, whatever the Authorization header says.
   */
  lemma FreshRequestUnauthenticated(env: AuthMiddleware.Env, allowed: seq<string>)
    ensures Handle(AuthMiddleware.Begin(env), allowed)
            == Halt(Error("Authentication required", "UNAUTHORIZED", Arr(map[]), 401))
  {
  }

  /** For a string role, adminOnly admits exactly the role "admin". */
  lemma AdminOnlyAdmitsAdmin(req: AuthMiddleware.Request, role: string)
    requires HasUser(req) && Get(req.user.value, "role") == Str(role)
    ensures AdminOnly(req).Next? <==> role == ROLE_ADMIN
  {
    if AdminOnly(req).Next? {
      assert LooseEq(Str(role), Str(ROLE_ADMIN));
      assert !IsIntegerString(ROLE_ADMIN) by {
        assert ROLE_ADMIN[0] == 'a';
      }
    } else {
      assert !LooseEq(Str(role), StrList([ROLE_ADMIN])[0]);
    }
  }

  /**
   The loose in_array lets a claims array whose role is boolean true through
   any non-empty role list.
   */
  lemma TrueRolePassesAnyCheck(req: AuthMiddleware.Request, allowed: seq<string>)
    requires HasUser(req) && Get(req.user.value, "role") == Bool(true)
    requires |allowed| > 0 && allowed[0] != "" && allowed[0] != "0"
    ensures Handle(req, allowed).Next?
  {
    assert LooseEq(Bool(true), StrList(allowed)[0]);
  }
}
