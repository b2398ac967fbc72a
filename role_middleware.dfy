/**
 * src/middleware/role.middleware.js: role gates that run after
 * authentication. The caller is `None` when no user is attached to the
 * request, otherwise the user's role.
 */
module RoleMiddleware {
  import opened Wrappers
  import opened Text
  import opened Http

  /** `authorizeRoles(...allowed)` applied to a request. */
  function AuthorizeRoles(allowed: seq<string>, user: Option<string>): (d: Decision)
    ensures d == Next <==> user.Some? && user.value in allowed
    ensures user == None ==> d == Respond(Unauthorized, "Authentication required.")
    ensures user.Some? && user.value !in allowed ==>
              d == Respond(Forbidden, "Access denied. Required role: " + JoinWith(allowed, " or "))
  {
    if user == None then Respond(Unauthorized, "Authentication required.")
    else if user.value !in allowed then
      Respond(Forbidden, "Access denied. Required role: " + JoinWith(allowed, " or "))
    else Next
  }

  /** The single-role guards; each reads the role of an attached user. */
  function RequireRole(role: string, required: string, message: string): (d: Decision)
    ensures d == Next <==> role == required
    ensures d != Next ==> d.status == Forbidden
  {
    if role != required then Respond(Forbidden, message) else Next
  }

  function IsAdmin(role: string): Decision {
    RequireRole(role, "ADMIN", "Access denied. Admin only.")
  }

  function IsStaff(role: string): Decision {
    RequireRole(role, "STAFF", "Access denied. Staff only.")
  }

  function IsDoctor(role: string): Decision {
    RequireRole(role, "DOCTOR", "Access denied. Doctor only.")
  }

  /** Each single-role guard admits exactly its role and refuses the rest with 403. */
  lemma SingleRoleGuards(role: string)
    ensures IsAdmin(role) == Next <==> role == "ADMIN"
    ensures IsStaff(role) == Next <==> role == "STAFF"
    ensures IsDoctor(role) == Next <==> role == "DOCTOR"
    ensures IsAdmin(role) != Next ==> IsAdmin(role) == Respond(Forbidden, "Access denied. Admin only.")
  {
  }

  /**
   * For an authenticated user, `authorizeRoles('ADMIN')` and `isAdmin`
   * decide alike: both pass exactly ADMIN and both refuse with 403.
   */
  lemma AuthorizeAdminIsAdmin(role: string)
    ensures (AuthorizeRoles(["ADMIN"], Some(role)) == Next) == (IsAdmin(role) == Next)
    ensures AuthorizeRoles(["ADMIN"], Some(role)) != Next ==>
              AuthorizeRoles(["ADMIN"], Some(role)).status == IsAdmin(role).status == Forbidden
  {
  }

  /** Widening the allowed list never turns a pass into a refusal. */
  lemma AuthorizeMonotone(allowed: seq<string>, more: seq<string>, user: Option<string>)
    requires AuthorizeRoles(allowed, user) == Next
    ensures AuthorizeRoles(allowed + more, user) == Next
  {
  }
}
