/** The route guard: who is sent to the sign-in page, who is sent to the comp page, and what an
    admitted user sees. */
module ProtectedRoute {
  import opened JsValues

  const DefaultRedirect: string := "/sign-in"
  const RoleRedirect: string := "/create-new-comp"

  /** What the guard renders. */
  datatype Route = Redirect(to: Value) | Children(content: Value) | NestedOutlet

  /** `allowedRoles.includes(user.role)`, comparing values as `includes` does. */
  predicate RoleAllowed(user: Value, allowedRoles: seq<Value>) {
    Prop(user, "role") in allowedRoles
  }

  /** `ProtectedRoute`: a falsy user goes to `redirectUrl` ("/sign-in" unless given); a user
      whose role is not among a non-empty role list goes to "/create-new-comp"; anyone else
      sees the children when there are any, else the nested routes. */
  function Guard(children: Value, user: Value, redirectUrl: Value, allowedRoles: seq<Value>): (r: Route)
    ensures !Truthy(user) ==> r == Redirect(if redirectUrl == Undefined then Str(DefaultRedirect) else redirectUrl)
    ensures Truthy(user) && |allowedRoles| > 0 && !RoleAllowed(user, allowedRoles) ==> r == Redirect(Str(RoleRedirect))
    ensures r.Children? <==> Admitted(user, allowedRoles) && Truthy(children)
    ensures r.NestedOutlet? <==> Admitted(user, allowedRoles) && !Truthy(children)
    ensures r.Children? ==> r.content == children
  {
    var to := if redirectUrl == Undefined then Str(DefaultRedirect) else redirectUrl;
    if !Truthy(user) then Redirect(to)
    else if |allowedRoles| > 0 && !RoleAllowed(user, allowedRoles) then Redirect(Str(RoleRedirect))
    else if Truthy(children) then Children(children)
    else NestedOutlet
  }

  /** Admitted: a truthy user with an allowed role, or any truthy user when no roles are listed. */
  predicate Admitted(user: Value, allowedRoles: seq<Value>)
    ensures Admitted(user, allowedRoles) ==> Truthy(user)
    ensures |allowedRoles| == 0 ==> (Admitted(user, allowedRoles) <==> Truthy(user))
    ensures Truthy(user) && Prop(user, "role") in allowedRoles ==> Admitted(user, allowedRoles)
    ensures |allowedRoles| > 0 && Prop(user, "role") !in allowedRoles ==> !Admitted(user, allowedRoles)
  {
    Truthy(user) && (|allowedRoles| == 0 || RoleAllowed(user, allowedRoles))
  }

  /** The guard redirects exactly the users it does not admit. */
  lemma RedirectsExactlyTheNotAdmitted(children: Value, user: Value, redirectUrl: Value, allowedRoles: seq<Value>)
    ensures Guard(children, user, redirectUrl, allowedRoles).Redirect? <==> !Admitted(user, allowedRoles)
  {
  }

  /** With no roles listed every truthy user is admitted, and listing more roles only admits
      more users. */
  lemma MoreRolesAdmitMore(user: Value, roles: seq<Value>, more: seq<Value>)
    requires Truthy(user)
    ensures Admitted(user, [])
    ensures |roles| > 0 && Admitted(user, roles) ==> Admitted(user, roles + more)
  {
    if |roles| > 0 && Admitted(user, roles) {
      var i :| 0 <= i < |roles| && roles[i] == Prop(user, "role");
      assert (roles + more)[i] == roles[i];
    }
  }

  /** A user object with the "admin" role passes an admin-only route; a "user" does not. */
  lemma AdminOnlyRoute(children: Value)
    ensures Guard(children, Obj(map["role" := Str("admin")]), Undefined, [Str("admin")]) != Redirect(Str(RoleRedirect))
    ensures Guard(children, Obj(map["role" := Str("user")]), Undefined, [Str("admin")]) == Redirect(Str(RoleRedirect))
  {
    assert Prop(Obj(map["role" := Str("user")]), "role") == Str("user");
    assert Str("user") != Str("admin");
  }
}
