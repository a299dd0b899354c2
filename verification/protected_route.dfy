/** The route guard of `client/src/components/auth/ProtectedRoute.js`. It
    reads the session twice, from the Redux `auth` slice and from the older
    context provider, and merges the two: the slice's user if it holds one,
    else the context's; authenticated or loading if either says so. */
module ProtectedRoute {

  import opened Common
  import opened UserModel

  /** One source's view of the session. */
  datatype SessionView = SessionView(user: Option<UserView>, isAuthenticated: bool, loading: bool)

  datatype Screen = LoadingPlaceholder | RedirectToLogin | RedirectToHome | RenderChildren

  /** `reduxUser || contextUser` */
  function EffectiveUser(redux: SessionView, context: SessionView): (u: Option<UserView>)
    ensures redux.user.Some? ==> u == redux.user
    ensures redux.user.None? ==> u == context.user
  {
    if redux.user.Some? then redux.user else context.user
  }

  /** `allowedRoles.includes(user?.role)`: no user has no role to include. */
  predicate RoleAllowed(user: Option<UserView>, allowedRoles: seq<string>) {
    user.Some? && user.value.role.Name() in allowedRoles
  }

  /** The guard's decision: loading first, then authentication, then role. */
  function Guard(redux: SessionView, context: SessionView, allowedRoles: seq<string>): (r: Screen)
    ensures r == LoadingPlaceholder <==> redux.loading || context.loading
    ensures r == RedirectToLogin <==>
      !redux.loading && !context.loading && !redux.isAuthenticated && !context.isAuthenticated
    ensures r == RenderChildren <==>
      && !redux.loading && !context.loading
      && (redux.isAuthenticated || context.isAuthenticated)
      && RoleAllowed(EffectiveUser(redux, context), allowedRoles)
    ensures r == RedirectToHome ==> !RoleAllowed(EffectiveUser(redux, context), allowedRoles)
  {
    var user := EffectiveUser(redux, context);
    if redux.loading || context.loading then LoadingPlaceholder
    else if !(redux.isAuthenticated || context.isAuthenticated) then RedirectToLogin
    else if !RoleAllowed(user, allowedRoles) then RedirectToHome
    else RenderChildren
  }

  /** An admin-only page is rendered only for a held admin user. */
  lemma AdminPagesNeedAdmin(redux: SessionView, context: SessionView)
    requires Guard(redux, context, ["admin"]) == RenderChildren
    ensures EffectiveUser(redux, context).Some? && EffectiveUser(redux, context).value.role == Admin
  {
  }

  /** The sources can vouch for each other: a slice that is signed out but
      still holds an admin user renders an admin page as long as the context
      alone says the session is authenticated. */
  lemma MixedSourcesRender(u: UserView, contextUser: Option<UserView>)
    requires u.role == Admin
    ensures Guard(SessionView(Some(u), false, false), SessionView(contextUser, true, false), ["admin"])
         == RenderChildren
  {
  }
}
