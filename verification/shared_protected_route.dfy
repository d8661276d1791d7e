/** components/shared/ProtectedRoute.tsx: the Lumyn route guard, deciding
    from the auth loading flag, the authenticated flag, the user's role
    and the route's allowed roles. */
module SharedProtectedRoute {
  import opened Wrappers
  import opened Types
  import opened Routing

  /** The role the guard reads (`user?.role`): absent without a user or
      before onboarding. */
  function RoleOf(user: Option<User>): Option<Role> {
    if user.Some? then user.value.role else None
  }

  function Decide(loading: bool, isAuthenticated: bool, user: Option<User>, allowedRoles: seq<Role>): (r: Screen)
    ensures r == LoadingScreen <==> loading
    ensures r == Children <==>
      !loading && isAuthenticated && RoleOf(user).Some? && RoleOf(user).value in allowedRoles
    ensures r == Navigate("/") <==> !loading && (!isAuthenticated || RoleOf(user).None?)
    ensures r.Navigate? && r.path != "/" ==>
      RoleOf(user).Some? && RoleOf(user).value !in allowedRoles && r.path == LumynHome(RoleOf(user).value)
  {
    if loading then LoadingScreen
    else if !isAuthenticated then Navigate("/")
    else if RoleOf(user).None? then Navigate("/")
    else if RoleOf(user).value !in allowedRoles then Navigate(LumynHome(RoleOf(user).value))
    else Children
  }

  /** A user turned away for their role is sent to their own dashboard,
      whose guard (allowing that role) renders it: no redirect loop. */
  lemma WrongRoleRedirectSettles(user: User, allowedRoles: seq<Role>)
    requires user.role.Some? && user.role.value !in allowedRoles
    ensures Decide(false, true, Some(user), allowedRoles) == Navigate(LumynHome(user.role.value))
    ensures Decide(false, true, Some(user), [user.role.value]) == Children
  {
  }
}
