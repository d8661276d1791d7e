/** pages/CompleteProfile.tsx: the onboarding page where a signed-in Lumyn
    user without a role picks one. */
module CompleteProfile {
  import opened Wrappers
  import opened Types
  import opened Routing
  import SharedProtectedRoute

  /** The redirect the effect performs, if any.  `None` keeps the user on
      the page. */
  function RedirectEffect(loading: bool, isAuthenticated: bool, user: Option<User>): (r: Option<string>)
    ensures loading ==> r.None?
    ensures !loading && !isAuthenticated ==> r == Some("/")
    ensures r.None? <==> loading || (isAuthenticated && SharedProtectedRoute.RoleOf(user).None?)
    ensures !loading && isAuthenticated && SharedProtectedRoute.RoleOf(user).Some? ==>
      r == Some(LumynHome(SharedProtectedRoute.RoleOf(user).value))
  {
    if loading then None
    else if !isAuthenticated then Some("/")
    else match SharedProtectedRoute.RoleOf(user)
      case Some(role) => Some(LumynHome(role))
      case None => None
  }

  datatype ProfileView = LoadingView | RoleChooser

  /** The loading screen shows while loading, unauthenticated or without a
      user; otherwise the role chooser. */
  function Render(loading: bool, isAuthenticated: bool, user: Option<User>): (v: ProfileView)
    ensures v == RoleChooser <==> !loading && isAuthenticated && user.Some?
  {
    if loading || !isAuthenticated || user.None? then LoadingView else RoleChooser
  }

  datatype ProfileForm = ProfileForm(isUpdating: bool, error: string)

  const UpdateFailedMessage := "Could not update role. Please try again."

  /** `handleRoleSelect` once `updateUserRole` has answered: a failure shows
      the message and re-enables the buttons; a success leaves them
      disabled, the redirect being the effect's job. */
  function RoleSelect(f: ProfileForm, updateFailed: bool): (r: ProfileForm)
    ensures updateFailed ==> r == ProfileForm(false, UpdateFailedMessage)
    ensures !updateFailed ==> r == ProfileForm(true, "")
  {
    var started := ProfileForm(true, "");
    if updateFailed then started.(isUpdating := false, error := UpdateFailedMessage) else started
  }

  /** Once the role update lands, the effect sends the user to the
      dashboard of the chosen role, and that dashboard's guard admits
      them. */
  lemma ChosenRoleReachesDashboard(user: User, role: Role)
    requires user.role.None?
    ensures RedirectEffect(false, true, Some(user)) == None
    ensures RedirectEffect(false, true, Some(user.(role := Some(role)))) == Some(LumynHome(role))
    ensures SharedProtectedRoute.Decide(false, true, Some(user.(role := Some(role))), [role]) == Children
  {
  }
}
