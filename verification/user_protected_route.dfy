/** components/ProtectedRoute.tsx: the MindEase route guard, deciding from
    the signed-in user and the route's one required role. */
module UserProtectedRoute {
  import opened Wrappers
  import opened MindEase
  import opened Routing

  function Decide(user: Option<MindUser>, role: MindRole): (r: Screen)
    ensures r != LoadingScreen
    ensures r == Navigate("/auth") <==> user.None?
    ensures r == Children <==> user.Some? && user.value.role == role
    ensures user.Some? && user.value.role != role ==> r == Navigate(MindEaseHome(user.value.role))
  {
    if user.None? then Navigate("/auth")
    else if user.value.role != role then Navigate(MindEaseHome(user.value.role))
    else Children
  }

  /** A student on a counselor route always lands on the student
      dashboard, and that route renders for them. */
  lemma WrongRoleStudentLandsOnStudentDashboard(user: MindUser)
    requires user.role == StudentRole
    ensures Decide(Some(user), CounselorRole) == Navigate("/student/dashboard")
    ensures Decide(Some(user), StudentRole) == Children
  {
  }

  /** Every role redirect targets the dashboard whose guard admits the
      user. */
  lemma RedirectSettles(user: MindUser, role: MindRole)
    requires user.role != role
    ensures Decide(Some(user), role) == Navigate(MindEaseHome(user.role))
    ensures Decide(Some(user), user.role) == Children
  {
  }
}
