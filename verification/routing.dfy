/** What a route guard renders, and the dashboard path of each role in the
    two app generations. */
module Routing {
  import Types
  import MindEase

  /** A loading placeholder, a redirect (`<Navigate to=...>`), or the
      guarded page itself. */
  datatype Screen = LoadingScreen | Navigate(path: string) | Children

  /** The Lumyn dashboards: `Role.STUDENT ? '/student-dashboard' : '/counsellor-dashboard'`. */
  function LumynHome(role: Types.Role): (p: string)
    ensures p == "/student-dashboard" <==> role == Types.Student
    ensures p == "/counsellor-dashboard" <==> role == Types.Counsellor
  {
    assert "/student-dashboard"[1] != "/counsellor-dashboard"[1];
    match role
    case Student => "/student-dashboard"
    case Counsellor => "/counsellor-dashboard"
  }

  /** The MindEase dashboards: `'student' ? '/student/dashboard' : '/counselor/dashboard'`. */
  function MindEaseHome(role: MindEase.MindRole): (p: string)
    ensures p == "/student/dashboard" <==> role == MindEase.StudentRole
    ensures p == "/counselor/dashboard" <==> role == MindEase.CounselorRole
  {
    assert "/student/dashboard"[1] != "/counselor/dashboard"[1];
    match role
    case StudentRole => "/student/dashboard"
    case CounselorRole => "/counselor/dashboard"
  }
}
