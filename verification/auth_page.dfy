/** pages/AuthPage.tsx: the MindEase sign-in page: role choice, the
    login/signup flow flag, the form submit and the heading. */
module AuthPage {
  import opened Wrappers
  import opened Text
  import opened MindEase
  import opened Routing
  import MockAuth
  import UserProtectedRoute

  /** `queryParams.get('flow') || 'login'`: the query value when present
      and non-empty, unchecked, else 'login'. */
  function InitialFlow(query: Option<string>): (flow: string)
    ensures query.None? || query == Some("") ==> flow == "login"
    ensures query.Some? && query.value != "" ==> flow == query.value
  {
    if query.Some? && query.value != "" then query.value else "login"
  }

  datatype PageState = PageState(selectedRole: Option<MindRole>, flow: string, email: string, error: string)

  const SelectRoleMessage := "Please select your role."
  const InvalidCredentialsMessage := "Invalid credentials. Please use a mock email from the system. For example: alex@school.edu or evance@school.edu"

  /** The submit outcome: the page, the auth state and where the page
      navigates, if anywhere. */
  datatype Submitted = Submitted(page: PageState, auth: MockAuth.AuthState, navigate: Option<string>)

  /** `handleLogin`: without a role the prompt is shown and `login` is not
      called; otherwise a successful login navigates to the role's
      dashboard and a failed one shows the invalid-credentials message. */
  function HandleLogin(p: PageState, auth: MockAuth.AuthState, students: seq<Student>, counselors: seq<Counselor>): (r: Submitted)
    ensures p.selectedRole.None? ==> r == Submitted(p.(error := SelectRoleMessage), auth, None)
    ensures p.selectedRole.Some? ==>
      var login := MockAuth.Login(auth, p.email, p.selectedRole.value, students, counselors);
      && r.auth == login.0
      && (login.1 ==> r.navigate == Some(MindEaseHome(p.selectedRole.value)) && r.page == p.(error := ""))
      && (!login.1 ==> r.navigate.None? && r.page == p.(error := InvalidCredentialsMessage))
  {
    var cleared := p.(error := "");
    match p.selectedRole
    case None => Submitted(cleared.(error := SelectRoleMessage), auth, None)
    case Some(role) =>
      var login := MockAuth.Login(auth, p.email, role, students, counselors);
      if login.1 then Submitted(cleared, login.0, Some(MindEaseHome(role)))
      else Submitted(cleared.(error := InvalidCredentialsMessage), login.0, None)
  }

  /** A successful sign-in navigates to a route whose guard admits the new
      user. */
  lemma LoginLandsOnAdmittingRoute(p: PageState, auth: MockAuth.AuthState, students: seq<Student>, counselors: seq<Counselor>)
    requires HandleLogin(p, auth, students, counselors).navigate.Some?
    ensures var r := HandleLogin(p, auth, students, counselors);
      && p.selectedRole.Some?
      && r.navigate == Some(MindEaseHome(p.selectedRole.value))
      && UserProtectedRoute.Decide(r.auth.user, p.selectedRole.value) == Children
  {
  }

  /** `getWelcomeText`: a fixed greeting without a role, otherwise the
      capitalised role and flow. */
  function WelcomeText(role: Option<MindRole>, flow: string): (t: string)
    ensures role.None? ==> t == "Welcome to MindEase"
  {
    match role
    case None => "Welcome to MindEase"
    case Some(r) => Capitalize(MindRoleName(r)) + " " + Capitalize(flow)
  }

  lemma StudentLoginWelcome()
    ensures WelcomeText(Some(StudentRole), "login") == "Student Login"
  {
    assert Capitalize("student") == "Student";
  }

  lemma CounselorSignupWelcome()
    ensures WelcomeText(Some(CounselorRole), "signup") == "Counselor Signup"
  {
    assert Capitalize("counselor") == "Counselor";
  }

  /** The two role headings of each flow and the greeting are five
      different texts: the heading tells role and flow apart. */
  lemma WelcomeTextsDistinct(r1: Option<MindRole>, f1: string, r2: Option<MindRole>, f2: string)
    requires f1 == "login" || f1 == "signup"
    requires f2 == "login" || f2 == "signup"
    ensures WelcomeText(r1, f1) == WelcomeText(r2, f2) <==> r1 == r2 && (r1.None? || f1 == f2)
  {
    WelcomeTextLength(r1, f1);
    WelcomeTextLength(r2, f2);
    if r1 == r2 && (r1.None? || f1 == f2) {
      assert WelcomeText(r1, f1) == WelcomeText(r2, f2);
    }
  }

  /** The headings have lengths 13, 14, 15 and 16 and the greeting 19, so
      the length alone identifies role and flow. */
  lemma WelcomeTextLength(r: Option<MindRole>, f: string)
    requires f == "login" || f == "signup"
    ensures |WelcomeText(r, f)| ==
      if r.None? then 19 else (if r.value == StudentRole then 7 else 9) + 1 + |f|
  {
  }

  /** The flow toggle: 'login' becomes 'signup' and anything else 'login'. */
  function Toggle(flow: string): (r: string)
    ensures r == "signup" <==> flow == "login"
    ensures r != "signup" ==> r == "login"
  {
    if flow == "login" then "signup" else "login"
  }

  /** On the two real flows the toggle is its own inverse. */
  lemma ToggleTwice(flow: string)
    requires flow == "login" || flow == "signup"
    ensures Toggle(Toggle(flow)) == flow
  {
  }

  /** "Back to role selection" clears the role and nothing else. */
  function Back(p: PageState): (r: PageState)
    ensures r.selectedRole.None?
    ensures r.flow == p.flow && r.email == p.email && r.error == p.error
  {
    p.(selectedRole := None)
  }
}
