/** contexts/AuthContext.tsx: the MindEase mock sign-in.  The signed-in
    user lives in component state and, as JSON, under one local-storage
    key.  The fixture lists (`mockStudents`, `mockCounselors`) are passed
    in. */
module MockAuth {
  import opened Wrappers
  import opened Seqs
  import opened Text
  import opened MindEase

  /** The storage entry: absent, the JSON text of a user (which parses
      back to that user), or text `JSON.parse` rejects. */
  datatype Stored = NoEntry | Saved(user: MindUser) | Unparsable(text: string)

  datatype AuthState = AuthState(user: Option<MindUser>, stored: Stored)

  /** `role === 'student' ? mockStudents : mockCounselors`. */
  function Directory(role: MindRole, students: seq<Student>, counselors: seq<Counselor>): (r: seq<MindUser>)
    ensures forall i :: 0 <= i < |r| ==> r[i].role == role
  {
    if role == StudentRole then StudentUsers(students) else CounselorUsers(counselors)
  }

  predicate SameEmail(u: MindUser, email: string) {
    Lower(u.email) == Lower(email)
  }

  /** `login(email, role)`: the first record of the role's list whose
      email equals `email` ignoring case becomes the user and is stored,
      and the call returns true; otherwise it returns false and nothing
      changes. */
  function Login(s: AuthState, email: string, role: MindRole, students: seq<Student>, counselors: seq<Counselor>): (r: (AuthState, bool))
    ensures var dir := Directory(role, students, counselors);
      r.1 <==> exists i :: 0 <= i < |dir| && SameEmail(dir[i], email)
    ensures r.1 ==> && r.0.user.Some?
                    && r.0.user.value.role == role
                    && r.0.user.value in Directory(role, students, counselors)
                    && SameEmail(r.0.user.value, email)
                    && r.0.stored == Saved(r.0.user.value)
    ensures var dir := Directory(role, students, counselors);
      r.1 ==> exists i :: && 0 <= i < |dir| && dir[i] == r.0.user.value
                          && forall j :: 0 <= j < i ==> !SameEmail(dir[j], email)
    ensures !r.1 ==> r.0 == s
  {
    match Find(Directory(role, students, counselors), (u: MindUser) => SameEmail(u, email))
    case Some(u) => (AuthState(Some(u), Saved(u)), true)
    case None => (s, false)
  }

  /** Emails that agree ignoring case sign in the same way. */
  lemma LoginIgnoresCase(s: AuthState, e1: string, e2: string, role: MindRole, students: seq<Student>, counselors: seq<Counselor>)
    requires Lower(e1) == Lower(e2)
    ensures Login(s, e1, role, students, counselors) == Login(s, e2, role, students, counselors)
  {
    FindIndexAgrees(Directory(role, students, counselors),
      (u: MindUser) => SameEmail(u, e1), (u: MindUser) => SameEmail(u, e2));
  }

  /** A student's fixture email never signs in as a counselor unless a
      counselor record has the same email. */
  lemma WrongRoleRejected(s: AuthState, email: string, students: seq<Student>, counselors: seq<Counselor>)
    requires forall i :: 0 <= i < |counselors| ==> Lower(counselors[i].email) != Lower(email)
    ensures Login(s, email, CounselorRole, students, counselors) == (s, false)
  {
  }

  /** `logout`: the entry is removed and the user cleared. */
  function Logout(s: AuthState): (r: AuthState)
    ensures r.user.None? && r.stored.NoEntry?
  {
    AuthState(None, NoEntry)
  }

  /** The mount effect: a non-empty entry is parsed into the user; text
      that does not parse is removed; an empty string is falsy and left
      alone. */
  function Restore(stored: Stored): (r: AuthState)
    ensures stored.Saved? ==> r.user == Some(stored.user) && r.stored == stored
    ensures stored.Unparsable? && stored.text != "" ==> r.user.None? && r.stored.NoEntry?
    ensures stored == Unparsable("") ==> r == AuthState(None, stored)
    ensures !stored.Saved? ==> r.user.None?
    ensures r.stored != stored ==> stored.Unparsable? && r.stored.NoEntry?
  {
    match stored
    case NoEntry => AuthState(None, NoEntry)
    case Saved(u) => AuthState(Some(u), stored)
    case Unparsable(t) => if t == "" then AuthState(None, stored) else AuthState(None, NoEntry)
  }

  /** A sign-in survives a reload: restoring the stored entry yields the
      same state. */
  lemma LoginSurvivesReload(s: AuthState, email: string, role: MindRole, students: seq<Student>, counselors: seq<Counselor>)
    requires Login(s, email, role, students, counselors).1
    ensures Restore(Login(s, email, role, students, counselors).0.stored) == Login(s, email, role, students, counselors).0
  {
  }

  /** A sign-out survives a reload. */
  lemma LogoutSurvivesReload(s: AuthState)
    ensures Restore(Logout(s).stored) == Logout(s)
  {
  }

  /** After an unparsable entry is removed, the next reload finds nothing. */
  lemma RestoreSettles(stored: Stored)
    ensures Restore(Restore(stored).stored) == Restore(stored)
  {
  }
}
