/** The record types of the "MindEase" mock-data pages (data/mockData.ts
    and the pages that import it).  They are a separate generation from
    the Lumyn types: the counsellor role is spelt 'counselor', students
    carry a concern score and level, and an appointment refers to its
    student and counselor by id only.  The types file these pages import
    is not part of this model; the fields are those the fixture records
    and pages use.  Dates are integer milliseconds since the epoch, and
    `concernScore` (a float in -1..1) is kept in hundredths. */
module MindEase {
  import opened Wrappers

  /** `'student' | 'counselor'`. */
  datatype MindRole = StudentRole | CounselorRole

  function MindRoleName(r: MindRole): (s: string)
    ensures s == "student" || s == "counselor"
  {
    match r
    case StudentRole => "student"
    case CounselorRole => "counselor"
  }

  function ParseMindRole(s: string): (r: Option<MindRole>)
    ensures r.Some? ==> MindRoleName(r.value) == s
    ensures forall x: MindRole :: MindRoleName(x) == s ==> r == Some(x)
  {
    if s == "student" then Some(StudentRole)
    else if s == "counselor" then Some(CounselorRole)
    else None
  }

  datatype ConcernLevel = High | Moderate | Low

  datatype MindStatus = Pending | Confirmed | Completed | Rejected

  /** A signed-in user: a student or a counselor record. */
  datatype MindUser = MindUser(id: string, name: string, email: string, role: MindRole)

  datatype Student = Student(
    id: string, name: string, email: string,
    concernScore: int, concernLevel: ConcernLevel, lastMessage: string)

  datatype Counselor = Counselor(id: string, name: string, email: string)

  datatype MindAppointment = MindAppointment(
    id: string, studentId: string, counselorId: string,
    date: int, time: string, status: MindStatus, notes: Option<string>)

  datatype MindJournal = MindJournal(id: string, studentId: string, title: string, content: string, date: int)

  /** The user record a student fixture stands for (role 'student'). */
  function StudentUser(s: Student): (u: MindUser)
    ensures u.role == StudentRole && u.id == s.id && u.email == s.email
  {
    MindUser(s.id, s.name, s.email, StudentRole)
  }

  /** The user record a counselor fixture stands for (role 'counselor'). */
  function CounselorUser(c: Counselor): (u: MindUser)
    ensures u.role == CounselorRole && u.id == c.id && u.email == c.email
  {
    MindUser(c.id, c.name, c.email, CounselorRole)
  }

  // ---------------------------------------------------------------------
  // Fixture records (`mockStudents`, `mockCounselors`).

  const Alex := Student("student-1", "Alex Johnson", "alex@school.edu", -85, High,
    "I'm feeling really overwhelmed with exams...")
  const Ben := Student("student-2", "Ben Carter", "ben@school.edu", -42, Moderate,
    "It's just been a tough week, I guess.")
  const Sophia := Student("student-3", "Sophia Rodriguez", "sophia@school.edu", -91, High,
    "I don't know if I can handle the pressure anymore.")
  const Liam := Student("student-4", "Liam Goldberg", "liam@school.edu", -15, Low,
    "Feeling a bit stressed but managing.")

  const MockStudents: seq<Student> := [Alex, Ben, Sophia, Liam]

  const MockCounselors: seq<Counselor> := [
    Counselor("counselor-1", "Dr. Emily Vance", "evance@school.edu"),
    Counselor("counselor-2", "Mr. David Chen", "dchen@school.edu")
  ]

  /** The student fixtures as sign-in records. */
  function StudentUsers(students: seq<Student>): (r: seq<MindUser>)
    ensures |r| == |students|
    ensures forall i :: 0 <= i < |r| ==> r[i] == StudentUser(students[i])
  {
    if |students| == 0 then [] else [StudentUser(students[0])] + StudentUsers(students[1..])
  }

  /** The counselor fixtures as sign-in records. */
  function CounselorUsers(counselors: seq<Counselor>): (r: seq<MindUser>)
    ensures |r| == |counselors|
    ensures forall i :: 0 <= i < |r| ==> r[i] == CounselorUser(counselors[i])
  {
    if |counselors| == 0 then [] else [CounselorUser(counselors[0])] + CounselorUsers(counselors[1..])
  }
}
