/** pages/CounselorDashboard.tsx: the MindEase counselor's dashboard over
    the fixture appointments, students and journals.  "Now" and the local
    time-zone offset are parameters. */
module CounselorDashboard {
  import opened Wrappers
  import opened Seqs
  import opened Text
  import opened MindEase
  import Calendar

  // ---------------------------------------------------------------------
  // handleUpdateAppointment

  function WithStatusIfId(a: MindAppointment, id: string, status: MindStatus): MindAppointment {
    if a.id == id then a.(status := status) else a
  }

  /** The component state: `prev.map(appt => appt.id === id ? {...appt, status} : appt)`.
      Every appointment with that id takes the new status; nothing else
      changes. */
  function UpdateAppointment(appts: seq<MindAppointment>, id: string, status: MindStatus): (r: seq<MindAppointment>)
    ensures |r| == |appts|
    ensures forall i :: 0 <= i < |r| && appts[i].id == id ==> r[i] == appts[i].(status := status)
    ensures forall i :: 0 <= i < |r| && appts[i].id != id ==> r[i] == appts[i]
  {
    Map(appts, (a: MindAppointment) => WithStatusIfId(a, id, status))
  }

  /** Applying the same update twice is applying it once. */
  lemma UpdateIdempotent(appts: seq<MindAppointment>, id: string, status: MindStatus)
    ensures UpdateAppointment(UpdateAppointment(appts, id, status), id, status) == UpdateAppointment(appts, id, status)
  {
  }

  /** Position `i` holds the first appointment with that id. */
  ghost predicate FirstWithId(appts: seq<MindAppointment>, i: int, id: string) {
    0 <= i < |appts| && appts[i].id == id && forall j :: 0 <= j < i ==> appts[j].id != id
  }

  /** The module-level fixture list: `findIndex` then an in-place write, so
      only the FIRST appointment with that id changes. */
  function UpdateMaster(master: seq<MindAppointment>, id: string, status: MindStatus): (r: seq<MindAppointment>)
    ensures |r| == |master|
    ensures forall i :: 0 <= i < |master| ==>
      r[i] == (if FirstWithId(master, i, id) then master[i].(status := status) else master[i])
  {
    match FindIndex(master, (a: MindAppointment) => a.id == id)
    case None => master
    case Some(k) => master[k := master[k].(status := status)]
  }

  /** Ids are unique in the list. */
  ghost predicate DistinctIds(appts: seq<MindAppointment>) {
    forall i, j :: 0 <= i < j < |appts| ==> appts[i].id != appts[j].id
  }

  /** With unique ids the fixture list and the component state receive the
      same update. */
  lemma MasterAgreesWithState(appts: seq<MindAppointment>, id: string, status: MindStatus)
    requires DistinctIds(appts)
    ensures UpdateMaster(appts, id, status) == UpdateAppointment(appts, id, status)
  {
    var m, s := UpdateMaster(appts, id, status), UpdateAppointment(appts, id, status);
    forall i | 0 <= i < |appts|
      ensures m[i] == s[i]
    {
      if appts[i].id == id {
        assert forall j :: 0 <= j < i ==> appts[j].id != id;
      }
    }
  }

  /** A duplicated id is where the two lists part: the state updates both
      copies, the fixture list only the first. */
  lemma MasterMissesDuplicate(a: MindAppointment, status: MindStatus)
    requires a.status != status
    ensures var appts := [a, a];
      UpdateMaster(appts, a.id, status)[1] != UpdateAppointment(appts, a.id, status)[1]
  {
    var appts := [a, a];
    assert appts[0].id == a.id;
    assert UpdateMaster(appts, a.id, status)[1] == a;
  }

  // ---------------------------------------------------------------------
  // Summary, requests and schedule filters

  predicate IsRequest(a: MindAppointment, counselorId: string) {
    a.counselorId == counselorId && a.status == Pending
  }

  predicate IsScheduled(a: MindAppointment, counselorId: string) {
    a.counselorId == counselorId && a.status == Confirmed
  }

  /** Pending requests: this counselor's Pending appointments, in order. */
  function PendingRequests(appts: seq<MindAppointment>, counselorId: string): (r: seq<MindAppointment>)
    ensures forall i :: 0 <= i < |r| ==> r[i] in appts && IsRequest(r[i], counselorId)
    ensures forall i :: 0 <= i < |appts| && IsRequest(appts[i], counselorId) ==> appts[i] in r
  {
    Filter(appts, (a: MindAppointment) => IsRequest(a, counselorId))
  }

  /** The schedule: this counselor's Confirmed appointments, in order. */
  function Schedule(appts: seq<MindAppointment>, counselorId: string): (r: seq<MindAppointment>)
    ensures forall i :: 0 <= i < |r| ==> r[i] in appts && IsScheduled(r[i], counselorId)
    ensures forall i :: 0 <= i < |appts| && IsScheduled(appts[i], counselorId) ==> appts[i] in r
  {
    Filter(appts, (a: MindAppointment) => IsScheduled(a, counselorId))
  }

  predicate IsUpcoming(a: MindAppointment, counselorId: string, now: int) {
    IsScheduled(a, counselorId) && a.date >= now
  }

  /** Upcoming: this counselor's Confirmed appointments not before now. */
  function Upcoming(appts: seq<MindAppointment>, counselorId: string, now: int): (r: seq<MindAppointment>)
    ensures forall i :: 0 <= i < |r| ==> r[i] in appts && IsUpcoming(r[i], counselorId, now)
    ensures forall i :: 0 <= i < |appts| && IsUpcoming(appts[i], counselorId, now) ==> appts[i] in r
  {
    Filter(appts, (a: MindAppointment) => IsUpcoming(a, counselorId, now))
  }

  /** The upcoming list is the schedule cut at "now". */
  lemma {:induction false} UpcomingIsScheduleFromNow(appts: seq<MindAppointment>, counselorId: string, now: int)
    ensures Upcoming(appts, counselorId, now) == Filter(Schedule(appts, counselorId), (a: MindAppointment) => a.date >= now)
  {
    if |appts| > 0 {
      UpcomingIsScheduleFromNow(appts[1..], counselorId, now);
    }
  }

  /** "Upcoming Sessions Today": the upcoming appointments on today's local
      calendar day. */
  function TodayCount(appts: seq<MindAppointment>, counselorId: string, now: int, offsetMs: int): (n: nat)
    ensures n <= |Upcoming(appts, counselorId, now)|
  {
    Count(Upcoming(appts, counselorId, now),
      (a: MindAppointment) => Calendar.LocalDay(a.date, offsetMs) == Calendar.LocalDay(now, offsetMs))
  }

  /** A scheduled appointment between now and the start of tomorrow, local
      time. */
  predicate RestOfToday(a: MindAppointment, counselorId: string, now: int, offsetMs: int) {
    IsScheduled(a, counselorId) && now <= a.date < Calendar.LocalDayStart(Calendar.LocalDay(now, offsetMs) + 1, offsetMs)
  }

  /** An upcoming appointment is on today's local day exactly when it
      falls before tomorrow starts. */
  lemma SameDayIsRestOfToday(a: MindAppointment, counselorId: string, now: int, offsetMs: int)
    ensures (IsUpcoming(a, counselorId, now) && Calendar.LocalDay(a.date, offsetMs) == Calendar.LocalDay(now, offsetMs))
            <==> RestOfToday(a, counselorId, now, offsetMs)
  {
    var today := Calendar.LocalDay(now, offsetMs);
    Calendar.LocalDayRange(now, offsetMs, today);
    Calendar.LocalDayRange(a.date, offsetMs, today);
  }

  /** Today's count is the number of the counselor's confirmed
      appointments from now until local midnight. */
  lemma {:induction false} TodayCountIsRestOfToday(appts: seq<MindAppointment>, counselorId: string, now: int, offsetMs: int)
    ensures TodayCount(appts, counselorId, now, offsetMs)
         == Count(appts, (a: MindAppointment) => RestOfToday(a, counselorId, now, offsetMs))
  {
    if |appts| > 0 {
      var a := appts[0];
      var rest := appts[1..];
      TodayCountIsRestOfToday(rest, counselorId, now, offsetMs);
      SameDayIsRestOfToday(a, counselorId, now, offsetMs);
      if IsUpcoming(a, counselorId, now) {
        var up := Upcoming(appts, counselorId, now);
        assert up == [a] + Upcoming(rest, counselorId, now);
        assert up[1..] == Upcoming(rest, counselorId, now);
      } else {
        assert Upcoming(appts, counselorId, now) == Upcoming(rest, counselorId, now);
      }
    }
  }

  /** Confirming or rejecting a request removes it from the pending list. */
  lemma HandledRequestLeavesPending(appts: seq<MindAppointment>, counselorId: string, id: string, status: MindStatus)
    requires status != Pending
    ensures var r := PendingRequests(UpdateAppointment(appts, id, status), counselorId);
      forall i :: 0 <= i < |r| ==> r[i].id != id
  {
    var u := UpdateAppointment(appts, id, status);
    var r := PendingRequests(u, counselorId);
    forall i | 0 <= i < |r|
      ensures r[i].id != id
    {
      var k :| 0 <= k < |u| && u[k] == r[i];
      assert u[k] == WithStatusIfId(appts[k], id, status);
    }
  }

  // ---------------------------------------------------------------------
  // Students view

  function Score(s: Student): int {
    s.concernScore
  }

  function NegScore(s: Student): int {
    -s.concernScore
  }

  predicate NameMatches(s: Student, term: string) {
    ContainsIgnoringCase(s.name, term)
  }

  function MatchingStudents(students: seq<Student>, term: string): (r: seq<Student>)
    ensures forall i :: 0 <= i < |r| ==> r[i] in students && NameMatches(r[i], term)
    ensures forall i :: 0 <= i < |students| && NameMatches(students[i], term) ==> students[i] in r
    ensures multiset(r) <= multiset(students)
  {
    Filter(students, (s: Student) => NameMatches(s, term))
  }

  /** An empty search matches every student. */
  lemma EmptySearchMatchesAll(students: seq<Student>)
    ensures MatchingStudents(students, "") == students
  {
    forall i | 0 <= i < |students|
      ensures NameMatches(students[i], "")
    {
      EmptyNeedle(Lower(students[i].name));
    }
    FilterKeepsAll(students, (s: Student) => NameMatches(s, ""));
  }

  /** `sort((a, b) => b.concernScore - a.concernScore)`: the greatest
      score first, equal scores in list order. */
  function ScoreDescending(students: seq<Student>): (r: seq<Student>)
    ensures multiset(r) == multiset(students)
    ensures forall i, j :: 0 <= i <= j < |r| ==> r[i].concernScore >= r[j].concernScore
  {
    var r := SortByKey(students, NegScore);
    forall i, j | 0 <= i <= j < |r|
      ensures r[i].concernScore >= r[j].concernScore
    {
      SortedByPairwise(r, NegScore, i, j);
    }
    r
  }

  /** The most negative score first, equal scores in list order. */
  function ScoreAscending(students: seq<Student>): (r: seq<Student>)
    ensures multiset(r) == multiset(students)
    ensures forall i, j :: 0 <= i <= j < |r| ==> r[i].concernScore <= r[j].concernScore
  {
    var r := SortByKey(students, Score);
    forall i, j | 0 <= i <= j < |r|
      ensures r[i].concernScore <= r[j].concernScore
    {
      SortedByPairwise(r, Score, i, j);
    }
    r
  }

  /** `filteredStudents` as written: the matching students, greatest
      concern score first.  A concern score is a sentiment value, the most
      negative being the most worrying (the fixtures pair -0.91 with High
      and -0.15 with Low), so this lists the least concerning student
      first. */
  function FilteredStudentsAsWritten(students: seq<Student>, term: string): (r: seq<Student>)
    ensures multiset(r) == multiset(MatchingStudents(students, term))
    ensures forall i, j :: 0 <= i <= j < |r| ==> r[i].concernScore >= r[j].concernScore
  {
    ScoreDescending(MatchingStudents(students, term))
  }

  /** `filteredStudents` as the comment "Sort by highest concern first"
      intends: the matching students, most negative score first. */
  function FilteredStudents(students: seq<Student>, term: string): (r: seq<Student>)
    ensures multiset(r) == multiset(MatchingStudents(students, term))
    ensures forall i, j :: 0 <= i <= j < |r| ==> r[i].concernScore <= r[j].concernScore
  {
    ScoreAscending(MatchingStudents(students, term))
  }

  /** With an empty search both lists order every student. */
  lemma EmptySearchOrdersAll(students: seq<Student>)
    ensures FilteredStudentsAsWritten(students, "") == ScoreDescending(students)
    ensures FilteredStudents(students, "") == ScoreAscending(students)
  {
    EmptySearchMatchesAll(students);
  }

  /** The concern scores and levels of the four fixture students, in
      fixture order: Alex (-0.85, High), Ben (-0.42, Moderate), Sophia
      (-0.91, High) and Liam (-0.15, Low). */
  ghost predicate FixtureScores(s: seq<Student>) {
    && |s| == 4
    && s[0].concernScore == -85 && s[0].concernLevel == High
    && s[1].concernScore == -42 && s[1].concernLevel == Moderate
    && s[2].concernScore == -91 && s[2].concernLevel == High
    && s[3].concernScore == -15 && s[3].concernLevel == Low
  }

  lemma MockStudentsScores()
    ensures FixtureScores(MockStudents)
  {
  }

  /** On the fixture students the order as written puts the Low-concern
      student (-0.15) first and a High-concern one (-0.91) last; with an
      empty search this is the list shown (EmptySearchOrdersAll). */
  lemma AsWrittenListsLowConcernFirst(students: seq<Student>)
    requires FixtureScores(students)
    ensures var r := ScoreDescending(students);
      && |r| == 4
      && r[0].concernLevel == Low && r[0].concernScore == -15
      && r[3].concernLevel == High && r[3].concernScore == -91
  {
    DescendingEnds(students);
    assert students == [students[0], students[1], students[2], students[3]];
  }

  /** The corrected order puts the most negative score (-0.91, High) first
      and the Low-concern student (-0.15) last. */
  lemma CorrectedListsHighConcernFirst(students: seq<Student>)
    requires FixtureScores(students)
    ensures var r := ScoreAscending(students);
      && |r| == 4
      && r[0].concernLevel == High && r[0].concernScore == -91
      && r[3].concernLevel == Low && r[3].concernScore == -15
  {
    AscendingEnds(students);
    assert students == [students[0], students[1], students[2], students[3]];
  }

  /** The first and last students of the descending order are students of
      the list with the greatest and the least score. */
  lemma DescendingEnds(students: seq<Student>)
    requires |students| > 0
    ensures var r := ScoreDescending(students);
      && |r| == |students| && r[0] in students && r[|r| - 1] in students
      && forall i :: 0 <= i < |students| ==>
           r[0].concernScore >= students[i].concernScore >= r[|r| - 1].concernScore
  {
    var r := ScoreDescending(students);
    assert |r| == |multiset(r)| == |students|;
    SameElements(r, students);
    SameElements(students, r);
  }

  /** The first and last students of the ascending order are students of
      the list with the least and the greatest score. */
  lemma AscendingEnds(students: seq<Student>)
    requires |students| > 0
    ensures var r := ScoreAscending(students);
      && |r| == |students| && r[0] in students && r[|r| - 1] in students
      && forall i :: 0 <= i < |students| ==>
           r[0].concernScore <= students[i].concernScore <= r[|r| - 1].concernScore
  {
    var r := ScoreAscending(students);
    assert |r| == |multiset(r)| == |students|;
    SameElements(r, students);
    SameElements(students, r);
  }

  /** `handleViewJournal`: the student becomes selected and exactly that
      student's entries are shown, in order. */
  function ViewJournal(journals: seq<MindJournal>, student: Student): (r: (Option<Student>, seq<MindJournal>))
    ensures r.0 == Some(student)
    ensures forall i :: 0 <= i < |r.1| ==> r.1[i] in journals && r.1[i].studentId == student.id
    ensures forall i :: 0 <= i < |journals| && journals[i].studentId == student.id ==> journals[i] in r.1
  {
    (Some(student), Filter(journals, (j: MindJournal) => j.studentId == student.id))
  }

  // ---------------------------------------------------------------------
  // renderView

  datatype CounselorScreen = SummaryScreen | RequestsScreen | ScheduleScreen | StudentsScreen

  /** The switch on `currentView`, with `default` falling to the summary. */
  function RenderView(view: string): (s: CounselorScreen)
    ensures s == RequestsScreen <==> view == "requests"
    ensures s == ScheduleScreen <==> view == "schedule"
    ensures s == StudentsScreen <==> view == "students"
    ensures s == SummaryScreen <==> view != "requests" && view != "schedule" && view != "students"
  {
    if view == "requests" then RequestsScreen
    else if view == "schedule" then ScheduleScreen
    else if view == "students" then StudentsScreen
    else SummaryScreen
  }
}
