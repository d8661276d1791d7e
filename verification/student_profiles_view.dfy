/** components/counsellor/StudentProfilesView.tsx: the counsellor's list of
    students with a name search; selecting one loads that student's
    appointments and journal. Each fetch result is passed in as a `Result`. */
module StudentProfilesView {
  import opened Wrappers
  import opened Text
  import opened Types

  datatype ProfilesState = ProfilesState(
    students: seq<User>,
    selected: Option<User>,
    appointments: seq<Appointment>,
    journalEntries: seq<JournalEntry>,
    loading: bool,
    searchTerm: string)

  /** `filteredStudents`: every student for an empty term, otherwise those
      whose lowercased name contains the lowercased term, in list order. */
  function FilteredStudents(students: seq<User>, term: string): (r: seq<User>)
    ensures term == "" ==> r == students
    ensures forall i :: 0 <= i < |r| ==> ContainsIgnoringCase(r[i].name, term)
    ensures multiset(r) <= multiset(students)
  {
    if term == "" then
      assert forall i :: 0 <= i < |students| ==> ContainsIgnoringCase(students[i].name, "") by {
        forall i | 0 <= i < |students|
          ensures ContainsIgnoringCase(students[i].name, "")
        {
          EmptyNeedle(Lower(students[i].name));
        }
      }
      students
    else NameMatches(students, term)
  }

  function NameMatches(students: seq<User>, term: string): (r: seq<User>)
    ensures forall i :: 0 <= i < |r| ==> ContainsIgnoringCase(r[i].name, term)
    ensures multiset(r) <= multiset(students)
  {
    if |students| == 0 then []
    else
      assert students == [students[0]] + students[1..];
      (if ContainsIgnoringCase(students[0].name, term) then [students[0]] else []) + NameMatches(students[1..], term)
  }

  /** Every matching student is listed. */
  lemma {:induction false} NameMatchesComplete(students: seq<User>, term: string, i: int)
    requires 0 <= i < |students| && ContainsIgnoringCase(students[i].name, term)
    ensures students[i] in FilteredStudents(students, term)
  {
    if term != "" {
      NameMatchesAll(students, term, i);
    }
  }

  lemma {:induction false} NameMatchesAll(students: seq<User>, term: string, i: int)
    requires 0 <= i < |students| && ContainsIgnoringCase(students[i].name, term)
    ensures students[i] in NameMatches(students, term)
  {
    if i > 0 {
      NameMatchesAll(students[1..], term, i - 1);
    }
  }

  /** The selection effect.  Choosing a student (a change of selection)
      sets `loading`; the lists stay until the fetches settle.  Clearing
      the selection empties both lists and leaves `loading` as it was.  An
      unchanged selection does not re-run the effect. */
  function Select(s: ProfilesState, student: Option<User>): (r: ProfilesState)
    ensures r.selected == student && r.students == s.students && r.searchTerm == s.searchTerm
    ensures student == s.selected ==> r == s
    ensures student != s.selected && student.Some? ==>
      r.loading && r.appointments == s.appointments && r.journalEntries == s.journalEntries
    ensures student != s.selected && student.None? ==>
      r.appointments == [] && r.journalEntries == [] && r.loading == s.loading
  {
    if student == s.selected then s
    else match student
      case Some(_) => s.(selected := student, loading := true)
      case None => s.(selected := None, appointments := [], journalEntries := [])
  }

  /** `Promise.all([appointments, journal.catch(() => [])])` settling.  A
      journal failure becomes an empty journal; an appointments failure
      rejects the whole `Promise.all`, which nothing catches, so nothing is
      stored and `loading` stays set. */
  function FetchesSettled(s: ProfilesState, appts: Result<seq<Appointment>, string>, journals: Result<seq<JournalEntry>, string>)
    : (r: ProfilesState)
    ensures appts.Failure? ==> r == s
    ensures appts.Success? ==>
      && !r.loading
      && r.appointments == appts.value
      && r.journalEntries == (if journals.Success? then journals.value else [])
      && r.selected == s.selected && r.students == s.students && r.searchTerm == s.searchTerm
  {
    match appts
    case Failure(_) => s
    case Success(a) =>
      s.(appointments := a, journalEntries := (match journals case Success(j) => j case Failure(_) => []), loading := false)
  }

  /** Selecting a student whose journal is not readable ends with the
      appointments shown, an empty journal and loading cleared: the
      journal failure is not surfaced as an error. */
  lemma JournalFailureIsEmptyJournal(s: ProfilesState, student: User, appts: seq<Appointment>, err: string)
    requires s.selected != Some(student)
    ensures var r := FetchesSettled(Select(s, Some(student)), Success(appts), Failure(err));
      && r.selected == Some(student) && !r.loading
      && r.appointments == appts && r.journalEntries == []
  {
  }

  /** Once an appointments fetch fails, `loading` stays set for as long as
      the selection stays. */
  lemma AppointmentsFailureKeepsLoading(s: ProfilesState, student: User, err: string, journals: Result<seq<JournalEntry>, string>)
    requires s.selected != Some(student)
    ensures FetchesSettled(Select(s, Some(student)), Failure(err), journals).loading
  {
  }

  /** The icon beside an appointment. */
  datatype StatusIcon = GreenCheck | YellowClock | RedCross | GreyClock

  /** `getStatusIcon`: Completed has no case of its own and falls to the
      grey default. */
  function StatusIconFor(st: AppointmentStatus): (icon: StatusIcon)
    ensures icon == GreenCheck <==> st == Confirmed
    ensures icon == YellowClock <==> st == Pending
    ensures icon == RedCross <==> st == Rejected
    ensures icon == GreyClock <==> st == Completed
  {
    match st
    case Confirmed => GreenCheck
    case Pending => YellowClock
    case Rejected => RedCross
    case Completed => GreyClock
  }
}
