/** components/counsellor/StudentJournalsView.tsx: pick a student from a
    drop-down and read their journal, with a loading flag and an error
    message for a refused read. */
module StudentJournalsView {
  import opened Wrappers
  import opened Types

  datatype JournalsState = JournalsState(
    students: seq<User>,
    selected: Option<User>,
    journalEntries: seq<JournalEntry>,
    loading: bool,
    error: string)

  const PermissionError := "You do not have permission to view this student's journal entries."

  /** `students.find(s => s.id === id)`. */
  function FindStudent(students: seq<User>, id: string): (r: Option<User>)
    ensures r.Some? ==> r.value in students && r.value.id == id
    ensures r.None? <==> forall i :: 0 <= i < |students| ==> students[i].id != id
  {
    if |students| == 0 then None
    else if students[0].id == id then Some(students[0])
    else FindStudent(students[1..], id)
  }

  /** `handleSelectStudent(id)` and the effect it triggers when the
      selection changes: a student sets `loading` and clears the error; no
      student (an unknown id, or the placeholder option) clears the entries
      and the error. */
  function HandleSelectStudent(s: JournalsState, id: string): (r: JournalsState)
    ensures r.selected == FindStudent(s.students, id) && r.students == s.students
    ensures r.selected == s.selected ==> r == s
    ensures r.selected != s.selected && r.selected.Some? ==>
      r.loading && r.error == "" && r.journalEntries == s.journalEntries
    ensures r.selected != s.selected && r.selected.None? ==>
      r.journalEntries == [] && r.error == "" && r.loading == s.loading
  {
    var student := FindStudent(s.students, id);
    if student == s.selected then s
    else match student
      case Some(_) => s.(selected := student, loading := true, error := "")
      case None => s.(selected := None, journalEntries := [], error := "")
  }

  /** The journal read settling: entries stored on success; on refusal the
      permission message is set and the entries emptied.  Either way
      `loading` clears. */
  function JournalSettled(s: JournalsState, result: Result<seq<JournalEntry>, string>): (r: JournalsState)
    ensures !r.loading && r.selected == s.selected && r.students == s.students
    ensures result.Success? ==> r.journalEntries == result.value && r.error == s.error
    ensures result.Failure? ==> r.journalEntries == [] && r.error == PermissionError
  {
    match result
    case Success(entries) => s.(journalEntries := entries, loading := false)
    case Failure(_) => s.(error := PermissionError, journalEntries := [], loading := false)
  }

  /** What the panel shows, in priority order. */
  datatype Display =
    | LoadingEntries
    | ErrorMessage(message: string)
    | EntryList(entries: seq<JournalEntry>)
    | NoEntries(studentName: string)
    | SelectPrompt

  function DisplayOf(s: JournalsState): (d: Display)
    ensures s.loading ==> d == LoadingEntries
    ensures !s.loading && s.error != "" ==> d == ErrorMessage(s.error)
    ensures !s.loading && s.error == "" && s.selected.Some? ==>
      d == (if |s.journalEntries| > 0 then EntryList(s.journalEntries) else NoEntries(s.selected.value.name))
    ensures !s.loading && s.error == "" && s.selected.None? ==> d == SelectPrompt
  {
    if s.loading then LoadingEntries
    else if s.error != "" then ErrorMessage(s.error)
    else if s.selected.Some? then
      (if |s.journalEntries| > 0 then EntryList(s.journalEntries) else NoEntries(s.selected.value.name))
    else SelectPrompt
  }

  /** A refused read and an empty journal look different: selecting a
      student from a settled panel and getting `[]` shows "no entries",
      getting a refusal shows the permission message. */
  lemma EmptyAndRefusedDiffer(s: JournalsState, id: string, err: string)
    requires FindStudent(s.students, id).Some? && FindStudent(s.students, id) != s.selected
    requires s.error == ""
    ensures DisplayOf(JournalSettled(HandleSelectStudent(s, id), Success([])))
            == NoEntries(FindStudent(s.students, id).value.name)
    ensures DisplayOf(JournalSettled(HandleSelectStudent(s, id), Failure(err))) == ErrorMessage(PermissionError)
  {
  }

  /** Selecting an id no student has leaves nothing selected and shows the
      prompt once nothing is loading. */
  lemma UnknownIdShowsPrompt(s: JournalsState, id: string)
    requires forall i :: 0 <= i < |s.students| ==> s.students[i].id != id
    requires !s.loading && s.error == ""
    ensures HandleSelectStudent(s, id).selected.None?
    ensures DisplayOf(HandleSelectStudent(s, id)) == SelectPrompt
  {
  }
}
