/** pages/StudentDashboard.tsx: the MindEase student's dashboard over the
    fixture appointments and journals.  The clock (`Date.now()`) and the
    locale date formatter are parameters. */
module StudentDashboard {
  import opened Wrappers
  import opened Seqs
  import opened Text
  import opened MindEase

  // ---------------------------------------------------------------------
  // Initial state: `filter(x => x.studentId === user?.id)`.  Without a
  // signed-in user `user?.id` is `undefined`, which equals no id string.

  function OwnedBy(userId: Option<string>, studentId: string): bool {
    userId == Some(studentId)
  }

  function InitialAppointments(all: seq<MindAppointment>, user: Option<MindUser>): (r: seq<MindAppointment>)
    ensures forall i :: 0 <= i < |r| ==> r[i] in all && user.Some? && r[i].studentId == user.value.id
    ensures user.Some? ==> forall i :: 0 <= i < |all| && all[i].studentId == user.value.id ==> all[i] in r
    ensures user.None? ==> r == []
  {
    var userId := if user.Some? then Some(user.value.id) else None;
    var owned := (a: MindAppointment) => OwnedBy(userId, a.studentId);
    if user.None? then FilterKeepsNone(all, owned); Filter(all, owned)
    else Filter(all, owned)
  }

  function InitialJournals(all: seq<MindJournal>, user: Option<MindUser>): (r: seq<MindJournal>)
    ensures forall i :: 0 <= i < |r| ==> r[i] in all && user.Some? && r[i].studentId == user.value.id
    ensures user.Some? ==> forall i :: 0 <= i < |all| && all[i].studentId == user.value.id ==> all[i] in r
    ensures user.None? ==> r == []
  {
    var userId := if user.Some? then Some(user.value.id) else None;
    var owned := (j: MindJournal) => OwnedBy(userId, j.studentId);
    if user.None? then FilterKeepsNone(all, owned); Filter(all, owned)
    else Filter(all, owned)
  }

  // ---------------------------------------------------------------------
  // Booking

  /** The object the booking modal submits: the chosen counselor, the date
      and the notes, with the time always '10:00 AM'. */
  datatype BookingData = BookingData(counselorId: string, date: int, time: string, notes: Option<string>)

  const BookingTime := "10:00 AM"

  function SubmitBooking(counselorId: string, date: int, notes: Option<string>): (d: BookingData)
    ensures d.time == "10:00 AM"
    ensures d.counselorId == counselorId && d.date == date && d.notes == notes
  {
    BookingData(counselorId, date, BookingTime, notes)
  }

  /** `handleNewAppointment`: a Pending appointment with id `appt-<now>` and
      the user's id is appended.  Without a user, `user!.id` throws and the
      list is left as it was (`None`). */
  function NewAppointment(appts: seq<MindAppointment>, user: Option<MindUser>, data: BookingData, now: nat): (r: Option<seq<MindAppointment>>)
    ensures r.None? <==> user.None?
    ensures r.Some? ==> |r.value| == |appts| + 1 && r.value[..|appts|] == appts
    ensures r.Some? ==> var a := r.value[|appts|];
      && a.status == Pending && a.studentId == user.value.id
      && a.id == "appt-" + Decimal(now)
      && a.counselorId == data.counselorId && a.date == data.date
      && a.time == data.time && a.notes == data.notes
  {
    match user
    case None => None
    case Some(u) =>
      var a := MindAppointment("appt-" + Decimal(now), u.id, data.counselorId, data.date, data.time, Pending, data.notes);
      var r := appts + [a];
      assert r[..|appts|] == appts;
      Some(r)
  }

  // ---------------------------------------------------------------------
  // Dashboard counters and list order

  function IsPending(a: MindAppointment): bool {
    a.status == Pending
  }

  /** `appointments.filter(a => a.status === Pending).length`. */
  function PendingCount(appts: seq<MindAppointment>): (n: nat)
    ensures n <= |appts|
    ensures n == |Filter(appts, IsPending)|
  {
    Count(appts, IsPending)
  }

  /** The count of no appointments is 0, and one appointment counts
      exactly when it is Pending. */
  lemma PendingCountSingle(a: MindAppointment)
    ensures PendingCount([]) == 0
    ensures PendingCount([a]) == (if a.status == Pending then 1 else 0)
  {
    assert [a][1..] == [];
  }

  lemma {:induction false} PendingCountAppend(a: seq<MindAppointment>, b: seq<MindAppointment>)
    ensures PendingCount(a + b) == PendingCount(a) + PendingCount(b)
  {
    FilterAppend(a, b, IsPending);
  }

  /** Booking raises the pending count by exactly one and leaves every
      earlier appointment in place. */
  lemma BookingAddsOnePending(appts: seq<MindAppointment>, user: MindUser, data: BookingData, now: nat)
    ensures var r := NewAppointment(appts, Some(user), data, now);
      r.Some? && PendingCount(r.value) == PendingCount(appts) + 1
  {
    var r := NewAppointment(appts, Some(user), data, now).value;
    assert r == appts + [r[|appts|]];
    PendingCountAppend(appts, [r[|appts|]]);
    assert Filter([r[|appts|]], IsPending) == [r[|appts|]];
  }

  /** The booked appointment belongs to the booking student, so it is among
      that student's appointments on the next mount. */
  lemma BookedAppointmentIsOwned(appts: seq<MindAppointment>, user: MindUser, data: BookingData, now: nat)
    ensures var r := NewAppointment(appts, Some(user), data, now);
      r.Some? && r.value[|appts|] in InitialAppointments(r.value, Some(user))
  {
  }

  function Time(a: MindAppointment): int {
    a.date
  }

  function NegTime(a: MindAppointment): int {
    -a.date
  }

  /** `appointments.sort((a, b) => date(b) - date(a))`: latest first, the
      same appointments, equal dates in list order. */
  function LatestFirst(appts: seq<MindAppointment>): (r: seq<MindAppointment>)
    ensures multiset(r) == multiset(appts)
    ensures forall i, j :: 0 <= i <= j < |r| ==> r[i].date >= r[j].date
  {
    var r := SortByKey(appts, NegTime);
    forall i, j | 0 <= i <= j < |r|
      ensures r[i].date >= r[j].date
    {
      SortedByPairwise(r, NegTime, i, j);
    }
    r
  }

  /** Appointments on the same date keep their list order: for each key
      value `k` (a negated date) the appointments with that key appear in
      the same order before and after. */
  lemma LatestFirstStable(appts: seq<MindAppointment>, k: int)
    ensures WithKey(LatestFirst(appts), NegTime, k) == WithKey(appts, NegTime, k)
  {
    SortIsStable(appts, NegTime, k);
  }

  // ---------------------------------------------------------------------
  // Journal search

  /** An entry matches when its lowercased title, content or formatted date
      contains the lowercased search text. */
  predicate JournalMatches(e: MindJournal, term: string, formatDate: int -> string) {
    || ContainsIgnoringCase(e.title, term)
    || ContainsIgnoringCase(e.content, term)
    || ContainsIgnoringCase(formatDate(e.date), term)
  }

  function SearchJournals(entries: seq<MindJournal>, term: string, formatDate: int -> string): (r: seq<MindJournal>)
    ensures forall i :: 0 <= i < |r| ==> r[i] in entries && JournalMatches(r[i], term, formatDate)
    ensures forall i :: 0 <= i < |entries| && JournalMatches(entries[i], term, formatDate) ==> entries[i] in r
  {
    Filter(entries, (e: MindJournal) => JournalMatches(e, term, formatDate))
  }

  /** An empty search shows every entry, in order. */
  lemma EmptySearchShowsAll(entries: seq<MindJournal>, formatDate: int -> string)
    ensures SearchJournals(entries, "", formatDate) == entries
  {
    forall i | 0 <= i < |entries|
      ensures JournalMatches(entries[i], "", formatDate)
    {
      EmptyNeedle(Lower(entries[i].title));
    }
    FilterKeepsAll(entries, (e: MindJournal) => JournalMatches(e, "", formatDate));
  }

  // ---------------------------------------------------------------------
  // renderView

  datatype StudentScreen = DashboardScreen | JournalScreen | AppointmentsScreen

  /** The switch on `currentView`, with `default` falling to the dashboard. */
  function RenderView(view: string): (s: StudentScreen)
    ensures s == JournalScreen <==> view == "journal"
    ensures s == AppointmentsScreen <==> view == "appointments"
    ensures s == DashboardScreen <==> view != "journal" && view != "appointments"
  {
    if view == "journal" then JournalScreen
    else if view == "appointments" then AppointmentsScreen
    else DashboardScreen
  }
}
