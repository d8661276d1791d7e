/** components/student/AppointmentSection.tsx: the student's appointment
    list with a status filter, the booking form, the feedback modal and
    what each appointment card shows.  "Now" is a parameter. */
module AppointmentSection {
  import opened Wrappers
  import opened Types

  // ---------------------------------------------------------------------
  // filteredAppointments

  datatype StatusFilter = All | Only(status: AppointmentStatus)

  /** `appointments.filter(app => app.status === status)`. */
  function WithStatus(apps: seq<Appointment>, status: AppointmentStatus): (r: seq<Appointment>)
    ensures |r| <= |apps|
    ensures forall i :: 0 <= i < |r| ==> r[i].status == status
    ensures multiset(r) <= multiset(apps)
  {
    if |apps| == 0 then []
    else
      assert apps == [apps[0]] + apps[1..];
      (if apps[0].status == status then [apps[0]] else []) + WithStatus(apps[1..], status)
  }

  /** Every appointment with the status is kept. */
  lemma {:induction false} WithStatusComplete(apps: seq<Appointment>, status: AppointmentStatus, i: int)
    requires 0 <= i < |apps| && apps[i].status == status
    ensures apps[i] in WithStatus(apps, status)
  {
    if i > 0 {
      WithStatusComplete(apps[1..], status, i - 1);
    }
  }

  /** Filtering commutes with concatenation, so kept appointments stay in
      their original relative order. */
  lemma {:induction false} WithStatusAppend(a: seq<Appointment>, b: seq<Appointment>, status: AppointmentStatus)
    ensures WithStatus(a + b, status) == WithStatus(a, status) + WithStatus(b, status)
  {
    if |a| == 0 {
      assert a + b == b;
    } else {
      assert (a + b)[1..] == a[1..] + b;
      WithStatusAppend(a[1..], b, status);
    }
  }

  /** 'All' shows the list as fetched; a status shows exactly the
      appointments with that status. */
  function FilteredAppointments(apps: seq<Appointment>, filter: StatusFilter): (r: seq<Appointment>)
    ensures filter.All? ==> r == apps
    ensures filter.Only? ==> forall i :: 0 <= i < |r| ==> r[i].status == filter.status
    ensures filter.Only? ==> multiset(r) <= multiset(apps)
  {
    match filter
    case All => apps
    case Only(st) => WithStatus(apps, st)
  }

  /** The four status filters partition the list. */
  lemma {:induction false} FiltersPartition(apps: seq<Appointment>)
    ensures |WithStatus(apps, Pending)| + |WithStatus(apps, Confirmed)|
            + |WithStatus(apps, Rejected)| + |WithStatus(apps, Completed)| == |apps|
  {
    if |apps| > 0 {
      FiltersPartition(apps[1..]);
    }
  }

  // ---------------------------------------------------------------------
  // The booking form

  datatype BookingForm = BookingForm(isBooking: bool, selectedCounsellor: string, selectedDate: string, selectedReminder: Option<Reminder>)

  datatype BookRequest = BookRequest(studentId: string, counsellorId: string, date: string, reminder: Option<Reminder>)

  /** What `handleBooking` did: the form afterwards, the booking it asked
      for, and whether it re-fetched the list. */
  datatype BookingOutcome = BookingOutcome(form: BookingForm, request: Option<BookRequest>, refetched: bool)

  /** `handleBooking`.  Without a counsellor or a date nothing happens.
      Otherwise the booking is sent; when the store rejects it (`accepted`
      false) the handler stops there.  On success the list is re-fetched,
      the form closes, and counsellor, date and reminder are reset. */
  function HandleBooking(studentId: string, f: BookingForm, accepted: bool): (out: BookingOutcome)
    ensures out.request.None? <==> f.selectedCounsellor == "" || f.selectedDate == ""
    ensures out.request.Some? ==>
      out.request.value == BookRequest(studentId, f.selectedCounsellor, f.selectedDate, f.selectedReminder)
    ensures out.refetched <==> out.request.Some? && accepted
    ensures !out.refetched ==> out.form == f
    ensures out.refetched ==> out.form == BookingForm(false, "", "", None)
  {
    if f.selectedCounsellor == "" || f.selectedDate == "" then BookingOutcome(f, None, false)
    else
      var req := BookRequest(studentId, f.selectedCounsellor, f.selectedDate, f.selectedReminder);
      if !accepted then BookingOutcome(f, Some(req), false)
      else BookingOutcome(BookingForm(false, "", "", None), Some(req), true)
  }

  /** A successful booking leaves a form that would refuse to book again
      until a counsellor and a date are chosen anew. */
  lemma BookingResetBlocksResubmit(studentId: string, f: BookingForm, accepted: bool, again: bool)
    requires HandleBooking(studentId, f, accepted).refetched
    ensures HandleBooking(studentId, HandleBooking(studentId, f, accepted).form, again).request.None?
  {
  }

  // ---------------------------------------------------------------------
  // The feedback modal

  datatype FeedbackForm = FeedbackForm(rating: int, comment: string, isSubmitting: bool)

  const InitialFeedbackForm := FeedbackForm(0, "", false)

  /** The star buttons, left to right. */
  const Stars: seq<int> := [1, 2, 3, 4, 5]

  /** Clicking star button `k` (0-based) sets the rating to its number. */
  function SelectStar(f: FeedbackForm, k: int): (r: FeedbackForm)
    requires 0 <= k < |Stars|
    ensures 1 <= r.rating <= 5 && r.rating == k + 1
    ensures r.comment == f.comment && r.isSubmitting == f.isSubmitting
  {
    f.(rating := Stars[k])
  }

  datatype FeedbackRequest = FeedbackRequest(appointmentId: string, rating: int, comment: string)

  datatype FeedbackOutcome =
    | Alerted(form: FeedbackForm)
    | Submitted(request: FeedbackRequest)
    | Stuck(form: FeedbackForm, request: FeedbackRequest)

  /** `handleSubmit`.  A zero rating raises the "Please select a rating."
      alert and submits nothing.  Otherwise the feedback is sent; on success
      the modal closes (`onSubmit`).  When the store rejects it the awaited
      call throws after `isSubmitting` was set, so the form stays in the
      submitting state. */
  function SubmitFeedback(appointmentId: string, f: FeedbackForm, accepted: bool): (out: FeedbackOutcome)
    ensures out.Alerted? <==> f.rating == 0
    ensures out.Alerted? ==> out.form == f
    ensures !out.Alerted? ==> out.request == FeedbackRequest(appointmentId, f.rating, f.comment)
    ensures out.Submitted? <==> f.rating != 0 && accepted
    ensures out.Stuck? ==> out.form == f.(isSubmitting := true)
  {
    if f.rating == 0 then Alerted(f)
    else
      var req := FeedbackRequest(appointmentId, f.rating, f.comment);
      if accepted then Submitted(req) else Stuck(f.(isSubmitting := true), req)
  }

  /** Any submitted rating was picked with a star: from a fresh form, a
      rating reaches the store only after some star was clicked. */
  lemma SubmittedRatingsAreStars(appointmentId: string, k: int, accepted: bool)
    requires 0 <= k < |Stars|
    ensures var out := SubmitFeedback(appointmentId, SelectStar(InitialFeedbackForm, k), accepted);
      !out.Alerted? && 1 <= out.request.rating <= 5
    ensures SubmitFeedback(appointmentId, InitialFeedbackForm, accepted).Alerted?
  {
  }

  // ---------------------------------------------------------------------
  // The appointment card

  /** `[...Array(rating)]` and `[...Array(5 - rating)]`: the filled and
      empty stars, or `None` when either length is negative, where
      `Array(n)` throws a RangeError and the card fails to render. */
  function StarCounts(rating: int): (r: Option<(nat, nat)>)
    ensures r.Some? <==> 0 <= rating <= 5
    ensures r.Some? ==> r.value.0 == rating && r.value.0 + r.value.1 == 5
  {
    if 0 <= rating <= 5 then Some((rating, 5 - rating)) else None
  }

  /** The feedback area of a card. */
  datatype FeedbackArea = NoArea | FeedbackButton | ShownFeedback(stars: Option<(nat, nat)>, comment: string)

  datatype CardView = CardView(reminderBadge: Option<Reminder>, feedback: FeedbackArea)

  /** `new Date() > appointment.dateTime`. */
  predicate IsPast(a: Appointment, now: int) {
    now > a.dateTime
  }

  /** What a card shows: a reminder badge for a set reminder on a confirmed
      appointment that is not yet past; for a completed appointment, its
      feedback as stars if there is feedback, else a "Provide Feedback"
      button; nothing more for other statuses. */
  function Card(a: Appointment, now: int): (v: CardView)
    ensures v.reminderBadge.Some? <==> a.reminder.IsSet() && a.status == Confirmed && !IsPast(a, now)
    ensures v.reminderBadge.Some? ==> a.reminder == Remind(v.reminderBadge.value)
    ensures v.feedback.NoArea? <==> a.status != Completed
    ensures v.feedback.FeedbackButton? <==> a.status == Completed && a.feedback.None?
    ensures v.feedback.ShownFeedback? ==>
      a.feedback.Some? && v.feedback.stars == StarCounts(a.feedback.value.rating)
      && v.feedback.comment == a.feedback.value.comment
  {
    var badge := if a.reminder.IsSet() && a.status == Confirmed && !IsPast(a, now) then Some(a.reminder.reminder) else None;
    var area :=
      if a.status != Completed then NoArea
      else match a.feedback
        case None => FeedbackButton
        case Some(fb) => ShownFeedback(StarCounts(fb.rating), fb.comment);
    CardView(badge, area)
  }

  /** A badge and a feedback area never appear together: one needs a
      confirmed appointment, the other a completed one. */
  lemma BadgeAndFeedbackExclusive(a: Appointment, now: int)
    ensures !(Card(a, now).reminderBadge.Some? && !Card(a, now).feedback.NoArea?)
  {
  }

  /** Feedback submitted through the modal always renders five stars. */
  lemma SubmittedFeedbackRenders(a: Appointment, now: int, k: int, comment: string)
    requires a.status == Completed && 0 <= k < |Stars|
    ensures var f := SelectStar(InitialFeedbackForm.(comment := comment), k);
      var v := Card(a.(feedback := Some(Feedback(f.rating, f.comment))), now);
      v.feedback.ShownFeedback? && v.feedback.stars.Some?
      && v.feedback.stars.value.0 + v.feedback.stars.value.1 == 5
  {
  }
}
