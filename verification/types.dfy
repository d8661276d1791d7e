/** The Lumyn record types (types.ts).  Dates are integer milliseconds
    since the epoch. */
module Types {
  import opened Wrappers

  /** `Role`: exactly two values. */
  datatype Role = Student | Counsellor

  /** `AppointmentStatus`: exactly four values. */
  datatype AppointmentStatus = Pending | Confirmed | Rejected | Completed

  /** `Message.status`. */
  datatype MessageStatus = Sent | Delivered | Read

  /** The three reminder choices of an appointment. */
  datatype Reminder = FifteenMinutes | OneHour | OneDay

  /** `reminder?: '15 minutes' | '1 hour' | '1 day' | null`: the field may be
      missing, `null`, or one of the three values. */
  datatype ReminderField = Absent | Null | Remind(reminder: Reminder) {
    /** JavaScript truthiness of the field. */
    predicate IsSet() { Remind? }
  }

  datatype Feedback = Feedback(rating: int, comment: string)

  /** `User`: the role may be unset (`null`) until onboarding. */
  datatype User = User(id: string, name: string, email: string, role: Option<Role>, avatarUrl: string)

  datatype Appointment = Appointment(
    id: string, studentId: string, studentName: string,
    counsellorId: string, counsellorName: string,
    dateTime: int, status: AppointmentStatus, notes: string,
    reminder: ReminderField, feedback: Option<Feedback>)

  datatype JournalEntry = JournalEntry(id: string, studentId: string, title: string, content: string, createdAt: int)

  datatype Message = Message(id: string, senderId: string, receiverId: string, text: string, timestamp: int, status: MessageStatus)

  /** A conversation: an id, exactly two participants and an ordered message list. */
  datatype Conversation = Conversation(id: string, participant1: User, participant2: User, messages: seq<Message>)

  // String values of the enumerations, as stored in the backing tables.

  function RoleName(r: Role): string {
    match r
    case Student => "student"
    case Counsellor => "counsellor"
  }

  function ParseRole(s: string): (r: Option<Role>)
    ensures r.Some? ==> RoleName(r.value) == s
    ensures forall x: Role :: RoleName(x) == s ==> r == Some(x)
  {
    if s == "student" then Some(Student)
    else if s == "counsellor" then Some(Counsellor)
    else None
  }

  function StatusName(st: AppointmentStatus): string {
    match st
    case Pending => "Pending"
    case Confirmed => "Confirmed"
    case Rejected => "Rejected"
    case Completed => "Completed"
  }

  function ParseStatus(s: string): (r: Option<AppointmentStatus>)
    ensures r.Some? ==> StatusName(r.value) == s
    ensures forall x: AppointmentStatus :: StatusName(x) == s ==> r == Some(x)
  {
    if s == "Pending" then Some(Pending)
    else if s == "Confirmed" then Some(Confirmed)
    else if s == "Rejected" then Some(Rejected)
    else if s == "Completed" then Some(Completed)
    else None
  }

  function MessageStatusName(st: MessageStatus): string {
    match st
    case Sent => "sent"
    case Delivered => "delivered"
    case Read => "read"
  }

  function ParseMessageStatus(s: string): (r: Option<MessageStatus>)
    ensures r.Some? ==> MessageStatusName(r.value) == s
    ensures forall x: MessageStatus :: MessageStatusName(x) == s ==> r == Some(x)
  {
    if s == "sent" then Some(Sent)
    else if s == "delivered" then Some(Delivered)
    else if s == "read" then Some(Read)
    else None
  }

  function ReminderName(r: Reminder): string {
    match r
    case FifteenMinutes => "15 minutes"
    case OneHour => "1 hour"
    case OneDay => "1 day"
  }

  function ParseReminder(s: string): (r: Option<Reminder>)
    ensures r.Some? ==> ReminderName(r.value) == s
    ensures forall x: Reminder :: ReminderName(x) == s ==> r == Some(x)
  {
    if s == "15 minutes" then Some(FifteenMinutes)
    else if s == "1 hour" then Some(OneHour)
    else if s == "1 day" then Some(OneDay)
    else None
  }
}
