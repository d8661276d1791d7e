# LumynAI / MindEase in Dafny

A model of the client-side logic of a student mental-health web app. The app
exists in two generations, and each generation is modelled separately.

- **Lumyn** runs on a Supabase back end. It has students and counsellors,
  appointments with reminders and feedback, a private journal, a counsellor
  calendar, and one-to-one chat with live updates. The records are in
  `types.ts`. The data access layer is `services/api.ts`. The pages are under
  `components/` and `pages/`. Its route guard is
  `components/shared/ProtectedRoute.tsx`.
- **MindEase** runs on fixture data (`data/mockData.ts`). Sign-in is a mock
  that works by email lookup and is kept in local storage
  (`contexts/AuthContext.tsx`). It has a student dashboard, a counselor
  dashboard, an AI chat page, the sign-in page `pages/AuthPage.tsx`, and its
  own route guard, `components/ProtectedRoute.tsx`.

How the model is built:

- **Dates** are integer milliseconds since the epoch. Day, month and weekday
  arithmetic follows section 21.4.1 of ECMA-262 (`Calendar`). Local time is a
  fixed offset in milliseconds.
- **The Supabase store** is a pair of tables (`users`, `messages`) plus a
  record of which queries fail (`Api.Faults`). `getConversations` is
  modelled end to end, from the fetch to the sorted buckets. A query that
  fails ends the call with the matching `Failure`.
- **Handlers and effects** of each React component are functions from the
  old state to the new one. A `Result` or an `Option` parameter carries
  whatever an awaited call returned. The clock, the locale formatter and the
  AI reply are also parameters.
- **`Array.prototype.sort`** is stable, so every sort is a stable insertion
  sort by an integer key (`Seqs.SortByKey`). A descending sort is the
  ascending sort on the negated key.
- **Awaited handlers** take two states: the one the handler captured when it
  started, and the one current when the awaited call resolves. The code builds
  parts of its update from the captured values.

Modules:

| Module | Contents |
|---|---|
| `Wrappers`, `Seqs`, `Text` | Shared helpers: Option/Result, filter/find/stable sort, and ASCII case mapping, substring search, JS trim, capitalisation, decimals. |
| `Types` | The Lumyn records and their string enumerations. |
| `Api` | The Lumyn data layer. |
| `Chat`, `ChatPage` | The two chats. |
| `AppointmentSection`, `JournalSection` | The student pages. |
| `AppointmentRequests`, `CalendarView`, `StudentProfilesView`, `StudentJournalsView` | The counsellor pages. |
| `MindEase` | The MindEase records and fixtures. |
| `MockAuth`, `AuthPage`, `StudentDashboard`, `CounselorDashboard` | The MindEase pages. |
| `Routing`, `SharedProtectedRoute`, `UserProtectedRoute`, `CompleteProfile` | Routing. |

## Model

| member | source | states |
|---|---|---|
| Types.ParseRole | types.ts:2-5 | Parsing a role string succeeds exactly on 'student' and 'counsellor' and gives back the role whose value is that string. |
| Types.ParseStatus | types.ts:7-12 | Parsing a status succeeds exactly on the four status values. It inverts the status name. |
| Types.ParseMessageStatus | types.ts:52 | Parsing a message status succeeds exactly on 'sent', 'delivered' and 'read'. It inverts the name. |
| Types.ParseReminder | types.ts:31 | Parsing a reminder succeeds exactly on the three reminder strings. It inverts the name. |
| Api.MapDbUser | services/api.ts:5-11 | Mapping a user row loses nothing: the row can be rebuilt from the mapped user. |
| Api.UserMappingRoundTrip | services/api.ts:5-11 | Mapping the row of any user gives back that user. |
| Api.MapDbMessage | services/api.ts:34-41 | Mapping a message row loses nothing: the row can be rebuilt from the mapped message. |
| Api.MessageMappingRoundTrip | services/api.ts:34-41 | Mapping the row of any message gives back that message. |
| Api.MapMessages | services/api.ts:199 | Mapping a list of rows keeps their number and order, and each mapped message rebuilds its row. |
| Api.MapMessagesAppend | services/api.ts:199 | Mapping distributes over concatenation. This is what lets pushes one at a time build the bucket. |
| Api.GetUsers | services/api.ts:55-63 | getUsers fails exactly when the query fails. Without a role it maps every row in order. With a role it returns exactly the rows of that role, mapped. |
| Api.RowsWithRole | services/api.ts:57-59 | The role filter keeps every row of that role and no other row. |
| Api.Counterparty | services/api.ts:168-170 | The other user of a message: the receiver if the user sent it, otherwise the sender. Together with the user it is the message's pair of endpoints. |
| Api.FetchMessages | services/api.ts:158-161 | The messages query returns only messages the user sent or received. |
| Api.FetchComplete | services/api.ts:158-161 | Every message the user sent or received is fetched. |
| Api.FetchNone | services/api.ts:158-161 | When no message involves the user, the fetch is empty. |
| Api.CounterpartyIds | services/api.ts:166-171 | The set holds the counterparty of every fetched message, and it is empty exactly when no message was fetched. |
| Api.ResolveUsers | services/api.ts:175-178 | The `.in('id', ...)` query returns users-table rows whose ids are exactly the requested ids that exist in the table. |
| Api.Profile | services/api.ts:182 | The `.single()` profile lookup returns a row exactly when the query succeeds and exactly one users-table row has the id; the row returned has that id. |
| Api.RowsWithId | services/api.ts:182 | The `.eq('id', …)` selection holds only rows with the id, taken from the table, and every such row; with no such row it is empty. |
| Api.RowsWithIdSingle | services/api.ts:182 | When only one row has the id, the selection is that row. |
| Api.RowsWithIdTwo | services/api.ts:182 | When two rows have the id, the selection has at least two. |
| Api.ProfileFoundWhenUnique | services/api.ts:182 | With unique ids and a successful query, a user who has a row gets that row as the profile. |
| Api.ProfileMissingWhenDuplicated | services/api.ts:182 | A user with two rows gets no profile. |
| Api.MapSet | services/api.ts:185-193 | Setting a key in the conversations Map keeps the keys distinct and adds exactly the new key. Each entry is the new one or an old one. |
| Api.IndexById | services/api.ts:185-193 | Inserting the resolved rows into the Map gives one entry per distinct id, and each entry is a resolved row. |
| Api.Exchanged | services/api.ts:195-201 | A bucket receives only messages whose counterparty is the bucket's user. |
| Api.ExchangedAppend | services/api.ts:195-201 | Bucketing distributes over concatenation of the message list. |
| Api.FillBuckets | services/api.ts:195-201 | The push loop leaves exactly the Map's keys, and each bucket holds that counterparty's messages in fetch order. |
| Api.PushKeepsFilled | services/api.ts:196-200 | One loop step keeps every bucket equal to its counterparty's messages so far. |
| Api.PushStep | services/api.ts:196-200 | One more message grows only its counterparty's bucket, by that message. |
| Api.Build | services/api.ts:185-206 | One conversation per Map entry, in insertion order, each keyed and filled from that entry. |
| Api.Entries | services/api.ts:175-193 | The Map's keys are distinct and are exactly the counterparties that exist in the users table. |
| Api.GetConversations | services/api.ts:157-207 | The call fails exactly when the messages query fails, or when the users query fails after some message was fetched. Any non-empty success is built from the user's profile and the Map entries. |
| Api.NoMessagesNoLookup | services/api.ts:173 | With no message involving the user, the result is empty whatever the users table holds and whichever later query would fail. |
| Api.MissingProfileEmpty | services/api.ts:182-183 | Without the user's own profile row, the result is empty. |
| Api.ConversationsShape | services/api.ts:185-193 | Every conversation has id `userId-otherId` and the user as participant 1. Its participant 2 is a counterparty with a users row. No two conversations share a participant 2. |
| Api.ResolvedCounterpartyHasConversation | services/api.ts:185-193 | Every counterparty that has a users row and a profile gets a conversation. |
| Api.ConversationWithEveryResolvedCounterparty | services/api.ts:157-193 | With no failing query and unique ids, a user who has a row gets a conversation with every counterparty that has one. |
| Api.ConversationMessages | services/api.ts:195-206 | Each conversation holds exactly the messages exchanged with its participant 2, sorted by timestamp. Messages with equal timestamps keep fetch order. |
| Api.BuildTotal | services/api.ts:195-201 | Over distinct keys, the buckets hold in total exactly the messages whose counterparty is a key. |
| Api.MessageCountConserved | services/api.ts:195-201 | The conversations hold in total exactly the fetched messages whose counterparty has a users row. No message is lost or counted twice. |
| Api.SendMessage | services/api.ts:209-218 | sendMessage returns the mapped inserted row (sender, receiver, text, the store's id), or fails exactly when the insert is rejected. |
| Chat.OtherUserRole | components/shared/Chat.tsx:18 | The chat lists counsellors exactly for a student. For a user with a role, it lists the role the user does not have. |
| Chat.ConversationIdInjective | components/shared/Chat.tsx:76 | Two conversation ids of the same user are equal exactly when the counterparts are equal. |
| Chat.FindByPartner | components/shared/Chat.tsx:71 | `find` returns the first conversation with that counterpart, and returns nothing exactly when there is none. |
| Chat.Mount | components/shared/Chat.tsx:18-23 | Mounting opens nothing and clears the input. Every listed user has the other role, and when the users query succeeds every stored user of that role is listed; when it fails the list is empty. The conversation list is what `getConversations` returns, or empty when that fails. |
| Chat.MountWellFormed | components/shared/Chat.tsx:20-23 | The fetched conversations are keyed and have distinct counterparts. |
| Chat.SelectConversation | components/shared/Chat.tsx:70-83 | Selecting opens the existing conversation with that user, or else a fresh empty one keyed `me-other`. Nothing else changes. |
| Chat.SelectPreservesWellFormed | components/shared/Chat.tsx:70-83 | Selecting keeps the state well formed. |
| Chat.Upsert | components/shared/Chat.tsx:98-104 | The list update replaces the conversation with the same id in place, or appends it when there is none. |
| Chat.ReplaceById | components/shared/Chat.tsx:101 | The `map` replaces exactly the conversations with that id. |
| Chat.HandleSendMessage | components/shared/Chat.tsx:85-107 | A blank input or no open conversation sends nothing. Otherwise the text goes to the open counterpart. A rejected insert leaves the state as it is when the call resolves. An accepted one reopens the conversation captured at submit time with the sent message appended, upserts that conversation into the list as it is when the call resolves, and clears the input. |
| Chat.UpsertKeepsDistinct | components/shared/Chat.tsx:98-104 | Upserting a keyed conversation keeps counterparts distinct. |
| Chat.SendPreservesWellFormed | components/shared/Chat.tsx:85-107 | Sending keeps the state well formed, whatever happened during the await, provided that state is well formed too. |
| Chat.SendUpsertsSelected | components/shared/Chat.tsx:89-104 | After a send, the list's conversation with the open counterpart is the open conversation. |
| Chat.LiveMessageLostDuringSend | components/shared/Chat.tsx:47-104 | A message from the open counterpart that arrives while the insert is awaited is shown, and then lost from both the pane and its list entry once the send completes. |
| Chat.SentDropsLater | components/shared/Chat.tsx:89-95 | After an accepted send the pane holds the captured messages plus the sent one, so any other message is absent. |
| Chat.UpsertFindsUpdated | components/shared/Chat.tsx:98-104 | After an upsert, `find` by counterpart returns the upserted conversation. |
| Chat.AppendToList | components/shared/Chat.tsx:54-59 | The live update appends the message to every conversation between its sender and receiver, and leaves the others. |
| Chat.ApplyLiveEvent | components/shared/Chat.tsx:29-59 | With nothing open, or a message for someone else, nothing changes. Otherwise the open conversation gains the message exactly when its counterpart sent it, and is unchanged otherwise. Every listed conversation between sender and receiver gains the message at its end, and the rest keep their messages. Ids and participants stay. |
| Chat.LiveEventPreservesWellFormed | components/shared/Chat.tsx:47-59 | A live event keeps the state well formed. |
| Chat.LiveEventRedelivered | components/shared/Chat.tsx:54-59 | Each delivery appends again, so a redelivered row appears twice: there is no deduplication. |
| Chat.LiveEventCreatesNothing | components/shared/Chat.tsx:54-59 | A message from a user with no conversation creates none. |
| Chat.Preview | components/shared/Chat.tsx:129-130 | A preview exists exactly when the user has a conversation with messages, and it is one of them. |
| Chat.SendThenPreview | components/shared/Chat.tsx:70-130 | Opening a user, typing and sending makes the preview next to that user show exactly the sent message. The state stays well formed. |
| ChatPage.Initial | pages/ChatPage.tsx:38-42 | The page opens with the AI greeting (id '1') alone, an empty input and no pending reply. |
| ChatPage.SeenEffect | pages/ChatPage.tsx:53-58 | Once the last of several messages is the AI's, every user message becomes seen and AI messages are untouched. Otherwise nothing changes. |
| ChatPage.SeqMarkSeen | pages/ChatPage.tsx:56 | The `map` marks each user message seen and nothing else. |
| ChatPage.SeenEffectIdempotent | pages/ChatPage.tsx:53-58 | Marking a second time yields the same list value as marking once. |
| ChatPage.SeenEffectKeepsTrigger | pages/ChatPage.tsx:53-58 | After the effect's update the last message is still the AI's, so the trigger still holds. |
| ChatPage.EffectNeverSettles | pages/ChatPage.tsx:53-58 | Once the AI has replied, each of any number of consecutive runs calls the setter again: as written the effect never settles. |
| ChatPage.SeenEffectCorrected | pages/ChatPage.tsx:53-58 | With the guard that some user message is unseen, one update leaves no user message unseen. |
| ChatPage.SeenEffectCorrectedSameList | pages/ChatPage.tsx:53-58 | The corrected guard changes no list value, only whether the setter is called. |
| ChatPage.EffectSettlesCorrected | pages/ChatPage.tsx:53-58 | With the corrected guard the setter is called at most once, however often the effect runs. |
| ChatPage.BeginSend | pages/ChatPage.tsx:61-74 | A blank input or a pending reply is ignored. Otherwise the unseen user message is appended, the input clears and loading starts. |
| ChatPage.FinishSend | pages/ChatPage.tsx:76-86 | The reply is appended as an AI message with id now+1, and loading ends. |
| ChatPage.BlankOrBusyIsIgnored | pages/ChatPage.tsx:62 | Whitespace-only input, or a pending reply, changes nothing. |
| ChatPage.ExchangeMarksMessageSeen | pages/ChatPage.tsx:53-86 | After a full exchange, the user's message is second to last and seen, the reply is last, and loading is clear. |
| Text.TrimEmptyIffBlank | pages/ChatPage.tsx:62 | `trim() === ''` exactly when the text is all whitespace. |
| AppointmentSection.WithStatus | components/student/AppointmentSection.tsx:172 | The status filter keeps only appointments of that status, drawn from the list. |
| AppointmentSection.WithStatusComplete | components/student/AppointmentSection.tsx:172 | Every appointment of that status is kept. |
| AppointmentSection.WithStatusAppend | components/student/AppointmentSection.tsx:172 | The filter distributes over concatenation. |
| AppointmentSection.FilteredAppointments | components/student/AppointmentSection.tsx:168-173 | 'All' shows the list unchanged. A status shows only appointments of that status. |
| AppointmentSection.FiltersPartition | components/student/AppointmentSection.tsx:168-175 | The four status filters split the list: their sizes add up to its length. |
| AppointmentSection.HandleBooking | components/student/AppointmentSection.tsx:146-155 | Booking is ignored without a counsellor or a date. Otherwise the request carries the form's choices. After an accepted booking the form resets. A rejected booking leaves the form as it was. |
| AppointmentSection.BookingResetBlocksResubmit | components/student/AppointmentSection.tsx:148-154 | After a successful booking, submitting again sends nothing. |
| AppointmentSection.SelectStar | components/student/AppointmentSection.tsx:40-41 | Clicking star k sets the rating to k+1, within 1..5. |
| AppointmentSection.SubmitFeedback | components/student/AppointmentSection.tsx:20-30 | A zero rating alerts and sends nothing. Otherwise the rating and comment are sent. An accepted send completes. A rejected one stays submitting. |
| AppointmentSection.SubmittedRatingsAreStars | components/student/AppointmentSection.tsx:20-41 | Only a star click makes a submittable rating, and it lies in 1..5. The initial form alerts. |
| AppointmentSection.StarCounts | components/student/AppointmentSection.tsx:110-111 | The filled and empty stars add up to five exactly when the rating is in 0..5 (otherwise `Array` throws). |
| AppointmentSection.Card | components/student/AppointmentSection.tsx:83-121 | The badge shows exactly for a set reminder on a confirmed appointment that is not yet past. The feedback area shows exactly for a completed one: stars if there is feedback, otherwise the button. |
| AppointmentSection.BadgeAndFeedbackExclusive | components/student/AppointmentSection.tsx:97-104 | No card shows both a reminder badge and a feedback area. |
| AppointmentSection.SubmittedFeedbackRenders | components/student/AppointmentSection.tsx:40-113 | Feedback submitted through the stars renders as five stars on the completed card. |
| AppointmentRequests.Mount | components/counsellor/AppointmentRequests.tsx:12-18 | The list is the Pending appointments of the fetch. A failed fetch leaves it empty. |
| AppointmentRequests.ActionStatus | components/counsellor/AppointmentRequests.tsx:38-44 | Confirm sends Confirmed and Reject sends Rejected. |
| AppointmentRequests.RemoveId | components/counsellor/AppointmentRequests.tsx:22 | The filter drops the handled id and keeps only listed requests. |
| AppointmentRequests.RemoveIdOnce | components/counsellor/AppointmentRequests.tsx:22 | With unique ids, handling a request shortens the list by exactly one. |
| AppointmentRequests.HandleUpdateStatus | components/counsellor/AppointmentRequests.tsx:20-23 | The update is requested. If it succeeds, the list becomes the list captured at the click without that request: every other captured request stays, nothing else is added, and nothing is repeated. If it throws, the list as it is when the call resolves stays. |
| AppointmentRequests.View | components/counsellor/AppointmentRequests.tsx:28-55 | The "no pending" message shows exactly when the list is empty. |
| AppointmentRequests.LastRequestHandled | components/counsellor/AppointmentRequests.tsx:20-55 | Handling the last request shows the "no pending" message. |
| AppointmentRequests.OverlappingUpdatesRestoreFirst | components/counsellor/AppointmentRequests.tsx:20-23 | When two updates overlap, the second to resolve filters the list it captured, so the first handled request reappears while the second is gone. |
| Calendar.DaysInYear | components/counsellor/CalendarView.tsx:23 | A year has 366 days exactly in a Gregorian leap year, and 365 otherwise. |
| Calendar.DayFromYearIsFormula | components/counsellor/CalendarView.tsx:22 | The day number of 1 January, defined by counting year lengths, equals ECMA-262's closed formula. |
| Calendar.YearLength | components/counsellor/CalendarView.tsx:22-23 | Consecutive year starts are one year length apart. |
| Calendar.DaysInMonth | components/counsellor/CalendarView.tsx:23 | A month has 28 to 31 days, and February has 29 exactly in a leap year. |
| Calendar.MonthLength | components/counsellor/CalendarView.tsx:22-23 | Month starts are one month length apart, and December ends the year. |
| Calendar.NormalizeMonth | components/counsellor/CalendarView.tsx:37 | An out-of-range month index carries into the year, as the Date constructor does. |
| Calendar.MonthBoundaries | components/counsellor/CalendarView.tsx:22-23 | Day 1 of the next month follows the last day of this one, and day 0 of the next month is this month's last day. |
| Calendar.CivilDateInjective | components/counsellor/CalendarView.tsx:43-45 | Two valid dates fall on the same day number exactly when they are equal. |
| Calendar.WeekDay | components/counsellor/CalendarView.tsx:25-27 | The weekday is in 0..6, with day 0 (1 January 1970) a Thursday. |
| Calendar.WeekDayShift | components/counsellor/CalendarView.tsx:25-27 | Moving k days ahead moves the weekday k places, modulo 7. |
| Calendar.LocalDayStart | components/counsellor/CalendarView.tsx:43-45 | The instant a local day begins lies in that local day. |
| Calendar.LocalDayRange | components/counsellor/CalendarView.tsx:43-45 | An instant is in a local day exactly when it lies between that day's start and the next day's start. |
| CalendarView.ConfirmedOnly | components/counsellor/CalendarView.tsx:16 | The calendar keeps exactly the confirmed appointments. |
| CalendarView.WeekAlign | components/counsellor/CalendarView.tsx:24-27 | Moving back to Sunday and forward to Saturday gives whole weeks, 4 to 6 of them, covering the month. |
| CalendarView.MonthSpan | components/counsellor/CalendarView.tsx:22-23 | The last day of the month (day 0 of the next) is the first day plus the month length minus one, for the year the Date constructor reads (years 0 to 99 read as 1900 to 1999). |
| CalendarView.GridAligned | components/counsellor/CalendarView.tsx:22-27 | The grid starts on a Sunday within a week before the 1st, and ends on a Saturday within a week after the month's end. |
| CalendarView.DayRange | components/counsellor/CalendarView.tsx:29-34 | The loop yields every day from the start to the end, once each, in order. |
| CalendarView.WeekGrid | components/counsellor/CalendarView.tsx:24-34 | The day loop over the week-aligned range gives 28 to 42 consecutive days, Sunday to Saturday. |
| CalendarView.CalendarGrid | components/counsellor/CalendarView.tsx:22-34 | The month's grid is whole weeks from a Sunday to a Saturday and contains every day of the month, where a year from 0 to 99 is read as 1900 to 1999, as `new Date(y, m, d)` does. |
| CalendarView.TwoDigitYearGrid | components/counsellor/CalendarView.tsx:22-23 | A shown month in years 0 to 99 gets the grid of the same month 1900 years later. |
| CalendarView.MonthInGrid | components/counsellor/CalendarView.tsx:22-34 | A run of consecutive days from on or before the 1st to on or after the last day holds every day of the month. |
| CalendarView.GridCell | components/counsellor/CalendarView.tsx:24-34 | Day d of the month sits in cell weekday(1st) + d - 1. |
| CalendarView.ChangeMonth | components/counsellor/CalendarView.tsx:36-38 | Changing month moves the month index by the offset and keeps the month in 0..11, counting from the year the constructor reads (years 0 to 99 as 1900 to 1999). |
| CalendarView.ChangeMonthRoundTrip | components/counsellor/CalendarView.tsx:36-38 | Moving forward and then back by the same offset returns to the month the constructor reads, which is the same month outside years 0 to 99, provided the month in between is outside years 0 to 99. |
| CalendarView.ChangeMonthAcrossYear100 | components/counsellor/CalendarView.tsx:36-38 | Back from January of year 100 is December of year 99, and forward from there is January 2000. |
| CalendarView.MonthIndexUnique | components/counsellor/CalendarView.tsx:36-38 | A normalized year and month are determined by their month index. |
| CalendarView.ChangeMonthRollsOver | components/counsellor/CalendarView.tsx:36-38 | Next from December is January of the next year. Previous from January is December of the year before. Both count from the year the constructor reads. |
| CalendarView.AppsForDay | components/counsellor/CalendarView.tsx:40-47 | A day's cell lists only appointments on that local day, drawn from the list. |
| CalendarView.AppsForDayComplete | components/counsellor/CalendarView.tsx:40-47 | Every appointment on that local day is listed. |
| CalendarView.AppsForDayByCivilDate | components/counsellor/CalendarView.tsx:43-45 | Comparing date, month and year is comparing the day: an appointment shows in a cell exactly when its local date is the cell's date. |
| CalendarView.AppsForDaySound | components/counsellor/CalendarView.tsx:40-47 | Anything in a cell is on that local day. |
| JournalSection.Kept | components/student/JournalSection.tsx:43-54 | The filter as written keeps exactly the entries that match the search and the bounds as written (UTC midnight of the start day, end of the local day containing UTC midnight of the end day), in their original order. |
| JournalSection.KeptCorrected | components/student/JournalSection.tsx:43-54 | The same filter with the start and end bounds at local day boundaries: it keeps exactly the entries that pass it, each drawn from the list. |
| JournalSection.KeptAppend | components/student/JournalSection.tsx:43-54 | Both filters keep nothing from no entries, and one more entry at the end is appended exactly when it passes; this fixes order and multiplicity. |
| JournalSection.KeptAll | components/student/JournalSection.tsx:43-54 | With no search and no dates both filters keep every entry. |
| JournalSection.InRangeIsLocalDays | components/student/JournalSection.tsx:50-51 | The corrected bounds keep an entry exactly when its local day lies between the chosen days, inclusive. |
| JournalSection.LocalDayOrder | components/student/JournalSection.tsx:50 | An instant is at or after the start of local day k exactly when its local day is k or later. |
| JournalSection.BoundsAgreeInUtc | components/student/JournalSection.tsx:50-51 | At UTC the bounds as written and the corrected bounds agree. |
| JournalSection.StartBoundMissesLocalMorning | components/student/JournalSection.tsx:50 | East of UTC, the first moments of the chosen start day are dropped as written. |
| JournalSection.EndBoundMissesWholeDay | components/student/JournalSection.tsx:51 | West of UTC, every entry of the chosen end day is dropped as written. |
| JournalSection.Ordered | components/student/JournalSection.tsx:56-62 | The sort is a permutation, newest or oldest first as chosen. |
| JournalSection.OrderedStable | components/student/JournalSection.tsx:56-62 | Entries with the same creation time keep their relative order. |
| JournalSection.VisibleEntries | components/student/JournalSection.tsx:40-63 | The shown list is exactly the entries the filter as written keeps, in the chosen order. |
| JournalSection.VisibleEntriesCorrected | components/student/JournalSection.tsx:40-63 | The list with the corrected bounds: the entries that filter keeps, in the chosen order. |
| JournalSection.VisibleCorrectedIsLocalDays | components/student/JournalSection.tsx:40-63 | The corrected list shows an entry exactly when it is listed, matches the search, and its local day lies between the chosen days. |
| JournalSection.VisibleAgreeInUtc | components/student/JournalSection.tsx:50-51 | At UTC the list as written and the corrected list are identical. |
| JournalSection.MorningEntryHidden | components/student/JournalSection.tsx:50 | East of UTC, an entry made at the start of the chosen start day is missing from the list as written and shown by the corrected one. |
| JournalSection.Cancel | components/student/JournalSection.tsx:34-38 | Cancel closes the form and clears title and content, leaving the rest. |
| JournalSection.AddEntry | components/student/JournalSection.tsx:24-32 | An empty title or content sends nothing. Otherwise the request carries them. On success the created entry goes before the entries captured at submit time, and the form closes as on cancel over the state when the call resolves. A failed call leaves that state. |
| JournalSection.AddedEntryListed | components/student/JournalSection.tsx:24-63 | With no search or dates, a newly added entry is shown. |
| JournalSection.DoubleSubmitLosesFirstEntry | components/student/JournalSection.tsx:24-32 | Submitting twice before the first insert resolves: the second handler prepends to the entries it captured, so the first created entry drops out of the list. |
| StudentProfilesView.FilteredStudents | components/counsellor/StudentProfilesView.tsx:37-40 | An empty search shows everyone. Otherwise only students whose name contains the term, ignoring case. |
| StudentProfilesView.NameMatches | components/counsellor/StudentProfilesView.tsx:39 | The name filter keeps only matching students, drawn from the list. |
| StudentProfilesView.NameMatchesComplete | components/counsellor/StudentProfilesView.tsx:37-40 | Every student whose name matches is shown. |
| StudentProfilesView.Select | components/counsellor/StudentProfilesView.tsx:18-35 | Selecting a new student starts loading. Deselecting clears the lists. Re-selecting the same student changes nothing. |
| StudentProfilesView.FetchesSettled | components/counsellor/StudentProfilesView.tsx:23-30 | When both fetches settle, the appointments are shown, a journal failure shows an empty journal, and loading ends. An appointments failure changes nothing. |
| StudentProfilesView.JournalFailureIsEmptyJournal | components/counsellor/StudentProfilesView.tsx:25 | A refused journal shows as an empty journal next to the appointments. |
| StudentProfilesView.AppointmentsFailureKeepsLoading | components/counsellor/StudentProfilesView.tsx:23-30 | A failed appointments fetch leaves the view loading. |
| StudentProfilesView.StatusIconFor | components/counsellor/StudentProfilesView.tsx:42-53 | Each status has its own icon, with Completed falling to the grey clock. |
| StudentJournalsView.FindStudent | components/counsellor/StudentJournalsView.tsx:38 | The lookup returns a listed student with that id, or nothing exactly when there is none. |
| StudentJournalsView.HandleSelectStudent | components/counsellor/StudentJournalsView.tsx:16-40 | Picking an id selects that student, or nobody. A new student starts loading and clears the error. Nobody clears the entries. |
| StudentJournalsView.JournalSettled | components/counsellor/StudentJournalsView.tsx:23-30 | A successful fetch shows the entries. A failure shows the permission message and no entries. Loading ends either way. |
| StudentJournalsView.DisplayOf | components/counsellor/StudentJournalsView.tsx:59-79 | The panel shows, in priority order, loading, the error, the entries or the "no entries" text, and else the prompt. |
| StudentJournalsView.EmptyAndRefusedDiffer | components/counsellor/StudentJournalsView.tsx:23-30 | An empty journal and a refused one show differently. |
| StudentJournalsView.UnknownIdShowsPrompt | components/counsellor/StudentJournalsView.tsx:37-40 | The placeholder option (an unknown id) shows the prompt. |
| MindEase.ParseMindRole | pages/AuthPage.tsx:6 | Parsing a MindEase role succeeds exactly on 'student' and 'counselor'. It inverts the name. |
| MindEase.StudentUsers | data/mockData.ts:4-9 | Each student fixture signs in as a user with role 'student', its id and its email. |
| MindEase.CounselorUsers | data/mockData.ts:11-14 | Each counselor fixture signs in as a user with role 'counselor', its id and its email. |
| MockAuth.Directory | contexts/AuthContext.tsx:31-35 | The lookup searches only users of the chosen role. |
| MockAuth.Login | contexts/AuthContext.tsx:29-43 | Login succeeds exactly when a user of that role has the email, ignoring case. The first such record in the list is signed in and stored. On failure nothing changes. |
| MockAuth.LoginIgnoresCase | contexts/AuthContext.tsx:32-34 | Emails equal up to case sign in identically. |
| MockAuth.WrongRoleRejected | contexts/AuthContext.tsx:33-42 | A student email does not sign in as a counselor. |
| MockAuth.Logout | contexts/AuthContext.tsx:45-48 | Logout clears the user and the stored entry. |
| MockAuth.Restore | contexts/AuthContext.tsx:17-27 | On mount a stored user is restored. Text that fails to parse is removed. An empty value is ignored: no user, and the empty entry stays in storage. |
| MockAuth.LoginSurvivesReload | contexts/AuthContext.tsx:17-40 | Restoring after a login gives back the signed-in state. |
| MockAuth.LogoutSurvivesReload | contexts/AuthContext.tsx:17-48 | Restoring after a logout gives back the signed-out state. |
| MockAuth.RestoreSettles | contexts/AuthContext.tsx:17-27 | A second reload changes nothing. |
| StudentDashboard.InitialAppointments | pages/StudentDashboard.tsx:24 | The student sees exactly their own fixture appointments, and none when signed out. |
| StudentDashboard.InitialJournals | pages/StudentDashboard.tsx:25 | The student sees exactly their own fixture journals, and none when signed out. |
| StudentDashboard.SubmitBooking | pages/StudentDashboard.tsx:265-275 | The booking carries the chosen counselor, date and notes, with the time fixed at 10:00 AM. |
| StudentDashboard.NewAppointment | pages/StudentDashboard.tsx:27-36 | Booking appends a Pending appointment `appt-<now>` owned by the user and keeps the list before it. Without a user, nothing changes. |
| StudentDashboard.PendingCount | pages/StudentDashboard.tsx:116 | The pending count is the number of appointments the Pending filter keeps, so at most the list length. |
| StudentDashboard.PendingCountSingle | pages/StudentDashboard.tsx:116 | No appointments count 0, and a single appointment counts 1 exactly when it is Pending. |
| StudentDashboard.PendingCountAppend | pages/StudentDashboard.tsx:116 | The pending count adds up over concatenation. |
| StudentDashboard.BookingAddsOnePending | pages/StudentDashboard.tsx:27-36 | A booking raises the pending count by exactly one. |
| StudentDashboard.BookedAppointmentIsOwned | pages/StudentDashboard.tsx:24-34 | The booked appointment belongs to the student, so their own list includes it. |
| StudentDashboard.LatestFirst | pages/StudentDashboard.tsx:242 | The list is a permutation, latest date first. |
| StudentDashboard.LatestFirstStable | pages/StudentDashboard.tsx:242 | Appointments on the same date keep their order. |
| StudentDashboard.SearchJournals | pages/StudentDashboard.tsx:38-47 | The search keeps exactly the entries whose title, content or formatted date contains the term, ignoring case. |
| StudentDashboard.EmptySearchShowsAll | pages/StudentDashboard.tsx:38-47 | An empty search shows every entry, in order. |
| StudentDashboard.RenderView | pages/StudentDashboard.tsx:54-64 | 'journal' and 'appointments' select their views, and every other view value shows the dashboard. |
| CounselorDashboard.UpdateAppointment | pages/CounselorDashboard.tsx:28-29 | Every appointment with the id takes the status, and nothing else changes. |
| CounselorDashboard.UpdateIdempotent | pages/CounselorDashboard.tsx:28-29 | Applying the same update twice is the same as once. |
| CounselorDashboard.UpdateMaster | pages/CounselorDashboard.tsx:31-32 | The fixture-list write changes only the first appointment with the id. |
| CounselorDashboard.MasterAgreesWithState | pages/CounselorDashboard.tsx:28-32 | With distinct ids, the fixture list and the state receive the same update. |
| CounselorDashboard.MasterMissesDuplicate | pages/CounselorDashboard.tsx:28-32 | With a duplicated id, the two copies diverge. |
| CounselorDashboard.PendingRequests | pages/CounselorDashboard.tsx:100 | The requests are exactly this counselor's Pending appointments. |
| CounselorDashboard.Schedule | pages/CounselorDashboard.tsx:139 | The schedule is exactly this counselor's Confirmed appointments. |
| CounselorDashboard.Upcoming | pages/CounselorDashboard.tsx:101 | Upcoming is exactly this counselor's Confirmed appointments not before now. |
| CounselorDashboard.UpcomingIsScheduleFromNow | pages/CounselorDashboard.tsx:101-139 | Upcoming is the schedule filtered to not-before-now. |
| CounselorDashboard.TodayCount | pages/CounselorDashboard.tsx:111 | Today's count never exceeds the upcoming count. |
| CounselorDashboard.TodayCountIsRestOfToday | pages/CounselorDashboard.tsx:111 | Today's count is the number of the counselor's confirmed appointments from now until local midnight. |
| CounselorDashboard.SameDayIsRestOfToday | pages/CounselorDashboard.tsx:111 | An upcoming appointment is on today's local day exactly when it falls before tomorrow starts. |
| CounselorDashboard.HandledRequestLeavesPending | pages/CounselorDashboard.tsx:28-29 | Once confirmed or rejected, a request no longer appears among the pending requests. |
| CounselorDashboard.MatchingStudents | pages/CounselorDashboard.tsx:167 | The search keeps exactly the fixture students whose name contains the term, ignoring case. |
| CounselorDashboard.EmptySearchMatchesAll | pages/CounselorDashboard.tsx:167 | An empty search keeps every student. |
| CounselorDashboard.ScoreDescending | pages/CounselorDashboard.tsx:168 | `b.concernScore - a.concernScore` gives a permutation with the highest score first. |
| CounselorDashboard.FilteredStudentsAsWritten | pages/CounselorDashboard.tsx:165-169 | The shown students are the matches, highest score first. |
| CounselorDashboard.AsWrittenListsLowConcernFirst | pages/CounselorDashboard.tsx:168 | On the fixtures, the list as written starts with the Low-concern student and ends with the most concerning one. |
| CounselorDashboard.DescendingEnds | pages/CounselorDashboard.tsx:168 | The first student in the descending order has the highest score, and the last has the lowest. |
| CounselorDashboard.ScoreAscending | pages/CounselorDashboard.tsx:168 | The corrected comparator gives a permutation with the most negative (most concerning) score first. |
| CounselorDashboard.FilteredStudents | pages/CounselorDashboard.tsx:165-169 | The corrected list shows the matches, highest concern first. |
| CounselorDashboard.CorrectedListsHighConcernFirst | pages/CounselorDashboard.tsx:168 | On the fixtures, the corrected list starts with a High-concern student and ends with the Low one. |
| CounselorDashboard.AscendingEnds | pages/CounselorDashboard.tsx:168 | The first student in the ascending order has the lowest score, and the last has the highest. |
| CounselorDashboard.EmptySearchOrdersAll | pages/CounselorDashboard.tsx:165-169 | With an empty search, both lists are the sorted fixtures. |
| CounselorDashboard.MockStudentsScores | data/mockData.ts:4-9 | The fixture scores and levels as recorded, in hundredths. |
| CounselorDashboard.ViewJournal | pages/CounselorDashboard.tsx:171-174 | Viewing selects the student and shows exactly their journals. |
| CounselorDashboard.RenderView | pages/CounselorDashboard.tsx:40-48 | 'requests', 'schedule' and 'students' select their views, and every other view value shows the summary. |
| Routing.LumynHome | components/shared/ProtectedRoute.tsx:32 | A student's home is /student-dashboard and a counsellor's is /counsellor-dashboard. |
| Routing.MindEaseHome | components/ProtectedRoute.tsx:22 | A student's home is /student/dashboard and a counselor's is /counselor/dashboard. |
| SharedProtectedRoute.Decide | components/shared/ProtectedRoute.tsx:16-36 | The guard shows the loader exactly while loading, and the page exactly for an authenticated user whose role is allowed. It sends to / without authentication or without a role, and otherwise to the user's own home. |
| SharedProtectedRoute.WrongRoleRedirectSettles | components/shared/ProtectedRoute.tsx:30-36 | A wrong-role redirect lands on a route that admits that role. |
| UserProtectedRoute.Decide | components/ProtectedRoute.tsx:15-26 | The guard sends to /auth exactly without a user, and shows the page exactly for the route's role. Otherwise it sends to the user's own dashboard. |
| UserProtectedRoute.WrongRoleStudentLandsOnStudentDashboard | components/ProtectedRoute.tsx:20-23 | A student on the counselor route lands on /student/dashboard. |
| UserProtectedRoute.RedirectSettles | components/ProtectedRoute.tsx:20-26 | A wrong-role redirect lands on a route that admits that role. |
| CompleteProfile.RedirectEffect | pages/CompleteProfile.tsx:13-23 | Nothing happens while loading. A signed-out user goes to /. A user with a role goes to that role's dashboard. Only an authenticated user without a role stays. |
| CompleteProfile.Render | pages/CompleteProfile.tsx:36-38 | The role chooser shows exactly for a loaded, authenticated user. |
| CompleteProfile.RoleSelect | pages/CompleteProfile.tsx:25-34 | A failed update shows the error and re-enables the buttons. A successful one stays updating. |
| CompleteProfile.ChosenRoleReachesDashboard | pages/CompleteProfile.tsx:18-33 | A user without a role stays on the page. Once the role is set, the effect sends them to the dashboard whose guard admits them. |
| AuthPage.InitialFlow | pages/AuthPage.tsx:14-15 | A missing or empty `flow` parameter means 'login', and any other value is kept. |
| AuthPage.HandleLogin | pages/AuthPage.tsx:22-36 | Without a role the page asks for one. Otherwise it logs in. On success it navigates to that role's dashboard with the error cleared, and on failure it shows the credentials message. |
| AuthPage.LoginLandsOnAdmittingRoute | pages/AuthPage.tsx:29-32 | A successful sign-in navigates to a route whose guard admits the signed-in user. |
| AuthPage.WelcomeText | pages/AuthPage.tsx:38-39 | Without a role the page greets with "Welcome to MindEase". |
| AuthPage.WelcomeTextsDistinct | pages/AuthPage.tsx:38-39 | The greeting and the four role-and-flow headings differ pairwise: the text tells whether a role was chosen, which one, and with a role, the flow. |
| AuthPage.WelcomeTextLength | pages/AuthPage.tsx:38-39 | A heading is as long as the role name, a space and the flow together; the greeting has 19 characters. |
| AuthPage.StudentLoginWelcome | pages/AuthPage.tsx:38-43 | A student logging in is greeted with "Student Login". |
| AuthPage.CounselorSignupWelcome | pages/AuthPage.tsx:38-43 | A counselor signing up is greeted with "Counselor Signup". |
| AuthPage.Toggle | pages/AuthPage.tsx:110 | The toggle gives 'signup' exactly from 'login', and 'login' otherwise. |
| AuthPage.ToggleTwice | pages/AuthPage.tsx:110 | Toggling twice returns to either flow. |
| AuthPage.Back | pages/AuthPage.tsx:114 | Back clears the role and keeps the flow, the email and the error. |

## Left out

- The realtime subscription's lifecycle is not modelled: channels are opened and closed whenever the open conversation changes. A live event is a row handed to `Chat.ApplyLiveEvent`. That function ignores rows not addressed to the user, as the server-side `receiver_id` filter does.
- The network wrappers in `services/api.ts` (appointments, journals, feedback, resources) are not modelled. They are single queries, and the pages that call them receive their outcome as a `Result` parameter.
- The Gemini service is not part of this model. The AI reply is a parameter of `ChatPage.FinishSend`.
- The Supabase auth context (`context/AuthContext.tsx`), `Login.tsx`, `App.tsx`, `LandingPage.tsx` and the remaining pages are not modelled. They are sign-in glue and static routing.
- JSX, styling and scrolling are left out, apart from the choices a view makes (badges, messages, icons).
- `toLocaleDateString` and `toLocaleTimeString` are not modelled. The formatted date is a parameter (`formatDate`, the timestamp strings).
- Case mapping is ASCII-only: `toLowerCase` and `toUpperCase` beyond ASCII are not modelled.
- The time zone is a fixed offset. Daylight-saving changes are not modelled.
- Invalid (NaN) dates are not modelled: every date is an integer of milliseconds.
- `Date.now()` and `new Date()` are parameters (`now`).
- The demo calendar of the counselor schedule (`pages/CounselorDashboard.tsx:146-148`, "Simple logic for demo") is not modelled. It draws 35 fixed cells relative to today.
- The `mockAppointments` and `mockJournalEntries` fixtures are passed in as lists. Their dates are computed from the load time.
- `JSON.stringify`/`JSON.parse` of the stored user is abstracted. The entry is a user, or text that does not parse (`MockAuth.Stored`).
- React's re-render identity is modelled only for the seen effect (`ChatPage.SetterCalls`). Elsewhere state equality is value equality.
- The MindEase `types` file these pages import is not part of this model. The MindEase records carry the fields that the fixtures and pages use.
- `concernScore` is a float in -1..1. It is kept as integer hundredths, which the fixtures allow exactly.
- The `state: { from }` of a redirect is not modelled, since no page in the model reads it.
- AuthPage.InitialFlow: the `as Flow` cast does no check, so any query value is kept, and the model keeps it too.
- AuthPage.WelcomeText: its own contract states only the no-role greeting. For a role, `AuthPage.WelcomeTextsDistinct` and the two example lemmas state the heading, because a general ensures would restate the expression.
- Chat.Preview: states that the preview is one of the conversation's messages, not that it is the last. `Chat.SendThenPreview` pins the exact message after a send.
- CounselorDashboard.TodayCount: its own contract only bounds the count. `CounselorDashboard.TodayCountIsRestOfToday` gives its exact value. The `toDateString` comparison is a local-day comparison under the fixed offset.
- CalendarView.ChangeMonthRoundTrip: the round trip is promised only when the month in between is outside years 0 to 99, because the constructor reads those years as 1900 to 1999; `CalendarView.ChangeMonthAcrossYear100` shows the jump.
- CalendarView.CalendarGrid: the month title, `toLocaleString` of the shown month, is not modelled; the grid reads years 0 to 99 as the constructor does.
- StudentDashboard.LatestFirst: the page calls `sort` on the `appointments` state array itself while rendering, which reorders that array in place; the model sorts a copy. The rendered list is the same, and the state value is already in that order after the first render.
- The live merge neither skips messages already present nor creates a conversation for a new sender (`Chat.LiveEventRedelivered`, `Chat.LiveEventCreatesNothing`).

## Findings

| source | as written | input that shows it | evidently intended | confidence | as-written member | corrected member |
|---|---|---|---|---|---|---|
| components/student/JournalSection.tsx:50-51 | The date bounds parse `YYYY-MM-DD` as UTC midnight. The end bound then sets the hours in local time. | At UTC+1 with start day D, an entry at local midnight starting D is dropped. At UTC-1 with end day D, every entry of local day D is dropped. | Keep entries whose local day lies between the chosen days, inclusive. | not executed | JournalSection.VisibleEntries, JournalSection.MorningEntryHidden, JournalSection.EndBoundMissesWholeDay | JournalSection.VisibleEntriesCorrected, JournalSection.VisibleCorrectedIsLocalDays |
| pages/CounselorDashboard.tsx:168 | The comparator `b.concernScore - a.concernScore` sorts the highest score first. Scores are negative for concern (-0.91 High, -0.15 Low). | The fixtures list Liam (Low, -0.15) first and Sophia (High, -0.91) last. | "Sort by highest concern first": the most negative score first. | not executed | CounselorDashboard.AsWrittenListsLowConcernFirst | CounselorDashboard.CorrectedListsHighConcernFirst |
| pages/ChatPage.tsx:53-58 | The effect calls `setMessages(prev => prev.map(...))` whenever the last of several messages is the AI's. `map` returns a new array every time, so the `[messages]` dependency changes and the effect runs again. | Any list of two or more messages ending with the AI's reply, such as the list after the first exchange: every run schedules another. | Mark the user messages once: update only while some user message is still unseen. | not executed | ChatPage.EffectNeverSettles | ChatPage.SeenEffectCorrected, ChatPage.EffectSettlesCorrected |
