/** components/student/JournalSection.tsx: the student's journal list with
    search, a date range, newest/oldest ordering, and the add/cancel form.
    Times are ms since the epoch; the browser's time zone is a fixed offset
    `offsetMs` (local time = UTC + offset). */
module JournalSection {
  import opened Wrappers
  import opened Seqs
  import opened Text
  import opened Types
  import opened Calendar

  datatype SortOrder = Newest | Oldest

  /** The component's state.  A date input is empty (`None`) or holds a
      calendar date, as `<input type="date">` yields "" or "YYYY-MM-DD". */
  datatype JournalState = JournalState(
    entries: seq<JournalEntry>,
    searchTerm: string,
    sortOrder: SortOrder,
    isCreating: bool,
    newTitle: string,
    newContent: string,
    startDate: Option<CivilDate>,
    endDate: Option<CivilDate>)


  predicate WellFormedDate(d: Option<CivilDate>) {
    d.Some? ==> 0 <= d.value.month < 12
  }

  /** An empty term matches everything; otherwise the lowercased title or
      content must contain the lowercased term. */
  predicate MatchesSearch(e: JournalEntry, term: string) {
    term == "" || ContainsIgnoringCase(e.title, term) || ContainsIgnoringCase(e.content, term)
  }

  // ---------------------------------------------------------------------
  // Date bounds as written: `new Date("YYYY-MM-DD")` is UTC midnight, and
  // `setHours(23, 59, 59, 999)` then moves to the end of whatever LOCAL day
  // that instant falls in.

  /** `new Date(d)` for a date-only string: midnight UTC. */
  function ParsedDate(d: CivilDate): int
    requires 0 <= d.month < 12
  {
    DayOf(d) * MsPerDay
  }

  /** `new Date(new Date(d).setHours(23, 59, 59, 999))`. */
  function EndBoundAsWritten(d: CivilDate, offsetMs: int): int
    requires 0 <= d.month < 12
  {
    LocalDayStart(LocalDay(ParsedDate(d), offsetMs), offsetMs) + MsPerDay - 1
  }

  predicate InRangeAsWritten(t: int, start: Option<CivilDate>, end: Option<CivilDate>, offsetMs: int)
    requires WellFormedDate(start) && WellFormedDate(end)
  {
    && (start.None? || t >= ParsedDate(start.value))
    && (end.None? || t <= EndBoundAsWritten(end.value, offsetMs))
  }

  /** With a positive offset (east of UTC) the first hours of the chosen
      start day fall before the start bound and are dropped. */
  lemma StartBoundMissesLocalMorning(d: CivilDate, offsetMs: int)
    requires 0 <= d.month < 12
    requires 0 < offsetMs < MsPerDay
    ensures var t := LocalDayStart(DayOf(d), offsetMs);
      && LocalDay(t, offsetMs) == DayOf(d)
      && !InRangeAsWritten(t, Some(d), None, offsetMs)
      && InRange(t, Some(d), None, offsetMs)
  {
  }

  /** With a negative offset (west of UTC) the end bound is the end of the
      day BEFORE the chosen end day, so the whole end day is dropped. */
  lemma EndBoundMissesWholeDay(d: CivilDate, offsetMs: int, t: int)
    requires 0 <= d.month < 12
    requires -MsPerDay < offsetMs < 0
    requires LocalDay(t, offsetMs) == DayOf(d)
    ensures !InRangeAsWritten(t, None, Some(d), offsetMs)
    ensures InRange(t, None, Some(d), offsetMs)
  {
    var day := DayOf(d);
    assert LocalDay(ParsedDate(d), offsetMs) == day - 1 by {
      LocalDayRange(ParsedDate(d), offsetMs, day - 1);
    }
    LocalDayRange(t, offsetMs, day);
  }

  // ---------------------------------------------------------------------
  // Corrected bounds: the chosen dates are local calendar days.

  predicate InRange(t: int, start: Option<CivilDate>, end: Option<CivilDate>, offsetMs: int)
    requires WellFormedDate(start) && WellFormedDate(end)
  {
    && (start.None? || t >= LocalDayStart(DayOf(start.value), offsetMs))
    && (end.None? || t <= LocalDayStart(DayOf(end.value) + 1, offsetMs) - 1)
  }

  /** The corrected bounds keep exactly the times whose local day lies
      between the chosen days, inclusive. */
  lemma InRangeIsLocalDays(t: int, start: Option<CivilDate>, end: Option<CivilDate>, offsetMs: int)
    requires WellFormedDate(start) && WellFormedDate(end)
    ensures InRange(t, start, end, offsetMs) <==>
      && (start.None? || LocalDay(t, offsetMs) >= DayOf(start.value))
      && (end.None? || LocalDay(t, offsetMs) <= DayOf(end.value))
  {
    var day := LocalDay(t, offsetMs);
    LocalDayRange(t, offsetMs, day);
    if start.Some? {
      LocalDayOrder(t, offsetMs, DayOf(start.value));
    }
    if end.Some? {
      LocalDayOrder(t, offsetMs, DayOf(end.value) + 1);
    }
  }

  /** A time is at or after the start of local day `k` exactly when its
      local day is `k` or later. */
  lemma LocalDayOrder(t: int, offsetMs: int, k: int)
    ensures t >= LocalDayStart(k, offsetMs) <==> LocalDay(t, offsetMs) >= k
  {
    var q := LocalDay(t, offsetMs);
    LocalDayRange(t, offsetMs, q);
    if q < k {
      assert LocalDayStart(q + 1, offsetMs) <= LocalDayStart(k, offsetMs);
    } else {
      assert LocalDayStart(k, offsetMs) <= LocalDayStart(q, offsetMs);
    }
  }

  /** In UTC the code as written and the corrected bounds agree. */
  lemma BoundsAgreeInUtc(t: int, start: Option<CivilDate>, end: Option<CivilDate>)
    requires WellFormedDate(start) && WellFormedDate(end)
    ensures InRangeAsWritten(t, start, end, 0) == InRange(t, start, end, 0)
  {
    if end.Some? {
      assert LocalDay(ParsedDate(end.value), 0) == DayOf(end.value);
    }
  }

  // ---------------------------------------------------------------------
  // filteredAndSortedEntries

  /** The filter's test as written; the date inputs of a real form are
      always well formed. */
  predicate Keep(e: JournalEntry, s: JournalState, offsetMs: int) {
    && WellFormedDate(s.startDate) && WellFormedDate(s.endDate)
    && MatchesSearch(e, s.searchTerm) && InRangeAsWritten(e.createdAt, s.startDate, s.endDate, offsetMs)
  }

  /** The filter's test with the corrected, local-day bounds. */
  predicate KeepCorrected(e: JournalEntry, s: JournalState, offsetMs: int) {
    && WellFormedDate(s.startDate) && WellFormedDate(s.endDate)
    && MatchesSearch(e, s.searchTerm) && InRange(e.createdAt, s.startDate, s.endDate, offsetMs)
  }

  /** `entries.filter(...)`: exactly the entries that pass, in their
      original order. */
  function Kept(entries: seq<JournalEntry>, s: JournalState, offsetMs: int): (r: seq<JournalEntry>)
    requires WellFormedDate(s.startDate) && WellFormedDate(s.endDate)
    ensures |r| <= |entries|
    ensures forall i :: 0 <= i < |r| ==> r[i] in entries && Keep(r[i], s, offsetMs)
    ensures forall i :: 0 <= i < |entries| && Keep(entries[i], s, offsetMs) ==> entries[i] in r
    ensures multiset(r) <= multiset(entries)
  {
    Filter(entries, (e: JournalEntry) => Keep(e, s, offsetMs))
  }

  /** The same filter with the corrected bounds. */
  function KeptCorrected(entries: seq<JournalEntry>, s: JournalState, offsetMs: int): (r: seq<JournalEntry>)
    requires WellFormedDate(s.startDate) && WellFormedDate(s.endDate)
    ensures |r| <= |entries|
    ensures forall i :: 0 <= i < |r| ==> r[i] in entries && KeepCorrected(r[i], s, offsetMs)
    ensures forall i :: 0 <= i < |entries| && KeepCorrected(entries[i], s, offsetMs) ==> entries[i] in r
    ensures multiset(r) <= multiset(entries)
  {
    Filter(entries, (e: JournalEntry) => KeepCorrected(e, s, offsetMs))
  }

  /** Both filters are fixed entry by entry: nothing kept from no entries,
      and one more entry is appended exactly when it passes.  Together with
      the empty case this pins order and multiplicity of the result. */
  lemma KeptAppend(a: seq<JournalEntry>, e: JournalEntry, s: JournalState, offsetMs: int)
    requires WellFormedDate(s.startDate) && WellFormedDate(s.endDate)
    ensures Kept([], s, offsetMs) == [] && KeptCorrected([], s, offsetMs) == []
    ensures Kept(a + [e], s, offsetMs) == Kept(a, s, offsetMs) + (if Keep(e, s, offsetMs) then [e] else [])
    ensures KeptCorrected(a + [e], s, offsetMs)
              == KeptCorrected(a, s, offsetMs) + (if KeepCorrected(e, s, offsetMs) then [e] else [])
  {
    FilterSnoc(a, e, (x: JournalEntry) => Keep(x, s, offsetMs));
    FilterSnoc(a, e, (x: JournalEntry) => KeepCorrected(x, s, offsetMs));
  }

  /** With no search term and no dates nothing is filtered out, by either
      filter. */
  lemma KeptAll(entries: seq<JournalEntry>, s: JournalState, offsetMs: int)
    requires s.searchTerm == "" && s.startDate.None? && s.endDate.None?
    ensures Kept(entries, s, offsetMs) == entries
    ensures KeptCorrected(entries, s, offsetMs) == entries
  {
    FilterKeepsAll(entries, (e: JournalEntry) => Keep(e, s, offsetMs));
    FilterKeepsAll(entries, (e: JournalEntry) => KeepCorrected(e, s, offsetMs));
  }

  function CreatedAt(e: JournalEntry): int {
    e.createdAt
  }

  function NegCreatedAt(e: JournalEntry): int {
    -e.createdAt
  }

  /** The sort by creation time, newest or oldest first; entries created
      at the same instant stay in list order (the sort is stable). */
  function Ordered(kept: seq<JournalEntry>, order: SortOrder): (r: seq<JournalEntry>)
    ensures multiset(r) == multiset(kept)
    ensures order == Newest ==> forall i :: 0 < i < |r| ==> r[i - 1].createdAt >= r[i].createdAt
    ensures order == Oldest ==> forall i :: 0 < i < |r| ==> r[i - 1].createdAt <= r[i].createdAt
  {
    if order == Newest then SortByKey(kept, NegCreatedAt) else SortByKey(kept, CreatedAt)
  }

  /** Entries created at the same instant keep their relative order: for
      each key value `k` (the time, negated for newest-first) the entries
      with that key appear in the same order before and after. */
  lemma OrderedStable(kept: seq<JournalEntry>, order: SortOrder, k: int)
    ensures order == Newest ==> WithKey(Ordered(kept, order), NegCreatedAt, k) == WithKey(kept, NegCreatedAt, k)
    ensures order == Oldest ==> WithKey(Ordered(kept, order), CreatedAt, k) == WithKey(kept, CreatedAt, k)
  {
    SortIsStable(kept, NegCreatedAt, k);
    SortIsStable(kept, CreatedAt, k);
  }

  /** The list shown: the kept entries in the chosen order. */
  function VisibleEntries(s: JournalState, offsetMs: int): (r: seq<JournalEntry>)
    requires WellFormedDate(s.startDate) && WellFormedDate(s.endDate)
    ensures multiset(r) == multiset(Kept(s.entries, s, offsetMs))
    ensures forall i :: 0 <= i < |r| ==> r[i] in s.entries && Keep(r[i], s, offsetMs)
    ensures s.sortOrder == Newest ==> forall i :: 0 < i < |r| ==> r[i - 1].createdAt >= r[i].createdAt
    ensures s.sortOrder == Oldest ==> forall i :: 0 < i < |r| ==> r[i - 1].createdAt <= r[i].createdAt
  {
    var kept := Kept(s.entries, s, offsetMs);
    var r := Ordered(kept, s.sortOrder);
    SameElements(r, kept);
    r
  }

  /** The list the corrected filter would show, in the same order. */
  function VisibleEntriesCorrected(s: JournalState, offsetMs: int): (r: seq<JournalEntry>)
    requires WellFormedDate(s.startDate) && WellFormedDate(s.endDate)
    ensures multiset(r) == multiset(KeptCorrected(s.entries, s, offsetMs))
    ensures forall i :: 0 <= i < |r| ==> r[i] in s.entries && KeepCorrected(r[i], s, offsetMs)
    ensures s.sortOrder == Newest ==> forall i :: 0 < i < |r| ==> r[i - 1].createdAt >= r[i].createdAt
    ensures s.sortOrder == Oldest ==> forall i :: 0 < i < |r| ==> r[i - 1].createdAt <= r[i].createdAt
  {
    var kept := KeptCorrected(s.entries, s, offsetMs);
    var r := Ordered(kept, s.sortOrder);
    SameElements(r, kept);
    r
  }

  /** The corrected list shows exactly the listed entries that match the
      search and whose local day lies between the chosen days. */
  lemma VisibleCorrectedIsLocalDays(s: JournalState, offsetMs: int, e: JournalEntry)
    requires WellFormedDate(s.startDate) && WellFormedDate(s.endDate)
    ensures e in VisibleEntriesCorrected(s, offsetMs) <==>
      && e in s.entries
      && MatchesSearch(e, s.searchTerm)
      && (s.startDate.None? || LocalDay(e.createdAt, offsetMs) >= DayOf(s.startDate.value))
      && (s.endDate.None? || LocalDay(e.createdAt, offsetMs) <= DayOf(s.endDate.value))
  {
    InRangeIsLocalDays(e.createdAt, s.startDate, s.endDate, offsetMs);
    var r := VisibleEntriesCorrected(s, offsetMs);
    var kept := KeptCorrected(s.entries, s, offsetMs);
    assert e in r <==> e in kept by {
      assert e in r <==> e in multiset(r);
      assert e in kept <==> e in multiset(kept);
    }
  }

  /** In UTC the list as written and the corrected list are the same. */
  lemma VisibleAgreeInUtc(s: JournalState)
    requires WellFormedDate(s.startDate) && WellFormedDate(s.endDate)
    ensures VisibleEntries(s, 0) == VisibleEntriesCorrected(s, 0)
  {
    forall i | 0 <= i < |s.entries|
      ensures Keep(s.entries[i], s, 0) == KeepCorrected(s.entries[i], s, 0)
    {
      BoundsAgreeInUtc(s.entries[i].createdAt, s.startDate, s.endDate);
    }
    FilterAgrees(s.entries, (e: JournalEntry) => Keep(e, s, 0), (e: JournalEntry) => KeepCorrected(e, s, 0));
  }

  /** East of UTC, an entry written at the very start of the chosen start
      day is missing from the list as written and shown by the corrected
      list. */
  lemma MorningEntryHidden(s: JournalState, offsetMs: int, e: JournalEntry)
    requires s.startDate.Some? && 0 <= s.startDate.value.month < 12 && s.endDate.None?
    requires s.searchTerm == "" && 0 < offsetMs < MsPerDay
    requires e in s.entries && e.createdAt == LocalDayStart(DayOf(s.startDate.value), offsetMs)
    ensures e !in VisibleEntries(s, offsetMs)
    ensures e in VisibleEntriesCorrected(s, offsetMs)
  {
    StartBoundMissesLocalMorning(s.startDate.value, offsetMs);
    VisibleCorrectedIsLocalDays(s, offsetMs, e);
  }

  // ---------------------------------------------------------------------
  // The add/cancel form

  datatype AddRequest = AddRequest(studentId: string, title: string, content: string)

  datatype AddOutcome = AddOutcome(state: JournalState, request: Option<AddRequest>)

  /** `handleCancel`: close the form and clear its fields. */
  function Cancel(s: JournalState): (r: JournalState)
    ensures !r.isCreating && r.newTitle == "" && r.newContent == ""
    ensures r.entries == s.entries && r.searchTerm == s.searchTerm && r.sortOrder == s.sortOrder
    ensures r.startDate == s.startDate && r.endDate == s.endDate
  {
    s.(isCreating := false, newTitle := "", newContent := "")
  }

  /** `handleAddEntry`.  `s` is the state when the form is submitted and
      `current` the state when the awaited insert resolves.  An empty title
      or content stops before any call.  Otherwise the store is asked to add
      the entry; `created` is the row it returns, or `None` when it rejects
      the insert (the call throws and `current` stays).  The created entry
      is prepended to the entries captured at submit time, and the form
      closes as on cancel. */
  function AddEntry(studentId: string, s: JournalState, current: JournalState, created: Option<JournalEntry>): (out: AddOutcome)
    ensures out.request.None? <==> s.newTitle == "" || s.newContent == ""
    ensures out.request.Some? ==> out.request.value == AddRequest(studentId, s.newTitle, s.newContent)
    ensures out.request.None? || created.None? ==> out.state == current
    ensures out.request.Some? && created.Some? ==>
      && out.state.entries == [created.value] + s.entries
      && out.state.(entries := current.entries) == Cancel(current)
  {
    if s.newTitle == "" || s.newContent == "" then AddOutcome(current, None)
    else
      var req := AddRequest(studentId, s.newTitle, s.newContent);
      match created
      case None => AddOutcome(current, Some(req))
      case Some(e) => AddOutcome(Cancel(current).(entries := [e] + s.entries), Some(req))
  }

  /** Without a search term or dates the newly added entry is listed. */
  lemma AddedEntryListed(studentId: string, s: JournalState, e: JournalEntry, offsetMs: int)
    requires s.newTitle != "" && s.newContent != ""
    requires s.searchTerm == "" && s.startDate.None? && s.endDate.None?
    ensures e in VisibleEntries(AddEntry(studentId, s, s, Some(e)).state, offsetMs)
  {
    var s' := AddEntry(studentId, s, s, Some(e)).state;
    KeptAll(s'.entries, s', offsetMs);
    assert e in multiset(Kept(s'.entries, s', offsetMs));
  }

  /** Submitting twice before the first insert resolves: both rows are
      created, but the second handler prepends to the entries it captured,
      so the first created entry disappears from the list. */
  lemma DoubleSubmitLosesFirstEntry(studentId: string, s: JournalState, e1: JournalEntry, e2: JournalEntry)
    requires s.newTitle != "" && s.newContent != ""
    requires e1 !in s.entries && e1 != e2
    ensures var first := AddEntry(studentId, s, s, Some(e1));
      var second := AddEntry(studentId, s, first.state, Some(e2));
      && first.request == second.request
      && e1 in first.state.entries
      && e1 !in second.state.entries
      && e2 in second.state.entries
  {
    var second := AddEntry(studentId, s, AddEntry(studentId, s, s, Some(e1)).state, Some(e2));
    assert second.state.entries == [e2] + s.entries;
  }
}
