/** CalendarService: the validating layer between the views and the event
    store. It checks new and edited events, shapes them into stored rows,
    hands them to the store and reports the outcome as a message; it also
    carries a filter of its own that reads dates in the storage format.
    The store is an abstract map from event id to row; what it does on each
    call (the id it assigns, or the exception it raises) is a parameter. */
module Scheduling {
  import opened Wrappers
  import opened Text
  import opened Dates
  import opened Rows
  import opened Filtering

  const TitleRequired := "Event title is required and cannot be empty"
  const PastDate := "Cannot create events for past dates"
  const StartRequired := "Start time is required for timed events"
  const EndRequired := "End time is required for timed events"

  const Created := "Event created successfully!"
  const NotSaved := "Failed to save event to database"
  const CreateErrorPrefix := "Error creating event: "
  const NotFound := "Event not found"
  const Updated := "Event updated successfully!"
  const UpdateErrorPrefix := "Failed to update event: "
  const Deleted := "Event deleted successfully!"
  const DeleteErrorPrefix := "Failed to delete event: "

  /** The text stored as both times of an all-day event. */
  const AllDay := "All Day"

  /** The `(success, message)` pair the service returns. */
  datatype Reply = Reply(success: bool, message: string)

  // ---------------------------------------------------------------------
  // Validation
  // ---------------------------------------------------------------------

  /** `_validate_event_data`, with the day the clock reads passed in as
      `today`: the message of the first check that fails, or `None` where
      the source answers `(True, "")`. */
  function ValidateEventData(title: string, date: CalendarDate, startTime: string, endTime: string,
                             isAllDay: bool, today: CalendarDate): (r: Option<string>)
    ensures r.None? <==>
              && !AllSpace(title)
              && DateLe(today, date)
              && (isAllDay || (!AllSpace(startTime) && !AllSpace(endTime)))
    ensures r == Some(TitleRequired) <==> AllSpace(title)
    ensures r == Some(PastDate) <==> !AllSpace(title) && DateLt(date, today)
    ensures r == Some(StartRequired) <==>
              !AllSpace(title) && DateLe(today, date) && !isAllDay && AllSpace(startTime)
    ensures r == Some(EndRequired) <==>
              && !AllSpace(title) && DateLe(today, date) && !isAllDay
              && !AllSpace(startTime) && AllSpace(endTime)
  {
    BlankIffAllSpace(title);
    BlankIffAllSpace(startTime);
    BlankIffAllSpace(endTime);
    if IsBlank(title) then Some(TitleRequired)
    else if DateLt(date, today) then Some(PastDate)
    else if !isAllDay && IsBlank(startTime) then Some(StartRequired)
    else if !isAllDay && IsBlank(endTime) then Some(EndRequired)
    else None
  }

  // ---------------------------------------------------------------------
  // Creating
  // ---------------------------------------------------------------------

  /** The row `create_event` hands to the store, with the id the store
      gives it: one day long on the given date in storage format, both times
      "All Day" for an all-day event, and a recurrence pattern only for a
      recurring one. */
  function NewRow(id: int, title: string, date: CalendarDate, startTime: string, endTime: string,
                  description: string, isAllDay: bool, isRecurring: bool,
                  recurrencePattern: string): (row: EventRow)
    ensures row.eventId == id && row.title == title && row.description == description
    ensures ParseIso(row.date) == Some(date)
    ensures row.startDay == row.date && row.endDay == row.date
    ensures row.isAllDay == isAllDay && row.isRecurring == isRecurring
    ensures isAllDay ==> row.startTime == AllDay && row.endTime == AllDay
    ensures !isAllDay ==> row.startTime == startTime && row.endTime == endTime
    ensures row.recurrencePattern.Some? <==> isRecurring
    ensures isRecurring ==> row.recurrencePattern == Some(recurrencePattern)
  {
    ParseIsoOfFormat(date);
    var day := IsoFormat(date);
    EventRow(id, title, day, day, day,
             if isAllDay then AllDay else startTime,
             if isAllDay then AllDay else endTime,
             description, isRecurring,
             if isRecurring then Some(recurrencePattern) else None,
             isAllDay)
  }

  /** What the store's `insert_event` does with a new row: answers an id
      (positive on success) or raises with a message. */
  datatype InsertOutcome = Inserted(id: int) | InsertRaised(message: string)

  /** What the store's `update_event` does: saves the row or raises. */
  datatype SaveOutcome = Saved | SaveRaised(message: string)

  /** What the store's `delete_event` does: removes the row, raises
      `ValueError`, or raises any other exception. */
  datatype DeleteOutcome = Removed | RaisedValueError(message: string) | RaisedOther(message: string)

  // ---------------------------------------------------------------------
  // Editing
  // ---------------------------------------------------------------------

  /** The keyword arguments of `update_event`; `None` leaves a field as it is. */
  datatype Edits = Edits(
    title: Option<string>,
    date: Option<CalendarDate>,
    startTime: Option<string>,
    endTime: Option<string>,
    description: Option<string>,
    isAllDay: Option<bool>,
    isRecurring: Option<bool>,
    recurrencePattern: Option<string>)

  const NoEdits := Edits(None, None, None, None, None, None, None, None)

  function Given<T>(o: Option<T>, otherwise: T): T {
    if o.Some? then o.value else otherwise
  }

  /** The stored row with the given edits applied in the order the service
      applies them: a new date moves the date and both day fields together,
      and `is_all_day=True` overrides whatever times were given. */
  function Merge(row: EventRow, ed: Edits): (r: EventRow)
    ensures r.eventId == row.eventId
    ensures r.title == Given(ed.title, row.title)
    ensures r.description == Given(ed.description, row.description)
    ensures ed.date.Some? ==> ParseIso(r.date) == ed.date && r.startDay == r.date && r.endDay == r.date
    ensures ed.date.None? ==> r.date == row.date && r.startDay == row.startDay && r.endDay == row.endDay
    ensures r.isAllDay == Given(ed.isAllDay, row.isAllDay)
    ensures ed.isAllDay == Some(true) ==> r.startTime == AllDay && r.endTime == AllDay
    ensures ed.isAllDay != Some(true) ==>
              r.startTime == Given(ed.startTime, row.startTime) && r.endTime == Given(ed.endTime, row.endTime)
    ensures r.isRecurring == Given(ed.isRecurring, row.isRecurring)
    ensures r.recurrencePattern == if ed.recurrencePattern.Some? then ed.recurrencePattern else row.recurrencePattern
  {
    var dated :=
      if ed.date.Some? then
        ParseIsoOfFormat(ed.date.value);
        var day := IsoFormat(ed.date.value);
        row.(date := day, startDay := day, endDay := day)
      else row;
    var timed := dated.(startTime := Given(ed.startTime, row.startTime),
                        endTime := Given(ed.endTime, row.endTime));
    var allDay :=
      if ed.isAllDay == Some(true) then timed.(isAllDay := true, startTime := AllDay, endTime := AllDay)
      else timed.(isAllDay := Given(ed.isAllDay, row.isAllDay));
    allDay.(title := Given(ed.title, row.title),
            description := Given(ed.description, row.description),
            isRecurring := Given(ed.isRecurring, row.isRecurring),
            recurrencePattern := if ed.recurrencePattern.Some? then ed.recurrencePattern
                                 else row.recurrencePattern)
  }

  /** Updating with no arguments leaves the row as it was. */
  lemma NoEditsIsIdentity(row: EventRow)
    ensures Merge(row, NoEdits) == row
  {
  }

  /** Re-validation runs against today: an event already in the past can be
      edited only by moving it to a date that is not, whatever else changes. */
  lemma PastEventStaysLocked(row: EventRow, ed: Edits, today: CalendarDate, d: CalendarDate)
    requires ed.date.None? && ParseIso(row.date) == Some(d) && DateLt(d, today)
    ensures var m := Merge(row, ed);
            ValidateEventData(m.title, d, m.startTime, m.endTime, m.isAllDay, today).Some?
  {
    var m := Merge(row, ed);
    assert !DateLe(today, d);
  }

  /** An all-day event turned back into a timed one keeps "All Day" as both
      times, and those pass the time checks: the edit is accepted. */
  lemma AllDayTimesSurviveUnsetting(row: EventRow, today: CalendarDate, d: CalendarDate)
    requires row.isAllDay && row.startTime == AllDay && row.endTime == AllDay && !AllSpace(row.title)
    requires ParseIso(row.date) == Some(d) && DateLe(today, d)
    ensures var m := Merge(row, NoEdits.(isAllDay := Some(false)));
            && !m.isAllDay && m.startTime == AllDay && m.endTime == AllDay
            && ValidateEventData(m.title, d, m.startTime, m.endTime, m.isAllDay, today).None?
  {
    var m := Merge(row, NoEdits.(isAllDay := Some(false)));
    assert !IsSpace(AllDay[0]);
    assert !AllSpace(m.startTime) && !AllSpace(m.endTime);
  }

  // ---------------------------------------------------------------------
  // The service's own filter
  // ---------------------------------------------------------------------

  /** The service's `filter_events` reads an event's date with `strptime` in
      the storage format once the event has passed the text test and both
      bounds are given; a date that does not parse raises `ValueError`. */
  predicate Raises(e: EventRow, c: Criteria) {
    && MatchesText(e, Lower(c.searchText))
    && c.fromDate.Some? && c.toDate.Some?
    && ParseIso(e.date).None?
  }

  /** No event of `events` makes the pass raise, counted from the end. */
  ghost predicate NoneRaise(events: seq<EventRow>, c: Criteria) {
    events == [] || (NoneRaise(events[..|events| - 1], c) && !Raises(events[|events| - 1], c))
  }

  /** Read as a statement about every event. */
  lemma {:induction false} NoneRaiseAll(events: seq<EventRow>, c: Criteria)
    ensures NoneRaise(events, c) <==> forall j | 0 <= j < |events| :: !Raises(events[j], c)
  {
    if events != [] {
      var init := events[..|events| - 1];
      NoneRaiseAll(init, c);
      assert forall j | 0 <= j < |init| :: init[j] == events[j];
    }
  }

  /** `CalendarService.filter_events`: the same pass as FilterService's, with
      the storage format as the date parser, except that it stops with the
      offending date string where FilterService would skip the event. */
  method ServiceFilterEvents(events: seq<EventRow>, criteria: Option<Criteria>)
    returns (r: Result<seq<EventRow>, string>)
    ensures r.Success? <==> criteria.None? || forall i | 0 <= i < |events| :: !Raises(events[i], criteria.value)
    ensures r.Success? ==> r.value == Filtered(events, criteria, ParseIso)
    ensures r.Failure? ==> exists i | 0 <= i < |events| :: Raises(events[i], criteria.value) && r.error == events[i].date
  {
    if criteria.None? {
      return Success(events);
    }
    var c := criteria.value;
    var searchText := Lower(c.searchText);
    var filtered := [];
    for i := 0 to |events|
      invariant filtered == Kept(events[..i], c, ParseIso)
      invariant NoneRaise(events[..i], c)
    {
      var e := events[i];
      KeptStep(events, c, ParseIso, i);
      assert events[..i + 1][..i] == events[..i];
      if !MatchesText(e, searchText) {
        continue;
      }
      if c.fromDate.Some? && c.toDate.Some? {
        var parsed := ParseIso(e.date);
        if parsed.None? {
          assert Raises(events[i], c);
          return Failure(e.date);
        }
        if !(DateLe(c.fromDate.value, parsed.value) && DateLe(parsed.value, c.toDate.value)) {
          continue;
        }
      }
      if !MatchesType(e, c.showAllDay, c.showTimed, c.showRecurring) {
        continue;
      }
      filtered := filtered + [e];
    }
    assert events[..|events|] == events;
    NoneRaiseAll(events, c);
    return Success(filtered);
  }

  /** Rows the service itself created never make its filter raise. */
  lemma CreatedRowsNeverRaise(id: int, title: string, date: CalendarDate, startTime: string, endTime: string,
                              description: string, isAllDay: bool, isRecurring: bool,
                              recurrencePattern: string, c: Criteria)
    ensures !Raises(NewRow(id, title, date, startTime, endTime, description, isAllDay, isRecurring,
                           recurrencePattern), c)
  {
  }

  // ---------------------------------------------------------------------
  // The service over its store
  // ---------------------------------------------------------------------

  class CalendarService {
    /** The rows the store holds, by event id. */
    var store: map<int, EventRow>

    constructor(rows: map<int, EventRow>)
      ensures store == rows
    {
      store := rows;
    }

    /** `create_event`: validate, shape the row, insert it. Nothing reaches
        the store when validation fails; a non-positive id from the store is
        reported as a failed save. */
    method CreateEvent(title: string, date: CalendarDate, startTime: string, endTime: string,
                       description: string, isAllDay: bool, isRecurring: bool,
                       recurrencePattern: string, today: CalendarDate, insert: InsertOutcome)
      returns (success: bool, message: string, eventId: Option<int>)
      modifies this
      ensures var invalid := ValidateEventData(title, date, startTime, endTime, isAllDay, today);
              invalid.Some? ==> !success && message == invalid.value && eventId.None? && store == old(store)
      ensures success <==> ValidateEventData(title, date, startTime, endTime, isAllDay, today).None?
                           && insert.Inserted? && insert.id > 0
      ensures success ==> message == Created && eventId == Some(insert.id)
                          && store == old(store)[insert.id := NewRow(insert.id, title, date, startTime, endTime,
                                                                      description, isAllDay, isRecurring,
                                                                      recurrencePattern)]
      ensures ValidateEventData(title, date, startTime, endTime, isAllDay, today).None? && insert.Inserted? && insert.id <= 0 ==>
                message == NotSaved && eventId.None? && store == old(store)
      ensures ValidateEventData(title, date, startTime, endTime, isAllDay, today).None? && insert.InsertRaised? ==>
                !success && message == CreateErrorPrefix + insert.message && eventId.None? && store == old(store)
    {
      var invalid := ValidateEventData(title, date, startTime, endTime, isAllDay, today);
      if invalid.Some? {
        return false, invalid.value, None;
      }
      match insert
      case InsertRaised(m) =>
        return false, CreateErrorPrefix + m, None;
      case Inserted(id) =>
        if id > 0 {
          store := store[id := NewRow(id, title, date, startTime, endTime, description, isAllDay,
                                      isRecurring, recurrencePattern)];
          return true, Created, Some(id);
        } else {
          return false, NotSaved, None;
        }
    }

    /** `update_event`: look the row up, merge the edits, read the merged
        date back with `strptime` (a date that does not parse raises, shown
        as `Failure` with that date), validate again and save. Only a
        successful save changes the store. */
    method UpdateEvent(id: int, ed: Edits, today: CalendarDate, save: SaveOutcome)
      returns (r: Result<Reply, string>)
      modifies this
      ensures id !in old(store) ==> r == Success(Reply(false, NotFound)) && store == old(store)
      ensures id in old(store) && ParseIso(Merge(old(store)[id], ed).date).None? ==>
                r == Failure(Merge(old(store)[id], ed).date) && store == old(store)
      ensures id in old(store) && ParseIso(Merge(old(store)[id], ed).date).Some? ==>
                var m := Merge(old(store)[id], ed);
                var invalid := ValidateEventData(m.title, ParseIso(m.date).value, m.startTime, m.endTime,
                                                 m.isAllDay, today);
                && (invalid.Some? ==> r == Success(Reply(false, invalid.value)) && store == old(store))
                && (invalid.None? && save.Saved? ==>
                      r == Success(Reply(true, Updated)) && store == old(store)[id := m])
                && (invalid.None? && save.SaveRaised? ==>
                      r == Success(Reply(false, UpdateErrorPrefix + save.message)) && store == old(store))
    {
      if id !in store {
        return Success(Reply(false, NotFound));
      }
      var m := Merge(store[id], ed);
      var parsed := ParseIso(m.date);
      if parsed.None? {
        return Failure(m.date);
      }
      var invalid := ValidateEventData(m.title, parsed.value, m.startTime, m.endTime, m.isAllDay, today);
      if invalid.Some? {
        return Success(Reply(false, invalid.value));
      }
      match save
      case SaveRaised(msg) =>
        return Success(Reply(false, UpdateErrorPrefix + msg));
      case Saved =>
        store := store[id := m];
        return Success(Reply(true, Updated));
    }

    /** `delete_event`: a `ValueError` from the store is reported with its
        own text, any other exception with a prefix. */
    method DeleteEvent(id: int, outcome: DeleteOutcome) returns (reply: Reply)
      modifies this
      ensures outcome.Removed? ==> reply == Reply(true, Deleted) && store == old(store) - {id}
      ensures outcome.RaisedValueError? ==> reply == Reply(false, outcome.message) && store == old(store)
      ensures outcome.RaisedOther? ==> reply == Reply(false, DeleteErrorPrefix + outcome.message) && store == old(store)
    {
      match outcome
      case Removed =>
        store := store - {id};
        reply := Reply(true, Deleted);
      case RaisedValueError(msg) =>
        reply := Reply(false, msg);
      case RaisedOther(msg) =>
        reply := Reply(false, DeleteErrorPrefix + msg);
    }
  }
}
