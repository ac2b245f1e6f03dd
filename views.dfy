/** What the month, week and agenda view services compute for themselves:
    the Sunday that starts a week, the seven days of a week, whether a day
    has events, and the lookup of one event by id. Dates are day ordinals
    here, so adding a `timedelta` of `k` days adds `k`. */
module Views {
  import opened Wrappers
  import opened Dates
  import opened Rows
  import opened Scheduling

  // ---------------------------------------------------------------------
  // Weeks
  // ---------------------------------------------------------------------

  /** `calculate_week_start`: step back `(weekday() + 1) % 7` days, which
      lands on the Sunday on or before the day. */
  function CalculateWeekStart(o: Day): (r: Day)
    ensures Weekday(r) == Sunday
    ensures o - 6 <= r <= o
    ensures Weekday(o) == Sunday ==> r == o
  {
    o - (Weekday(o) + 1) % 7
  }

  /** Two days less than a week apart with the same weekday are one day. */
  lemma SameWeekdayWithinWeek(a: Day, b: Day)
    requires a - 6 <= b <= a && Weekday(a) == Weekday(b)
    ensures a == b
  {
    var q := (a + 6) / 7 - (b + 6) / 7;
    assert a - b == 7 * q;
  }

  /** The week start is the latest Sunday not after the day: every Sunday
      in the six days before it (or the day itself) is the week start. */
  lemma {:induction false} WeekStartIsLatestSunday(o: Day, s: Day)
    requires o - 6 <= s <= o && Weekday(s) == Sunday
    ensures s == CalculateWeekStart(o)
  {
    var r := CalculateWeekStart(o);
    if s <= r {
      SameWeekdayWithinWeek(r, s);
    } else {
      SameWeekdayWithinWeek(s, r);
    }
  }

  /** The week start of a week start is itself. */
  lemma WeekStartIdempotent(o: Day)
    ensures CalculateWeekStart(CalculateWeekStart(o)) == CalculateWeekStart(o)
  {
  }

  /** Monday 17 November 2025 starts the week of Sunday 16 November 2025. */
  lemma WeekStartExample()
    ensures Weekday(Ordinal(Date(2025, 11, 17))) == 0
    ensures CalculateWeekStart(Ordinal(Date(2025, 11, 17))) == Ordinal(Date(2025, 11, 16))
  {
  }

  /** `calculate_week_dates`: the seven days from `start` on. */
  function CalculateWeekDates(start: Day): (r: seq<Day>)
    ensures |r| == 7
    ensures forall i | 0 <= i < 7 :: r[i] == start + i
  {
    seq(7, i => start + i)
  }

  /** The week of any day, from its start, runs Sunday to Saturday and
      holds the day. */
  lemma WeekHoldsItsDay(o: Day)
    ensures var w := CalculateWeekDates(CalculateWeekStart(o));
            && o in w
            && forall i | 0 <= i < 7 :: Weekday(w[i]) == (Sunday + i) % 7
  {
    var r := CalculateWeekStart(o);
    var w := CalculateWeekDates(r);
    assert w[o - r] == o;
  }

  /** The week of Sunday 16 November 2025 ends on Saturday 22 November. */
  lemma WeekDatesExample()
    ensures CalculateWeekDates(Ordinal(Date(2025, 11, 16)))[6] == Ordinal(Date(2025, 11, 22))
  {
  }

  // ---------------------------------------------------------------------
  // Days with events
  // ---------------------------------------------------------------------

  /** `has_events_on_date`: the store's query for the day's storage-format
      string, given as `dayQuery`, answers at least one row. */
  function HasEventsOnDate(dayQuery: string -> seq<EventRow>, d: CalendarDate): (r: bool)
    ensures r <==> dayQuery(IsoFormat(d)) != []
  {
    |dayQuery(IsoFormat(d))| > 0
  }

  /** The store's day query answers the rows whose date string is the one
      asked for. */
  ghost predicate AnswersByDate(dayQuery: string -> seq<EventRow>, store: map<int, EventRow>) {
    forall s: string, row: EventRow ::
      row in dayQuery(s) <==> row in store.Values && row.date == s
  }

  /** Over such a store, a day has events exactly when some stored row's
      date reads back as that day. */
  lemma HasEventsIffStoredOn(dayQuery: string -> seq<EventRow>, store: map<int, EventRow>, d: CalendarDate)
    requires AnswersByDate(dayQuery, store)
    ensures HasEventsOnDate(dayQuery, d) <==>
              exists row :: row in store.Values && ParseIso(row.date) == Some(d)
  {
    var q := dayQuery(IsoFormat(d));
    if HasEventsOnDate(dayQuery, d) {
      var row := q[0];
      assert row in q <==> row in store.Values && row.date == IsoFormat(d);
      ParseIsoOfFormat(d);
    }
    if row :| row in store.Values && ParseIso(row.date) == Some(d) {
      FormatOfParseIso(row.date);
      assert row in q <==> row in store.Values && row.date == IsoFormat(d);
    }
  }

  // ---------------------------------------------------------------------
  // One event by id
  // ---------------------------------------------------------------------

  /** Every stored row carries the id it is stored under. */
  ghost predicate Keyed(store: map<int, EventRow>) {
    forall id | id in store :: store[id].eventId == id
  }

  /** `get_event_by_id`: the stored row, or `None` when the store has none
      under `id`. In a keyed store the row found carries the id asked for. */
  function GetEventById(store: map<int, EventRow>, id: int): (r: Option<EventRow>)
    ensures r.None? <==> id !in store
    ensures r.Some? ==> r.value in store.Values
    ensures Keyed(store) && r.Some? ==> r.value.eventId == id
  {
    if id in store then Some(store[id]) else None
  }

  /** Storing a created row under the id the store gave it keeps the store
      keyed, and the lookup finds exactly that row. */
  lemma CreateKeepsKeyed(store: map<int, EventRow>, id: int, title: string, date: CalendarDate,
                         startTime: string, endTime: string, description: string, isAllDay: bool,
                         isRecurring: bool, recurrencePattern: string)
    requires Keyed(store)
    ensures var row := NewRow(id, title, date, startTime, endTime, description, isAllDay, isRecurring,
                              recurrencePattern);
            && Keyed(store[id := row])
            && GetEventById(store[id := row], id) == Some(row)
  {
  }

  /** Saving a merged row back under its id keeps the store keyed. */
  lemma UpdateKeepsKeyed(store: map<int, EventRow>, id: int, ed: Edits)
    requires Keyed(store) && id in store
    ensures Keyed(store[id := Merge(store[id], ed)])
  {
  }

  /** Deleting keeps the store keyed, and the lookup then finds nothing. */
  lemma DeleteKeepsKeyed(store: map<int, EventRow>, id: int)
    requires Keyed(store)
    ensures Keyed(store - {id}) && GetEventById(store - {id}, id).None?
  {
  }
}
