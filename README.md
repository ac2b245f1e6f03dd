# Calendar core in Dafny

A model of the core of a small desktop calendar application:

- the in-memory store (`Calendar_Class.py`): two dictionaries, events by id and event ids by date string, kept in step by `add_event`, `update_event` and `delete_event`, with ids "001" to "100" drawn from a counter;
- the event record (`Event_Class.py`): its setters refuse a blank id, title or date and assign everything else as given;
- the filter service (`Filter_Service_Class.py`): text, date-range and event-type filtering, the criteria summary and criteria validation;
- the scheduling service (`CalendarService.py`): validation of event data, creating, editing and deleting rows in the persistent store, its own filter pass, month and week arithmetic, and the collection of events over a window of months;
- the parts of the month, agenda and week view services (`MonthViewService_Class.py`, `AgendaViewService_Class.py`, `WeekViewService_Class.py`) that compute rather than delegate.

Modules, one per file:

- `Wrappers`: `Option`, `Result`, `Outcome`.
- `Text`: the string operations Python supplies: `strip`, `lower`, `in` on strings, string `<`, zero-padded numbers.
- `Dates`: calendar dates, day ordinals, weekdays, and the formats "%Y-%m-%d" (the storage format) and "%d-%m-%Y" with their parsers.
- `Months`: year/month arithmetic.
- `Rows`: the stored row.
- `Window`: `get_all_events` and its sort.
- `Filtering`: the filter service.
- `Events`: the event record.
- `CalendarStore`: the in-memory calendar.
- `Scheduling`: the scheduling service.
- `Views`: the remaining view computations.

Mutable entities are classes:

- `Events.Event` (fields assigned by setters);
- `CalendarStore.Calendar` (two dictionaries and a counter);
- `Scheduling.CalendarService` (the rows of its store).

Pure computations are functions with lemmas. The loops of the source are methods with loop invariants: `get_all_events` with its month normalisation, and the two `filter_events` passes.

## Model

| member | source | states |
|---|---|---|
| Text.StripLeftEmpty | Event_Class.py:58-59 | `lstrip` leaves nothing exactly when the string is all white space |
| Text.BlankIffAllSpace | Event_Class.py:58-59 | `not value.strip()` holds exactly when the value is empty or all white space |
| Text.Strip | Event_Class.py:58-59 | `strip()` is empty exactly when the value is all white space, and otherwise starts and ends with a character that is not white space |
| Text.Lower | Filter_Service_Class.py:78-79 | `lower()` keeps the length, leaves no upper-case letter, keeps every other character, and agrees with its input up to case at every position |
| Text.LowerIdempotent | Filter_Service_Class.py:78-79 | lowering twice is lowering once |
| Text.LowerIgnoresCase | Filter_Service_Class.py:78-79 | strings that differ only in case lower to the same string |
| Text.OccursIffSubstring | Filter_Service_Class.py:78-79 | the search of `needle in haystack` succeeds exactly when the needle occurs at some position |
| Text.StrLtTransitive | CalendarService.py:375 | string order, used by the sort key, is transitive |
| Text.StrLtTrichotomy | CalendarService.py:375 | any two strings are equal or ordered one way |
| Text.StrLtAsymmetric | CalendarService.py:375 | string order is strict: when a is below b, b is not below a and differs from it |
| Text.StrLt | CalendarService.py:375 | the character-by-character string order agrees with proper prefixes and never puts a string below one of its prefixes |
| Text.ParseDigits | CalendarService.py:236 | a digit field parses exactly when every character is a digit |
| Text.Pad | Calendar_Class.py:40 | `f"{n:03d}"`-style padding gives exactly the width asked for, all digits |
| Text.DigitsOfPad | Calendar_Class.py:40 | a zero-padded number reads back as that number |
| Text.PadOfDigits | Calendar_Class.py:40 | padding the value of a digit string to its width gives the string back |
| Text.PadOrder | Calendar_Class.py:40 | equal-width padded numbers compare as strings as the numbers compare |
| Text.PadInjective | Calendar_Class.py:40 | distinct numbers pad to distinct strings |
| Dates.DaysInMonth | CalendarService.py:236 | month lengths lie in 28..31, 29 exactly for February of a leap year |
| Dates.Weekday | WeekViewService_Class.py:43 | `weekday()` lies in 0..6, Monday being 0 |
| Dates.IsoFormat | CalendarService.py:112 | `strftime("%Y-%m-%d")` is ten characters long |
| Dates.ParseIso | CalendarService.py:236 | `strptime` with "%Y-%m-%d" only ever yields a real date |
| Dates.IsoFormatFields | CalendarService.py:112 | the formatted string has the year, month and day padded at positions 0-4, 5-7 and 8-10 |
| Dates.ParseIsoOfFormat | CalendarService.py:236 | parsing a formatted date gives the date back |
| Dates.FormatOfParseIso | CalendarService.py:236 | a string that parses is the formatted form of what it parses to |
| Dates.IsoFormatOrder | AgendaViewService_Class.py:61 | storage-format date strings compare as strings exactly as the dates compare, so sorting on the string sorts by date |
| Dates.IsoFormatInjective | CalendarService.py:112 | distinct dates format to distinct strings |
| Dates.Ordinal | WeekViewService_Class.py:44 | the proleptic Gregorian day number is at least 1, and 1 for 0001-01-01 |
| Dates.DaysBeforeYearStep | WeekViewService_Class.py:44 | each year adds 365 days, 366 for a leap year |
| Dates.DaysBeforeYearGrows | WeekViewService_Class.py:44 | later years start at least 365 days a year later |
| Dates.OrdinalInYear | WeekViewService_Class.py:44 | a date's day number lies after the days before its year and no later than the last day of its year |
| Dates.OrdinalOrder | WeekViewService_Class.py:44 | one date is before another exactly when its day number is smaller |
| Dates.DmyFormat | Filter_Service_Class.py:154 | `strftime('%d-%m-%Y')` is ten characters long |
| Dates.ParseDmy | Filter_Service_Class.py:98 | `strptime` with "%d-%m-%Y" only ever yields a real date |
| Dates.ParseDmyOfFormat | Filter_Service_Class.py:98 | "%d-%m-%Y" parsing reads back a date formatted that way |
| Dates.ParseDmyRejectsIso | Filter_Service_Class.py:98 | "%d-%m-%Y" parsing refuses every storage-format date string |
| Months.NextMonth | CalendarService.py:402-405 | the next month is one month later and December rolls over to January of the next year |
| Months.PreviousMonth | CalendarService.py:418-421 | the previous month is one month earlier and January rolls back to December of the year before |
| Months.NextPreviousInverse | MonthViewService_Class.py:55-74 | next and previous month undo each other |
| Months.MonthIndexInjective | CalendarService.py:363-368 | a year and a month in 1..12 are determined by their month count |
| Months.Normalised | CalendarService.py:359-368 | the adjusted month lies in 1..12 and denotes the same month count |
| Months.NormaliseMonth | AgendaViewService_Class.py:45-54 | the two adjustment loops end in the normalised year and month |
| Window.KeyTrichotomy | CalendarService.py:375 | the `(date, start_time)` key orders any two rows one way, or they tie |
| Window.KeyLtTransitive | CalendarService.py:375 | the key order is transitive |
| Window.KeyLeTransitive | CalendarService.py:375 | the non-strict key order is transitive |
| Window.InsertPermutes | CalendarService.py:375 | inserting into the sorted prefix adds exactly the one row |
| Window.InsertLowerBound | CalendarService.py:375 | a lower bound of the list and of the row bounds the result |
| Window.InsertSorted | CalendarService.py:375 | inserting into a sorted list keeps it sorted |
| Window.SortedCons | CalendarService.py:375 | a row no greater than any element of a sorted list can be put in front and the list stays sorted |
| Window.SortByKey | CalendarService.py:375 | the sorted result is ordered by key and a permutation of the input |
| Window.WindowMonths | CalendarService.py:357-368 | the loop visits `months_before + months_after + 1` months, the k-th being k months after the first, each with its month in 1..12 |
| Window.DefaultWindow | AgendaViewService_Class.py:28 | the default window is thirteen months with today's month in the middle |
| Window.Collected | CalendarService.py:371-372 | the month results are appended in window order, the first month's results first |
| Window.CollectedKeepsEveryCopy | CalendarService.py:371-372 | every copy every month query returns is kept |
| Window.TimesReturnedAtLeast | MonthViewService_Class.py:160-161 | the total counts a row at least as often as all earlier months plus this month return it |
| Window.TimesReturnedMonotone | MonthViewService_Class.py:160-161 | later months never lower the count of a row |
| Window.BoundaryEventRepeated | AgendaViewService_Class.py:57-61 | a row that two month queries both return appears at least twice in the result |
| Window.TimesReturnedTwoMonths | AgendaViewService_Class.py:57-61 | two distinct months of the window each add their copies of a row to its total |
| Window.GetAllEvents | CalendarService.py:353-377 | the result is sorted by key, is a permutation of all month results together, and equals the sort of that concatenation |
| Filtering.FilterEvents | Filter_Service_Class.py:38-62 | the loop returns the input for absent or empty criteria, else the matching events in order |
| Filtering.Filtered | Filter_Service_Class.py:38-62 | absent criteria give the input; otherwise an event is in the result exactly when it is in the input and passes all three tests |
| Filtering.KeptMembers | Filter_Service_Class.py:49-60 | every event of the input passing all three tests is in the result, and nothing else |
| Filtering.KeptStep | Filter_Service_Class.py:49-60 | one more event keeps what the shorter list kept, then the new event exactly when it matches |
| Filtering.SubsequenceDropLast | Filter_Service_Class.py:49-60 | dropping the last element of a subsequence leaves a subsequence |
| Filtering.SubsequenceExtend | Filter_Service_Class.py:49-60 | a subsequence stays one when the input grows at the end |
| Filtering.KeptIsSubsequence | Filter_Service_Class.py:49-60 | the result keeps the input's order |
| Filtering.KeptCounts | Filter_Service_Class.py:49-60 | every copy of a matching event is kept and no copy of another |
| Filtering.KeptMembership | Filter_Service_Class.py:49-60 | an event is in the result exactly when it is in the input and matches all three tests |
| Filtering.DefaultsKeepEverything | Filter_Service_Class.py:42-47 | absent criteria and all-default criteria give back the input |
| Filtering.MatchesText | Filter_Service_Class.py:75-80 | the text test passes exactly when the search text is empty or occurs in the lowered title or the lowered description |
| Filtering.MatchesTextIgnoresCase | Filter_Service_Class.py:75-80 | the text test gives the same answer for search texts and event texts that differ only in case |
| Filtering.MatchesDate | Filter_Service_Class.py:94-101 | a missing bound passes every event; otherwise an unparsable date fails and a parsed date passes exactly when it lies in the range |
| Filtering.MatchesType | Filter_Service_Class.py:116-128 | an event passes exactly when its kind (all-day or timed) is shown and, if recurring, recurring events are shown; all flags on pass everything, all-day and timed both off pass nothing |
| Filtering.TypeExclusionExample | Filter_Service_Class.py:117-128 | hiding timed or recurring events keeps the all-day event and drops the timed recurring one |
| Filtering.DefaultFormatDropsStoredEvents | Filter_Service_Class.py:12 | with the default date format and both bounds set, no storage-format event survives |
| Filtering.StorageFormatKeepsRange | Filter_Service_Class.py:94-101 | with the storage format, the date test is exactly `from <= date <= to` |
| Filtering.ValidateFilterCriteria | Filter_Service_Class.py:184-205 | the errors are the date-range error exactly when from > to, then the type error exactly when all three types are off, in that order, and there are at most two |
| Filtering.OnlyRecurringPassesButMatchesNothing | Filter_Service_Class.py:202-203 | criteria showing only recurring events pass validation yet every event fails the type test |
| Filtering.ValidateFilterCriteriaCorrected | Filter_Service_Class.py:193-205 | the date-range error exactly when from > to, then the type error exactly when both all-day and timed events are hidden, at most two errors and nothing else |
| Filtering.CorrectedValidationAdmitsSomeKind | Filter_Service_Class.py:193-203 | criteria passing the corrected validation let some kind of event through and have an ordered date range |
| Filtering.ExcludedTypes | Filter_Service_Class.py:161-167 | each type name is listed exactly when that type is hidden, in the order All-Day, Timed, Recurring, and no other name appears |
| Filtering.GetFilterSummary | Filter_Service_Class.py:140-172 | no criteria give "No filters applied", no parts give "All events (no restrictions)", otherwise the parts joined by " \| " |
| Filtering.NoRestrictionsIff | Filter_Service_Class.py:146-172 | the summary says no restrictions exactly when the search text is empty, the date range is not fully given and no type is hidden |
| Filtering.JoinStartsWithFirst | Filter_Service_Class.py:172 | the joined summary starts with its first part |
| Events.CheckNotBlank | Event_Class.py:58-60 | a value passes exactly when it is not empty or all white space, else the given error |
| Events.Event.constructor | Event_Class.py:35-45 | every argument is stored as given, with no check |
| Events.Event.SetEventId | Event_Class.py:53-60 | a blank id is refused with "Event ID cannot be empty" and nothing changes, else only the id changes |
| Events.Event.SetTitle | Event_Class.py:68-75 | a blank title is refused and nothing changes, else only the title changes |
| Events.Event.SetDate | Event_Class.py:83-90 | a blank date is refused and nothing changes, else only the date changes |
| Events.Event.SetStartDay | Event_Class.py:98-101 | only the start day changes |
| Events.Event.SetEndDay | Event_Class.py:109-112 | only the end day changes |
| Events.Event.SetStartTime | Event_Class.py:120-125 | only the start time changes |
| Events.Event.SetEndTime | Event_Class.py:133-138 | only the end time changes |
| Events.Event.SetDescription | Event_Class.py:146-151 | only the description changes |
| Events.Event.SetIsRecurring | Event_Class.py:159-164 | only the recurring flag changes |
| Events.Event.SetRecurrencePattern | Event_Class.py:172-177 | only the recurrence pattern changes |
| Events.Event.SetIsAllDay | Event_Class.py:185-190 | only the all-day flag changes |
| CalendarStore.RemoveFirst | Calendar_Class.py:170 | `list.remove` takes out one copy of a present id and leaves the list alone otherwise |
| CalendarStore.FirstAt | Calendar_Class.py:170 | the position found holds the id and no earlier position does |
| CalendarStore.RemoveFirstSplices | Calendar_Class.py:170 | for a present id, the result is the list before its first copy followed by the list after it |
| CalendarStore.RemoveFirstMembers | Calendar_Class.py:170 | removal keeps every other id and adds none |
| CalendarStore.NoDuplicatesCons | Calendar_Class.py:73 | a list has no repeats exactly when its head is not in its tail and the tail has none |
| CalendarStore.RemoveFirstNoDuplicates | Calendar_Class.py:170 | from a list without repeats, removal takes out the only copy |
| CalendarStore.StoredIds | Calendar_Class.py:98 | the ids of a bucket the dictionary holds, exactly those, and the whole bucket when every id is held |
| CalendarStore.Present | Calendar_Class.py:97-98 | the i-th result is the object stored under the i-th held id of the bucket, so the result follows bucket order and skips unknown ids |
| CalendarStore.Bucket | Calendar_Class.py:97 | `get(date_str, [])`: no bucket gives the empty list, a non-empty answer is the stored bucket |
| CalendarStore.Appended | Calendar_Class.py:71-73 | appending creates the bucket when absent, adds the id at its end and leaves the other buckets alone |
| CalendarStore.Detached | Calendar_Class.py:166-172 | the id leaves its bucket, an emptied bucket is dropped, and the other buckets stay |
| CalendarStore.AppendKeepsIndex | Calendar_Class.py:64-73 | filing a fresh id under its date keeps the by-date index exact |
| CalendarStore.DetachKeepsIndex | Calendar_Class.py:162-178 | removing an id and its bucket entry keeps the index exact |
| CalendarStore.DetachKeepsProper | Calendar_Class.py:166-172 | after removal no bucket is empty or holds an id twice |
| CalendarStore.DetachKeepsNoStrays | Calendar_Class.py:166-172 | after removal every filed id is still stored under the date it is filed by |
| CalendarStore.DetachKeepsCovers | Calendar_Class.py:166-176 | after removal every stored id is still filed under its date |
| CalendarStore.MoveKeepsIndex | Calendar_Class.py:133-142 | moving an id from its old date's bucket to the end of the new one keeps the index exact |
| CalendarStore.BucketIsDate | Calendar_Class.py:97-98 | with the index exact, a bucket names exactly the ids stored with that date |
| CalendarStore.IssuedIdsIncrease | Calendar_Class.py:40-42 | the issued ids are three characters each, distinct and increasing |
| CalendarStore.IssuedIdReadsBack | Calendar_Class.py:40 | the i-th issued id reads back as the counter value i + 1 |
| CalendarStore.Leading | Calendar_Class.py:121-132 | the assignments before the date fail exactly on a blank new title, changing nothing then, and never touch the date, days, all-day flag or id |
| CalendarStore.Trailing | Calendar_Class.py:143-148 | the assignments after the date touch only the days and the all-day flag |
| CalendarStore.ThroughDate | Calendar_Class.py:121-142 | the date is assigned after the leading fields unless it is refused |
| CalendarStore.ApplyChanges | Calendar_Class.py:119-150 | an update fails with the title error exactly on a blank title, changing nothing; with the date error exactly on a blank differing date, leaving the title, times, description and recurrence fields assigned and nothing else changed; otherwise every given field is assigned |
| CalendarStore.NoChangesIsIdentity | Calendar_Class.py:119-150 | an update with no arguments changes nothing and fails on nothing |
| CalendarStore.AssignTitle | Calendar_Class.py:121-122 | the title setter runs only for a given title and refuses a blank one |
| CalendarStore.AssignTimes | Calendar_Class.py:123-128 | the given times and description are assigned and nothing else |
| CalendarStore.AssignRecurrence | Calendar_Class.py:129-132 | the given recurrence fields are assigned and nothing else |
| CalendarStore.AssignLeading | Calendar_Class.py:121-132 | the setter calls before the date end in the state `Leading` describes |
| CalendarStore.AssignThroughDate | Calendar_Class.py:121-142 | the setter calls up to the date end in the state `ThroughDate` describes |
| CalendarStore.AssignTrailing | Calendar_Class.py:143-148 | the setter calls after the date end in the state `Trailing` describes |
| CalendarStore.AddKeepsConsistent | Calendar_Class.py:64-73 | storing a new object under a fresh id and filing it keeps both dictionaries in step |
| CalendarStore.DeleteKeepsConsistent | Calendar_Class.py:162-178 | deleting a stored id from both dictionaries keeps them in step |
| CalendarStore.UpdateKeepsConsistent | Calendar_Class.py:133-142 | after an update changes one event's date and moves its id, the dictionaries stay in step |
| CalendarStore.MoveKeepsConsistent | Calendar_Class.py:133-142 | moving the id of the one event whose date changed keeps the dictionaries in step |
| CalendarStore.Calendar.constructor | Calendar_Class.py:17-27 | both dictionaries start empty, the counter at 1, the dates from the clock |
| CalendarStore.Calendar.GenerateEventId | Calendar_Class.py:29-42 | past 100 the call fails with "Maximum number of events (100) reached" and changes nothing; otherwise it answers the counter padded to three digits and advances the counter |
| CalendarStore.Calendar.AddEvent | Calendar_Class.py:44-73 | a fresh event holding the arguments is stored under the id, the id is appended to its date's bucket, and the index stays exact for a new id |
| CalendarStore.Calendar.Insert | Calendar_Class.py:64-73 | the event is stored under the id and filed under its date |
| CalendarStore.Calendar.File | Calendar_Class.py:71-73 | the id is appended to the bucket of the date, which is created when absent |
| CalendarStore.Calendar.GetEvent | Calendar_Class.py:75-85 | the object stored under the id, or nothing exactly when the id is unknown |
| CalendarStore.Calendar.EventsForDate | Calendar_Class.py:87-98 | nothing for an unknown date; otherwise at most one object per bucket id, the i-th being the object stored under the i-th bucket id that is still stored |
| CalendarStore.Calendar.MoveId | Calendar_Class.py:133-142 | the id leaves the old date's bucket and is appended to the new one |
| CalendarStore.Calendar.UpdateEvent | Calendar_Class.py:100-150 | an unknown id gives False and changes nothing; a known one gets the changes `ApplyChanges` describes, its id moves buckets when its date changes, no other event changes, and the index stays exact |
| CalendarStore.Calendar.Revise | Calendar_Class.py:119-150 | the setter calls and bucket move of an update on a stored event |
| CalendarStore.Calendar.Unfile | Calendar_Class.py:166-172 | the id leaves the date's bucket, and an emptied bucket is dropped |
| CalendarStore.Calendar.DeleteEvent | Calendar_Class.py:152-178 | the result is True exactly for a stored id, which leaves both dictionaries; otherwise nothing changes; the index stays exact |
| CalendarStore.EventsForDateExact | Calendar_Class.py:87-98 | with the index exact, the i-th event of a date is the object stored under the i-th id of its bucket, and the events are exactly the stored events carrying that date |
| CalendarStore.GetEventIsFiled | Calendar_Class.py:75-98 | with the index exact, a found event's id is in the bucket of its date and `get_events_for_date` of that date returns it |
| Scheduling.ValidateEventData | CalendarService.py:290-306 | valid exactly when the title is not blank, the date is not before today and a timed event has both times; each message exactly when its check is the first to fail |
| Scheduling.NewRow | CalendarService.py:112-131 | the row is one day long on the given date in storage format, has "All Day" times for an all-day event, and has a pattern exactly when recurring |
| Scheduling.Merge | CalendarService.py:211-233 | each given field replaces the stored one, a new date sets date and both days, and `is_all_day=True` overrides the times |
| Scheduling.NoEditsIsIdentity | CalendarService.py:211-233 | an update with no arguments leaves the row as it was |
| Scheduling.PastEventStaysLocked | CalendarService.py:236-244 | a stored event dated before today fails validation unless the date is edited |
| Scheduling.AllDayTimesSurviveUnsetting | CalendarService.py:225-244 | unsetting all-day keeps "All Day" as both times, and validation accepts them |
| Scheduling.ServiceFilterEvents | CalendarService.py:501-536 | the pass succeeds exactly when no event reaches `strptime` with a bad date, then gives the same events as the filter service with the storage format; otherwise it stops at such an event's date |
| Scheduling.NoneRaiseAll | CalendarService.py:512-523 | the event-by-event no-raise condition the loop keeps is the statement that no event makes `strptime` fail |
| Scheduling.CreatedRowsNeverRaise | CalendarService.py:112-131 | rows the service created never make its filter stop |
| Scheduling.CalendarService.constructor | CalendarService.py:48-49 | the service starts over the given rows |
| Scheduling.CalendarService.CreateEvent | CalendarService.py:74-141 | an invalid request gives the validation message and stores nothing; a positive id stores the shaped row under it with "Event created successfully!"; a non-positive id gives "Failed to save event to database"; a store error gives "Error creating event: " and its text |
| Scheduling.CalendarService.UpdateEvent | CalendarService.py:186-251 | an unknown id gives "Event not found"; an unparsable merged date stops with that date; a failed validation gives its message; a save stores the merged row with "Event updated successfully!"; a store error gives "Failed to update event: " and its text; only a save changes the store |
| Scheduling.CalendarService.DeleteEvent | CalendarService.py:253-269 | a deletion removes the row with "Event deleted successfully!"; a `ValueError` gives its own text; any other error gives "Failed to delete event: " and its text |
| Views.CalculateWeekStart | WeekViewService_Class.py:33-44 | the week start is a Sunday at most six days before the day, and a Sunday is its own week start |
| Views.SameWeekdayWithinWeek | WeekViewService_Class.py:43-44 | two days less than a week apart with the same weekday are the same day |
| Views.WeekStartIsLatestSunday | CalendarService.py:433-434 | the week start is the latest Sunday on or before the day |
| Views.WeekStartIdempotent | CalendarService.py:433-434 | the week start of a week start is itself |
| Views.WeekStartExample | WeekViewService_Class.py:43-44 | Monday 17 November 2025 has weekday 0 and its week starts on Sunday 16 November 2025 |
| Views.CalculateWeekDates | WeekViewService_Class.py:46-56 | seven days, the i-th being i days after the start |
| Views.WeekHoldsItsDay | CalendarService.py:436-446 | the week of a day holds the day and runs Sunday to Saturday |
| Views.WeekDatesExample | WeekViewService_Class.py:56 | the week of Sunday 16 November 2025 ends on Saturday 22 November 2025 |
| Views.HasEventsOnDate | WeekViewService_Class.py:79-90 | a day has events exactly when the store's query for its storage-format string answers some row |
| Views.HasEventsIffStoredOn | MonthViewService_Class.py:89-100 | over a store answering by date string, a day has events exactly when some stored row's date reads back as that day |
| Views.GetEventById | AgendaViewService_Class.py:80-93 | nothing exactly for an unknown id, else a stored row, which carries the asked id in a keyed store |
| Views.CreateKeepsKeyed | CalendarService.py:134-136 | storing a created row under its given id keeps the store keyed, and the lookup finds that row |
| Views.UpdateKeepsKeyed | CalendarService.py:246-249 | saving a merged row under its id keeps the store keyed |
| Views.DeleteKeepsKeyed | CalendarService.py:263-265 | deleting keeps the store keyed, and the lookup then finds nothing |

## Left out

- The GUI files, the SQLite repository and the entry script are not part of this model. The repository's queries (`get_events_for_month`, `get_events_for_date`) are function parameters, and its insert, update and delete are outcomes passed in (`InsertOutcome`, `SaveOutcome`, `DeleteOutcome`).
- `Scheduling.CalendarService.CreateEvent`: the store is assumed to keep nothing when it answers an id of zero or less.
- `Scheduling.CalendarService.UpdateEvent`: the `ValueError` that `strptime` raises on an unparsable stored date escapes the service; the model returns it as `Failure` carrying the date string.
- `Scheduling.ServiceFilterEvents`: in the same way, the `ValueError` is returned as `Failure`.
- The clock: `datetime.date.today()` is a `today` parameter.
- `Events.Event.SetEventId`, `Events.Event.SetTitle`, `Events.Event.SetDate`: the `TypeError` for a non-string value cannot arise under Dafny's typing. A refused value is returned as `Fail` instead of raised. The other setters' type checks are left out for the same reason.
- `Text.Lower` lowers the ASCII letters only; Unicode case mapping is left out.
- `Dates.ParseIso` and `Dates.ParseDmy` accept only the zero-padded fixed-width form. Python's `strptime` also accepts unpadded fields, and those inputs are not modelled. Dates are limited to years 1..9999, as in Python.
- `CalendarStore.Calendar.GetEvent` returns the stored object itself, as the source does. Aliasing by callers that hold it is not modelled beyond the `modifies` frames.
- `CalendarStore.Calendar.Revise` keeps the source's order (the setters after the date run after the bucket move); those setters do not touch the date or the index.
- `Views.CalculateWeekStart`, `Views.CalculateWeekDates`: day numbers are unbounded, so the `OverflowError` Python raises when a week reaches before 0001-01-01 or after 9999-12-31 (for example the week start of 0001-01-01, a Monday) is not modelled.
- `Window.SortByKey` is stable like Python's sort, but stability is not stated as a property.
- Month and week display names (`format_month_display_name`, `format_week_display_name`) are left out: they use locale month names.
- The `delete_all_recurring` argument that the agenda and day view services pass on is left out: `CalendarService.delete_event` takes no such parameter, so only single-row deletion is modelled.
- The day view service only delegates and is not part of this model. Recurrence-instance generation and series deletion appear in no modelled file.

## Findings

| source | as written | input that shows it | evidently intended | confidence | as-written member | corrected member |
|---|---|---|---|---|---|---|
| Filter_Service_Class.py:12 | `FilterService()` reads event dates with "%d-%m-%Y", but events are stored as "%Y-%m-%d" (CalendarService.py:48, 112), so the `strptime` fails and the date test returns False | any stored event, with both `from_date` and `to_date` set | read dates in the storage format, so the date test is `from <= date <= to` | high, not executed | Filtering.DefaultFormatDropsStoredEvents | Filtering.StorageFormatKeepsRange |
| Filter_Service_Class.py:202-203 | validation accepts any criteria showing at least one of the three types | `show_all_day=False, show_timed=False, show_recurring=True` | reject criteria that hide both all-day and timed events, since every event is one or the other | medium, not executed | Filtering.OnlyRecurringPassesButMatchesNothing | Filtering.ValidateFilterCriteriaCorrected |
