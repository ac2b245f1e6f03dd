/** The stored form of an event: the dictionary the repository returns and
    the scheduling service builds, which the view services turn field for
    field into an Event (`CalendarService._dict_to_event`). */
module Rows {
  import opened Wrappers

  datatype EventRow = EventRow(
    eventId: int,
    title: string,
    date: string,               // "%Y-%m-%d"
    startDay: string,
    endDay: string,
    startTime: string,
    endTime: string,
    description: string,
    isRecurring: bool,
    recurrencePattern: Option<string>,
    isAllDay: bool)
}
