/** The event record of `Event_Class.py`: a constructor that stores its
    arguments as given, and property setters that guard some of the fields. */
module Events {
  import opened Wrappers
  import opened Text

  /** The value of every field of an event at one moment, in the order the
      constructor takes them. */
  datatype EventData = EventData(
    eventId: string,
    title: string,
    date: string,
    startDay: string,
    endDay: string,
    startTime: string,
    endTime: string,
    description: string,
    isRecurring: bool,
    recurrencePattern: Option<string>,
    isAllDay: bool)

  const EmptyIdError := "Event ID cannot be empty"
  const EmptyTitleError := "Title cannot be empty"
  const EmptyDateError := "Date cannot be empty"

  /** The guard shared by the id, title and date setters: a value made only
      of whitespace (the empty string included) raises `ValueError` with the
      given message. */
  function CheckNotBlank(value: string, error: string): (o: Outcome<string>)
    ensures o.Pass? <==> !AllSpace(value)
    ensures o.Fail? ==> o.error == error
  {
    BlankIffAllSpace(value);
    if IsBlank(value) then Fail(error) else Pass
  }

  class Event {
    var eventId: string
    var title: string
    var date: string
    var startDay: string
    var endDay: string
    var startTime: string
    var endTime: string
    var description: string
    var isRecurring: bool
    var recurrencePattern: Option<string>
    var isAllDay: bool

    /** What the getters return at this moment. */
    function Snapshot(): EventData
      reads this
    {
      EventData(eventId, title, date, startDay, endDay, startTime, endTime,
                description, isRecurring, recurrencePattern, isAllDay)
    }

    /** Stores every argument as given: the constructor checks nothing, so a
        blank title or date is accepted here although the setters refuse it. */
    constructor(eventId: string, title: string, date: string, startDay: string, endDay: string,
                startTime: string, endTime: string, description: string, isRecurring: bool,
                recurrencePattern: Option<string>, isAllDay: bool)
      ensures Snapshot() == EventData(eventId, title, date, startDay, endDay, startTime, endTime,
                                      description, isRecurring, recurrencePattern, isAllDay)
    {
      this.eventId := eventId;
      this.title := title;
      this.date := date;
      this.startDay := startDay;
      this.endDay := endDay;
      this.startTime := startTime;
      this.endTime := endTime;
      this.description := description;
      this.isRecurring := isRecurring;
      this.recurrencePattern := recurrencePattern;
      this.isAllDay := isAllDay;
    }

    /** The `event_id` setter: a blank id is refused and the old id kept. */
    method SetEventId(value: string) returns (o: Outcome<string>)
      modifies this
      ensures o == CheckNotBlank(value, EmptyIdError)
      ensures o.Pass? ==> Snapshot() == old(Snapshot()).(eventId := value)
      ensures o.Fail? ==> Snapshot() == old(Snapshot())
    {
      o := CheckNotBlank(value, EmptyIdError);
      if o.Pass? {
        eventId := value;
      }
    }

    /** The `title` setter: a blank title is refused and the old title kept. */
    method SetTitle(value: string) returns (o: Outcome<string>)
      modifies this
      ensures o == CheckNotBlank(value, EmptyTitleError)
      ensures o.Pass? ==> Snapshot() == old(Snapshot()).(title := value)
      ensures o.Fail? ==> Snapshot() == old(Snapshot())
    {
      o := CheckNotBlank(value, EmptyTitleError);
      if o.Pass? {
        title := value;
      }
    }

    /** The `date` setter: a blank date is refused and the old date kept. */
    method SetDate(value: string) returns (o: Outcome<string>)
      modifies this
      ensures o == CheckNotBlank(value, EmptyDateError)
      ensures o.Pass? ==> Snapshot() == old(Snapshot()).(date := value)
      ensures o.Fail? ==> Snapshot() == old(Snapshot())
    {
      o := CheckNotBlank(value, EmptyDateError);
      if o.Pass? {
        date := value;
      }
    }

    /** The `start_day` setter assigns whatever it is given. */
    method SetStartDay(value: string)
      modifies this
      ensures Snapshot() == old(Snapshot()).(startDay := value)
    {
      startDay := value;
    }

    /** The `end_day` setter assigns whatever it is given. */
    method SetEndDay(value: string)
      modifies this
      ensures Snapshot() == old(Snapshot()).(endDay := value)
    {
      endDay := value;
    }

    /** The `start_time` setter accepts any string, the empty one included. */
    method SetStartTime(value: string)
      modifies this
      ensures Snapshot() == old(Snapshot()).(startTime := value)
    {
      startTime := value;
    }

    /** The `end_time` setter accepts any string, the empty one included. */
    method SetEndTime(value: string)
      modifies this
      ensures Snapshot() == old(Snapshot()).(endTime := value)
    {
      endTime := value;
    }

    /** The `description` setter accepts any string, the empty one included. */
    method SetDescription(value: string)
      modifies this
      ensures Snapshot() == old(Snapshot()).(description := value)
    {
      description := value;
    }

    /** The `is_recurring` setter accepts any boolean. */
    method SetIsRecurring(value: bool)
      modifies this
      ensures Snapshot() == old(Snapshot()).(isRecurring := value)
    {
      isRecurring := value;
    }

    /** The `recurrence_pattern` setter accepts a string or nothing. */
    method SetRecurrencePattern(value: Option<string>)
      modifies this
      ensures Snapshot() == old(Snapshot()).(recurrencePattern := value)
    {
      recurrencePattern := value;
    }

    /** The `is_all_day` setter accepts any boolean. */
    method SetIsAllDay(value: bool)
      modifies this
      ensures Snapshot() == old(Snapshot()).(isAllDay := value)
    {
      isAllDay := value;
    }
  }
}
