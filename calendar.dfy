/** The in-memory event store of `Calendar_Class.py`: a dictionary from id
    to `Event` object, a second dictionary from date string to the list of
    ids on that date, and a bounded counter that issues ids "001" to "100". */
module CalendarStore {
  import opened Wrappers
  import opened Text
  import opened Dates
  import opened Events

  // ---------------------------------------------------------------------
  // Lists of ids
  // ---------------------------------------------------------------------

  predicate NoDuplicates(s: seq<string>) {
    forall i, j :: 0 <= i < j < |s| ==> s[i] != s[j]
  }

  /** `list.remove(x)` on a list that holds `x`, and the list itself when it
      does not: only the first copy of `x` goes, the rest keeps its order. */
  function RemoveFirst(s: seq<string>, x: string): (r: seq<string>)
    ensures x !in s ==> r == s
    ensures x in s ==> |r| == |s| - 1
    ensures multiset(r) == multiset(s) - multiset{x}
  {
    if s == [] then []
    else if s[0] == x then
      assert s == [s[0]] + s[1..];
      s[1..]
    else
      assert s == [s[0]] + s[1..];
      [s[0]] + RemoveFirst(s[1..], x)
  }

  /** Every other id stays, and nothing new appears. */
  lemma RemoveFirstMembers(s: seq<string>, x: string)
    ensures forall y :: y in RemoveFirst(s, x) ==> y in s
    ensures forall y :: y in s && y != x ==> y in RemoveFirst(s, x)
  {
    var r := RemoveFirst(s, x);
    forall y | y in r
      ensures y in s
    {
      assert multiset(r)[y] > 0;
    }
    forall y | y in s && y != x
      ensures y in r
    {
      assert multiset(s)[y] > 0;
      assert multiset(r)[y] == multiset(s)[y];
    }
  }

  /** The position of the first copy of `x` (`list.index(x)`). */
  function FirstAt(s: seq<string>, x: string): (i: nat)
    requires x in s
    ensures i < |s| && s[i] == x && x !in s[..i]
  {
    if s[0] == x then 0
    else
      assert s[1..][..FirstAt(s[1..], x)] == s[1..FirstAt(s[1..], x) + 1];
      FirstAt(s[1..], x) + 1
  }

  /** Cutting position `j + 1` out of `s` keeps the head and cuts
      position `j` out of the tail. */
  lemma CutBehindHead(s: seq<string>, j: nat)
    requires j + 1 < |s|
    ensures s[..j + 1] + s[j + 2..] == [s[0]] + (s[1..][..j] + s[1..][j + 1..])
  {
    assert s[..j + 1] == [s[0]] + s[1..][..j];
    assert s[j + 2..] == s[1..][j + 1..];
  }

  /** Where a copy of `x` is present, the result is the list with its
      first copy cut out: the ids before it and the ids after it, each
      part in its old order. */
  lemma {:induction false} RemoveFirstSplices(s: seq<string>, x: string)
    requires x in s
    ensures RemoveFirst(s, x) == s[..FirstAt(s, x)] + s[FirstAt(s, x) + 1..]
  {
    if s[0] == x {
      assert s[..0] == [];
    } else {
      RemoveFirstSplices(s[1..], x);
      CutBehindHead(s, FirstAt(s[1..], x));
    }
  }

  /** A list with a head has no repeats when its tail has none and does
      not hold the head. */
  lemma NoDuplicatesCons(x: string, t: seq<string>)
    ensures NoDuplicates([x] + t) <==> x !in t && NoDuplicates(t)
  {
    var s := [x] + t;
    assert forall k | 0 <= k < |t| :: s[k + 1] == t[k];
    if NoDuplicates(s) {
      forall k | 0 <= k < |t|
        ensures t[k] != x
      {
        assert s[0] != s[k + 1];
      }
    }
  }

  /** From a list without repeats, `remove` takes out the only copy. */
  lemma {:induction false} RemoveFirstNoDuplicates(s: seq<string>, x: string)
    requires NoDuplicates(s)
    ensures NoDuplicates(RemoveFirst(s, x)) && x !in RemoveFirst(s, x)
  {
    if s != [] {
      assert s == [s[0]] + s[1..];
      NoDuplicatesCons(s[0], s[1..]);
      if s[0] != x {
        RemoveFirstNoDuplicates(s[1..], x);
        RemoveFirstMembers(s[1..], x);
        NoDuplicatesCons(s[0], RemoveFirst(s[1..], x));
      }
    }
  }

  /** The objects the ids of `ids` name in `m`, as a set. */
  ghost function Named(ids: seq<string>, m: map<string, Event>): set<Event> {
    set id | id in ids && id in m :: m[id]
  }

  /** The ids of `ids` that `m` holds, in list order. */
  function StoredIds(ids: seq<string>, m: map<string, Event>): (k: seq<string>)
    ensures |k| <= |ids|
    ensures forall id :: id in k <==> id in ids && id in m
    ensures (forall id :: id in ids ==> id in m) ==> k == ids
  {
    if ids == [] then []
    else
      var init := ids[..|ids| - 1];
      var last := ids[|ids| - 1];
      assert ids == init + [last];
      if last in m then StoredIds(init, m) + [last] else StoredIds(init, m)
  }

  /** The objects the ids of `ids` name in `m`, in list order, skipping the
      ids `m` no longer holds (the comprehension of `get_events_for_date`). */
  function Present(ids: seq<string>, m: map<string, Event>): (r: seq<Event>)
    ensures |r| == |StoredIds(ids, m)| <= |ids|
    ensures forall i | 0 <= i < |r| :: StoredIds(ids, m)[i] in m && r[i] == m[StoredIds(ids, m)[i]]
    ensures forall id :: id in ids && id in m ==> m[id] in r
    ensures forall i :: 0 <= i < |r| ==> r[i] in Named(ids, m)
    ensures (forall id :: id in ids ==> id in m) ==>
              |r| == |ids| && forall i :: 0 <= i < |ids| ==> r[i] == m[ids[i]]
  {
    if ids == [] then []
    else
      var init := ids[..|ids| - 1];
      var rest := Present(init, m);
      var last := ids[|ids| - 1];
      assert ids == init + [last];
      assert Named(init, m) <= Named(ids, m);
      if last in m then rest + [m[last]] else rest
  }

  // ---------------------------------------------------------------------
  // The by-date index as a value
  // ---------------------------------------------------------------------

  /** The bucket of date `d`, empty when there is none (`dict.get(d, [])`). */
  function Bucket(byDate: map<string, seq<string>>, d: string): (r: seq<string>)
    ensures d !in byDate ==> r == []
    ensures r != [] ==> d in byDate && r == byDate[d]
  {
    if d in byDate then byDate[d] else []
  }

  /** `events_by_date` agrees with the event dates `dates` (id to date): an
      id is in the bucket of `d` exactly when its event is dated `d`, no
      bucket holds an id twice, and no bucket is empty. */
  ghost predicate IndexOf(dates: map<string, string>, byDate: map<string, seq<string>>) {
    BucketsProper(byDate) && NoStrays(dates, byDate) && Covers(dates, byDate)
  }

  /** No bucket is empty or holds an id twice. */
  ghost predicate BucketsProper(byDate: map<string, seq<string>>) {
    forall d :: d in byDate ==> byDate[d] != [] && NoDuplicates(byDate[d])
  }

  /** Every filed id is stored, under the date it is filed by. */
  ghost predicate NoStrays(dates: map<string, string>, byDate: map<string, seq<string>>) {
    forall d, id :: d in byDate && id in byDate[d] ==> id in dates && dates[id] == d
  }

  /** Every stored id is filed under its date. */
  ghost predicate Covers(dates: map<string, string>, byDate: map<string, seq<string>>) {
    forall id :: id in dates ==> dates[id] in byDate && id in byDate[dates[id]]
  }

  /** Appending `id` to the bucket of `d`, creating the bucket if absent. */
  function Appended(byDate: map<string, seq<string>>, d: string, id: string): (r: map<string, seq<string>>)
    ensures r.Keys == byDate.Keys + {d}
    ensures r[d] == Bucket(byDate, d) + [id]
    ensures forall e :: e in byDate && e != d ==> r[e] == byDate[e]
  {
    byDate[d := Bucket(byDate, d) + [id]]
  }

  /** What `delete_event` does to the bucket of `d`: remove `id` if it is
      there, then drop the bucket if it is empty. */
  function Detached(byDate: map<string, seq<string>>, d: string, id: string): (r: map<string, seq<string>>)
    ensures d !in byDate ==> r == byDate
    ensures d in byDate ==>
      var b := RemoveFirst(byDate[d], id);
      && (b == [] ==> r == byDate - {d})
      && (b != [] ==> r == byDate[d := b])
  {
    if d in byDate then
      var b := RemoveFirst(byDate[d], id);
      if b == [] then byDate - {d} else byDate[d := b]
    else byDate
  }

  /** What `update_event` does to the old bucket when the date changes: the
      same as `Detached`, but only when the bucket holds the id. */
  function Unlinked(byDate: map<string, seq<string>>, d: string, id: string): map<string, seq<string>> {
    if d in byDate && id in byDate[d] then Detached(byDate, d, id) else byDate
  }

  /** Filing a fresh id under its date keeps the index exact. */
  lemma AppendKeepsIndex(dates: map<string, string>, byDate: map<string, seq<string>>, id: string, d: string)
    requires IndexOf(dates, byDate)
    requires id !in dates
    ensures IndexOf(dates[id := d], Appended(byDate, d, id))
  {
    var r := Appended(byDate, d, id);
    var nd := dates[id := d];
    assert id !in Bucket(byDate, d);
    forall e | e in r
      ensures r[e] != [] && NoDuplicates(r[e])
    {
      if e == d {
        assert r[e] == Bucket(byDate, d) + [id];
      }
    }
    forall e, x | e in r && x in r[e]
      ensures x in nd && nd[x] == e
    {
      if e == d && x !in Bucket(byDate, d) {
        assert x == id;
      }
    }
  }

  /** Removing an id from its bucket, together with its date, keeps the
      index exact, empty buckets dropped. */
  lemma DetachKeepsIndex(dates: map<string, string>, byDate: map<string, seq<string>>, id: string)
    requires IndexOf(dates, byDate)
    requires id in dates
    ensures IndexOf(dates - {id}, Detached(byDate, dates[id], id))
  {
    var d := dates[id];
    RemoveFirstMembers(byDate[d], id);
    RemoveFirstNoDuplicates(byDate[d], id);
    DetachKeepsProper(byDate, d, id);
    DetachKeepsNoStrays(dates, byDate, id);
    DetachKeepsCovers(dates, byDate, id);
  }

  lemma DetachKeepsProper(byDate: map<string, seq<string>>, d: string, id: string)
    requires BucketsProper(byDate)
    ensures BucketsProper(Detached(byDate, d, id))
  {
    if d in byDate {
      RemoveFirstNoDuplicates(byDate[d], id);
    }
  }

  lemma DetachKeepsNoStrays(dates: map<string, string>, byDate: map<string, seq<string>>, id: string)
    requires NoStrays(dates, byDate) && BucketsProper(byDate) && Covers(dates, byDate) && id in dates
    ensures NoStrays(dates - {id}, Detached(byDate, dates[id], id))
  {
    var d := dates[id];
    var b := RemoveFirst(byDate[d], id);
    RemoveFirstMembers(byDate[d], id);
    RemoveFirstNoDuplicates(byDate[d], id);
    var r := Detached(byDate, d, id);
    forall e, x | e in r && x in r[e]
      ensures x in dates - {id} && dates[x] == e
    {
      if e == d {
        assert x in b && x in byDate[d] && x != id;
      } else {
        assert r[e] == byDate[e];
      }
    }
  }

  lemma DetachKeepsCovers(dates: map<string, string>, byDate: map<string, seq<string>>, id: string)
    requires Covers(dates, byDate) && id in dates
    ensures Covers(dates - {id}, Detached(byDate, dates[id], id))
  {
    var d := dates[id];
    var b := RemoveFirst(byDate[d], id);
    RemoveFirstMembers(byDate[d], id);
    var r := Detached(byDate, d, id);
    forall x | x in dates - {id}
      ensures dates[x] in r && x in r[dates[x]]
    {
      if dates[x] == d {
        assert x in byDate[d] && x in b;
      } else {
        assert r[dates[x]] == byDate[dates[x]];
      }
    }
  }

  /** Moving an id from the bucket of its old date to the end of the bucket
      of a different new date keeps the index exact. */
  lemma MoveKeepsIndex(dates: map<string, string>, byDate: map<string, seq<string>>, id: string, newDate: string)
    requires IndexOf(dates, byDate)
    requires id in dates && dates[id] != newDate
    ensures IndexOf(dates[id := newDate], Appended(Unlinked(byDate, dates[id], id), newDate, id))
  {
    DetachKeepsIndex(dates, byDate, id);
    assert Unlinked(byDate, dates[id], id) == Detached(byDate, dates[id], id);
    AppendKeepsIndex(dates - {id}, Detached(byDate, dates[id], id), id, newDate);
    assert (dates - {id})[id := newDate] == dates[id := newDate];
  }

  /** When the index is exact, a date's bucket names exactly the ids dated
      that day. */
  lemma BucketIsDate(dates: map<string, string>, byDate: map<string, seq<string>>, d: string)
    requires IndexOf(dates, byDate)
    ensures forall id :: id in Bucket(byDate, d) <==> id in dates && dates[id] == d
    ensures forall id :: id in Bucket(byDate, d) ==> id in dates
  {
  }

  // ---------------------------------------------------------------------
  // Event ids
  // ---------------------------------------------------------------------

  const MaxEvents := 100
  const MaxEventsError := "Maximum number of events (100) reached"

  /** The ids a fresh calendar issues, in order: "001", "002", ... */
  ghost predicate IssuedInOrder(issued: seq<string>) {
    && |issued| <= MaxEvents
    && forall i :: 0 <= i < |issued| ==> issued[i] == Pad(i + 1, 3)
  }

  /** The issued ids are three digits each and strictly increasing as
      strings, hence pairwise distinct. */
  lemma IssuedIdsIncrease(issued: seq<string>)
    requires IssuedInOrder(issued)
    ensures forall i :: 0 <= i < |issued| ==> |issued[i]| == 3
    ensures forall i, j :: 0 <= i < j < |issued| ==> StrLt(issued[i], issued[j]) && issued[i] != issued[j]
  {
    forall i, j | 0 <= i < j < |issued|
      ensures StrLt(issued[i], issued[j]) && issued[i] != issued[j]
    {
      PadOrder(i + 1, j + 1, 3);
      StrLtIrreflexive(issued[i]);
    }
  }

  /** The id "001".."100" names its counter value: reading it back gives
      the number it was issued for. */
  lemma IssuedIdReadsBack(issued: seq<string>, i: nat)
    requires IssuedInOrder(issued) && i < |issued|
    ensures ParseDigits(issued[i]) == Some(i + 1)
  {
    DigitsOfPad(i + 1, 3);
  }

  // ---------------------------------------------------------------------
  // update_event arguments
  // ---------------------------------------------------------------------

  /** The keyword arguments of `update_event`; `None` leaves a field alone. */
  datatype Changes = Changes(
    title: Option<string>,
    startTime: Option<string>,
    endTime: Option<string>,
    description: Option<string>,
    isRecurring: Option<bool>,
    recurrencePattern: Option<string>,
    date: Option<string>,
    startDay: Option<string>,
    endDay: Option<string>,
    isAllDay: Option<bool>)

  const NoChanges := Changes(None, None, None, None, None, None, None, None, None, None)

  function OrElse<T>(o: Option<T>, d: T): T {
    if o.Some? then o.value else d
  }

  /** The event after `update_event` has assigned the changes one field at
      a time, and the error a setter raised on the way, if any. */
  datatype Applied = Applied(data: EventData, error: Option<string>)

  /** The assignments `update_event` makes before it looks at the date: a
      blank new title raises before anything is assigned, then the times,
      description and recurrence fields take their new values. */
  function Leading(d: EventData, ch: Changes): (r: Applied)
    ensures r.error.Some? <==> ch.title.Some? && IsBlank(ch.title.value)
    ensures r.error.Some? ==> r == Applied(d, Some(EmptyTitleError))
    ensures r.data.date == d.date && r.data.startDay == d.startDay && r.data.endDay == d.endDay
    ensures r.data.isAllDay == d.isAllDay && r.data.eventId == d.eventId
  {
    if ch.title.Some? && IsBlank(ch.title.value) then Applied(d, Some(EmptyTitleError))
    else
      Applied(d.(title := OrElse(ch.title, d.title),
                 startTime := OrElse(ch.startTime, d.startTime),
                 endTime := OrElse(ch.endTime, d.endTime),
                 description := OrElse(ch.description, d.description),
                 isRecurring := OrElse(ch.isRecurring, d.isRecurring),
                 recurrencePattern := if ch.recurrencePattern.Some? then ch.recurrencePattern else d.recurrencePattern),
              None)
  }

  /** The assignments `update_event` makes after the date; none can raise. */
  function Trailing(d: EventData, ch: Changes): (r: EventData)
    ensures r.(startDay := d.startDay, endDay := d.endDay, isAllDay := d.isAllDay) == d
  {
    d.(startDay := OrElse(ch.startDay, d.startDay),
       endDay := OrElse(ch.endDay, d.endDay),
       isAllDay := OrElse(ch.isAllDay, d.isAllDay))
  }

  /** A new date is only assigned when it differs from the current one, and
      a blank one then raises. */
  predicate DateRefused(d: EventData, ch: Changes) {
    ch.date.Some? && ch.date.value != d.date && IsBlank(ch.date.value)
  }

  /** The assignments of `update_event` up to and including the date. */
  function ThroughDate(d: EventData, ch: Changes): (r: Applied)
    ensures r.error.None? ==> r.data == Leading(d, ch).data.(date := OrElse(ch.date, d.date))
    ensures r.error.Some? ==> r.data == Leading(d, ch).data
  {
    var lead := Leading(d, ch);
    if lead.error.Some? then lead
    else if DateRefused(d, ch) then Applied(lead.data, Some(EmptyDateError))
    else Applied(lead.data.(date := OrElse(ch.date, d.date)), None)
  }

  /** The field-by-field assignment of `update_event`: the leading fields,
      then the date, then the trailing fields. A blank new date raises after
      the leading fields have been assigned and before the rest. */
  function ApplyChanges(d: EventData, ch: Changes): (r: Applied)
    ensures r.error == Some(EmptyTitleError) <==> ch.title.Some? && IsBlank(ch.title.value)
    ensures r.error == Some(EmptyTitleError) ==> r.data == d
    ensures r.error == Some(EmptyDateError) <==>
      !(ch.title.Some? && IsBlank(ch.title.value)) && DateRefused(d, ch)
    ensures r.error.Some? ==> r.error == Some(EmptyTitleError) || r.error == Some(EmptyDateError)
    ensures r.error == Some(EmptyDateError) ==>
      r.data == d.(title := OrElse(ch.title, d.title),
                   startTime := OrElse(ch.startTime, d.startTime),
                   endTime := OrElse(ch.endTime, d.endTime),
                   description := OrElse(ch.description, d.description),
                   isRecurring := OrElse(ch.isRecurring, d.isRecurring),
                   recurrencePattern := if ch.recurrencePattern.Some? then ch.recurrencePattern else d.recurrencePattern)
    ensures r.error.None? ==>
      && r.data.eventId == d.eventId
      && r.data.title == OrElse(ch.title, d.title)
      && r.data.date == OrElse(ch.date, d.date)
      && r.data.startDay == OrElse(ch.startDay, d.startDay)
      && r.data.endDay == OrElse(ch.endDay, d.endDay)
      && r.data.startTime == OrElse(ch.startTime, d.startTime)
      && r.data.endTime == OrElse(ch.endTime, d.endTime)
      && r.data.description == OrElse(ch.description, d.description)
      && r.data.isRecurring == OrElse(ch.isRecurring, d.isRecurring)
      && r.data.recurrencePattern == (if ch.recurrencePattern.Some? then ch.recurrencePattern else d.recurrencePattern)
      && r.data.isAllDay == OrElse(ch.isAllDay, d.isAllDay)
  {
    var upToDate := ThroughDate(d, ch);
    if upToDate.error.Some? then upToDate else Applied(Trailing(upToDate.data, ch), None)
  }

  /** An update with no arguments changes nothing and raises nothing. */
  lemma NoChangesIsIdentity(d: EventData)
    ensures ApplyChanges(d, NoChanges) == Applied(d, None)
  {
  }

  // ---------------------------------------------------------------------
  // The setter calls of update_event
  // ---------------------------------------------------------------------

  /** The title step of `update_event`: a given title goes through the
      guarded setter. */
  method AssignTitle(event: Event, title: Option<string>) returns (o: Outcome<string>)
    modifies event
    ensures title.None? ==> o == Pass && event.Snapshot() == old(event.Snapshot())
    ensures title.Some? ==> o == CheckNotBlank(title.value, EmptyTitleError)
    ensures o.Fail? ==> event.Snapshot() == old(event.Snapshot())
    ensures title.Some? && o.Pass? ==> event.Snapshot() == old(event.Snapshot()).(title := title.value)
  {
    o := Pass;
    if title.Some? {
      o := event.SetTitle(title.value);
    }
  }

  /** The time and description steps of `update_event`. */
  method AssignTimes(event: Event, ch: Changes)
    modifies event
    ensures var d := old(event.Snapshot());
      event.Snapshot() == d.(startTime := OrElse(ch.startTime, d.startTime),
                             endTime := OrElse(ch.endTime, d.endTime),
                             description := OrElse(ch.description, d.description))
  {
    if ch.startTime.Some? {
      event.SetStartTime(ch.startTime.value);
    }
    if ch.endTime.Some? {
      event.SetEndTime(ch.endTime.value);
    }
    if ch.description.Some? {
      event.SetDescription(ch.description.value);
    }
  }

  /** The recurrence steps of `update_event`. */
  method AssignRecurrence(event: Event, ch: Changes)
    modifies event
    ensures var d := old(event.Snapshot());
      event.Snapshot() == d.(isRecurring := OrElse(ch.isRecurring, d.isRecurring),
                             recurrencePattern := if ch.recurrencePattern.Some? then ch.recurrencePattern else d.recurrencePattern)
  {
    if ch.isRecurring.Some? {
      event.SetIsRecurring(ch.isRecurring.value);
    }
    if ch.recurrencePattern.Some? {
      event.SetRecurrencePattern(ch.recurrencePattern);
    }
  }

  /** The setter calls `update_event` makes before the date. */
  method AssignLeading(event: Event, ch: Changes) returns (o: Outcome<string>)
    modifies event
    ensures var lead := Leading(old(event.Snapshot()), ch);
      && event.Snapshot() == lead.data
      && (lead.error.None? <==> o.Pass?)
      && (lead.error.Some? ==> o == Fail(lead.error.value))
  {
    o := AssignTitle(event, ch.title);
    if o.Fail? {
      return;
    }
    AssignTimes(event, ch);
    AssignRecurrence(event, ch);
  }

  /** The setter calls `update_event` makes up to and including the date:
      the date setter only runs for a date that differs from the current. */
  method AssignThroughDate(event: Event, ch: Changes) returns (o: Outcome<string>)
    modifies event
    ensures var upToDate := ThroughDate(old(event.Snapshot()), ch);
      && event.Snapshot() == upToDate.data
      && (upToDate.error.None? <==> o.Pass?)
      && (upToDate.error.Some? ==> o == Fail(upToDate.error.value))
  {
    o := AssignLeading(event, ch);
    if o.Pass? && ch.date.Some? && ch.date.value != event.date {
      o := event.SetDate(ch.date.value);
    }
  }

  /** The setter calls `update_event` makes after the date. */
  method AssignTrailing(event: Event, ch: Changes)
    modifies event
    ensures event.Snapshot() == Trailing(old(event.Snapshot()), ch)
  {
    if ch.startDay.Some? {
      event.SetStartDay(ch.startDay.value);
    }
    if ch.endDay.Some? {
      event.SetEndDay(ch.endDay.value);
    }
    if ch.isAllDay.Some? {
      event.SetIsAllDay(ch.isAllDay.value);
    }
  }

  // ---------------------------------------------------------------------
  // The index over stored objects
  // ---------------------------------------------------------------------

  /** Distinct ids hold distinct objects. */
  predicate Injective(events: map<string, Event>) {
    forall a, b :: a in events && b in events && a != b ==> events[a] != events[b]
  }

  /** The date each stored event carries, by id. */
  function DatesOf(events: map<string, Event>): map<string, string>
    reads events.Values
  {
    map id | id in events :: events[id].date
  }

  /** The two dictionaries agree: distinct ids hold distinct objects and
      `byDate` is the exact index of their dates. */
  ghost predicate Consistent(events: map<string, Event>, byDate: map<string, seq<string>>)
    reads events.Values
  {
    Injective(events) && IndexOf(DatesOf(events), byDate)
  }

  /** Storing a new object under a fresh id and filing the id under the
      object's date keeps the dictionaries consistent. */
  lemma AddKeepsConsistent(events: map<string, Event>, byDate: map<string, seq<string>>, id: string, e: Event)
    requires Consistent(events, byDate)
    requires id !in events && e !in events.Values
    ensures Consistent(events[id := e], Appended(byDate, e.date, id))
  {
    assert DatesOf(events[id := e]) == DatesOf(events)[id := e.date];
    AppendKeepsIndex(DatesOf(events), byDate, id, e.date);
  }

  /** Dropping a stored id from `events` and from its date's bucket keeps
      the dictionaries consistent. */
  lemma DeleteKeepsConsistent(events: map<string, Event>, byDate: map<string, seq<string>>, id: string)
    requires Consistent(events, byDate)
    requires id in events
    ensures Consistent(events - {id}, Detached(byDate, events[id].date, id))
  {
    assert DatesOf(events - {id}) == DatesOf(events) - {id};
    DetachKeepsIndex(DatesOf(events), byDate, id);
  }

  /** When only the object stored under `id` has a date other than the
      one recorded in `oldDates`, refiling `id` under its new date (or
      leaving the buckets alone when the date is the same) keeps the
      dictionaries consistent. */
  lemma UpdateKeepsConsistent(events: map<string, Event>, byDate: map<string, seq<string>>,
                              oldDates: map<string, string>, id: string, newByDate: map<string, seq<string>>)
    requires Injective(events) && IndexOf(oldDates, byDate) && id in events
    requires oldDates.Keys == events.Keys
    requires forall k | k in events && k != id :: events[k].date == oldDates[k]
    requires newByDate == (if events[id].date == oldDates[id] then byDate
                           else Appended(Unlinked(byDate, oldDates[id], id), events[id].date, id))
    ensures Consistent(events, newByDate)
  {
    var dates := DatesOf(events);
    var restored := dates[id := oldDates[id]];
    assert restored.Keys == oldDates.Keys;
    assert forall k | k in restored :: restored[k] == oldDates[k];
    if events[id].date != oldDates[id] {
      MoveKeepsConsistent(events, byDate, oldDates, id);
    } else {
      assert restored == dates;
    }
  }

  /** After a stored object's date has changed from `oldDate`, and nothing
      else stored has, moving its id between buckets restores consistency. */
  lemma MoveKeepsConsistent(events: map<string, Event>, byDate: map<string, seq<string>>,
                            oldDates: map<string, string>, id: string)
    requires Injective(events) && IndexOf(oldDates, byDate)
    requires id in events && id in oldDates
    requires oldDates == DatesOf(events)[id := oldDates[id]]
    requires oldDates[id] != events[id].date
    ensures Consistent(events, Appended(Unlinked(byDate, oldDates[id], id), events[id].date, id))
  {
    MoveKeepsIndex(oldDates, byDate, id, events[id].date);
    assert oldDates[id := events[id].date] == DatesOf(events);
  }

  // ---------------------------------------------------------------------
  // The store
  // ---------------------------------------------------------------------

  class Calendar {
    var currentMonth: int
    var currentDate: Date
    var events: map<string, Event>
    var eventsByDate: map<string, seq<string>>
    var nextEventId: int
    /** The ids `GenerateEventId` has handed out so far. */
    ghost var issued: seq<string>

    /** `events` and `eventsByDate` agree. */
    ghost predicate Indexed()
      reads this, events.Values
    {
      Consistent(events, eventsByDate)
    }

    /** The id counter sits in 1..101 and has issued "001" up to the id
        before it. */
    ghost predicate Counting()
      reads this
    {
      && 1 <= nextEventId <= MaxEvents + 1
      && |issued| == nextEventId - 1
      && IssuedInOrder(issued)
    }

    /** `Calendar()` with the clock read passed in as `today`. */
    constructor(today: Date)
      ensures currentDate == today && currentMonth == today.month
      ensures events == map[] && eventsByDate == map[] && nextEventId == 1
      ensures Indexed() && Counting()
    {
      currentMonth := today.month;
      currentDate := today;
      events := map[];
      eventsByDate := map[];
      nextEventId := 1;
      issued := [];
    }

    /** `generate_event_id`: the counter zero-padded to three digits, then
        the counter moves on by one; past 100 it raises and stays put. */
    method GenerateEventId() returns (r: Result<string, string>)
      requires Counting()
      modifies this
      ensures Counting()
      ensures old(nextEventId) > MaxEvents ==>
        r == Failure(MaxEventsError) && nextEventId == old(nextEventId) && issued == old(issued)
      ensures old(nextEventId) <= MaxEvents ==>
        && r == Success(Pad(old(nextEventId), 3))
        && nextEventId == old(nextEventId) + 1
        && issued == old(issued) + [r.value]
      ensures events == old(events) && eventsByDate == old(eventsByDate)
      ensures currentDate == old(currentDate) && currentMonth == old(currentMonth)
    {
      if nextEventId > MaxEvents {
        return Failure(MaxEventsError);
      }
      r := Success(Pad(nextEventId, 3));
      issued := issued + [r.value];
      nextEventId := nextEventId + 1;
    }

    /** `add_event`: a new `Event` under `eventId`, and the id appended to
        its date's bucket. With a fresh id the index stays exact. */
    method AddEvent(eventId: string, title: string, date: string, startDay: string, endDay: string,
                    startTime: string, endTime: string, description: string, isRecurring: bool,
                    recurrencePattern: Option<string>, isAllDay: bool)
      modifies this
      ensures eventId in events && fresh(events[eventId])
      ensures events == old(events)[eventId := events[eventId]]
      ensures events[eventId].Snapshot() == EventData(eventId, title, date, startDay, endDay, startTime,
                                                       endTime, description, isRecurring, recurrencePattern, isAllDay)
      ensures eventsByDate == Appended(old(eventsByDate), date, eventId)
      ensures nextEventId == old(nextEventId) && issued == old(issued)
      ensures currentDate == old(currentDate) && currentMonth == old(currentMonth)
      ensures old(Indexed()) && eventId !in old(events) ==> Indexed()
    {
      var e := new Event(eventId, title, date, startDay, endDay, startTime, endTime,
                         description, isRecurring, recurrencePattern, isAllDay);
      Insert(eventId, e);
    }

    /** Stores `e` under `eventId` and files the id under the date of `e`.
        An id and an object the store did not hold keep the index exact. */
    method Insert(eventId: string, e: Event)
      modifies this
      ensures events == old(events)[eventId := e]
      ensures eventsByDate == Appended(old(eventsByDate), e.date, eventId)
      ensures nextEventId == old(nextEventId) && issued == old(issued)
      ensures currentDate == old(currentDate) && currentMonth == old(currentMonth)
      ensures old(Indexed()) && eventId !in old(events) && e !in old(events.Values) ==> Indexed()
    {
      if Indexed() && eventId !in events && e !in events.Values {
        AddKeepsConsistent(events, eventsByDate, eventId, e);
      }
      events := events[eventId := e];
      File(eventId, e.date);
    }

    /** Appends `eventId` to the bucket of `date`, creating the bucket when
        there is none, as `add_event` does. */
    method File(eventId: string, date: string)
      modifies this
      ensures eventsByDate == Appended(old(eventsByDate), date, eventId)
      ensures events == old(events) && nextEventId == old(nextEventId) && issued == old(issued)
      ensures currentDate == old(currentDate) && currentMonth == old(currentMonth)
    {
      var bucket := if date in eventsByDate then eventsByDate[date] else [];
      eventsByDate := eventsByDate[date := bucket + [eventId]];
    }

    /** `get_event`: the stored object, or nothing for an unknown id. */
    function GetEvent(eventId: string): (r: Option<Event>)
      reads this
      ensures r.None? <==> eventId !in events
      ensures r.Some? ==> r.value in events.Values && r.value == events[eventId]
    {
      if eventId in events then Some(events[eventId]) else None
    }

    /** `get_events_for_date`: the events of the date's bucket, in bucket
        order, that `events` still holds. */
    function EventsForDate(dateStr: string): (r: seq<Event>)
      reads this
      ensures dateStr !in eventsByDate ==> r == []
      ensures forall e :: e in r ==> e in events.Values
      ensures |r| <= |Bucket(eventsByDate, dateStr)|
      ensures |r| == |StoredIds(Bucket(eventsByDate, dateStr), events)|
      ensures forall i | 0 <= i < |r| ::
        var id := StoredIds(Bucket(eventsByDate, dateStr), events)[i];
        id in Bucket(eventsByDate, dateStr) && id in events && r[i] == events[id]
    {
      Present(Bucket(eventsByDate, dateStr), events)
    }

    /** Files `eventId` under `newDate` instead of `oldDate`, as the date
        branch of `update_event` does. */
    method MoveId(eventId: string, oldDate: string, newDate: string)
      modifies this
      ensures eventsByDate == Appended(Unlinked(old(eventsByDate), oldDate, eventId), newDate, eventId)
      ensures events == old(events) && nextEventId == old(nextEventId) && issued == old(issued)
      ensures currentDate == old(currentDate) && currentMonth == old(currentMonth)
    {
      if oldDate in eventsByDate && eventId in eventsByDate[oldDate] {
        Unfile(eventId, oldDate);
      }
      File(eventId, newDate);
    }

    /** `update_event`: unknown ids give `False` and change nothing; known
        ids get the changes of `ApplyChanges`, a raised `ValueError` leaving
        the fields already assigned in place. A changed date moves the id
        to the end of the new date's bucket. */
    method UpdateEvent(eventId: string, ch: Changes) returns (r: Result<bool, string>)
      modifies this, events.Values
      ensures events == old(events)
      ensures nextEventId == old(nextEventId) && issued == old(issued)
      ensures currentDate == old(currentDate) && currentMonth == old(currentMonth)
      ensures eventId !in events ==> r == Success(false) && eventsByDate == old(eventsByDate)
      ensures eventId !in events ==> unchanged(events.Values)
      ensures eventId in events ==>
        var applied := ApplyChanges(old(events[eventId].Snapshot()), ch);
        && events[eventId].Snapshot() == applied.data
        && (applied.error.None? ==> r == Success(true))
        && (applied.error.Some? ==> r == Failure(applied.error.value))
        && eventsByDate == (if applied.data.date == old(events[eventId].date) then old(eventsByDate)
                            else Appended(Unlinked(old(eventsByDate), old(events[eventId].date), eventId),
                                          applied.data.date, eventId))
      ensures eventId in events ==> unchanged(events.Values - {events[eventId]})
      ensures old(Indexed()) ==> Indexed()
    {
      if eventId !in events {
        return Success(false);
      }
      var event := events[eventId];
      ghost var oldDates := DatesOf(events);
      r := Revise(eventId, event, ch);
      if old(Indexed()) {
        forall k | k in events && k != eventId
          ensures events[k].date == oldDates[k]
        {
          assert events[k] != event;
        }
        UpdateKeepsConsistent(events, old(eventsByDate), oldDates, eventId, eventsByDate);
      }
    }

    /** The setter calls of `update_event` on the stored `event`, with the
        id moved between buckets when the date setter changed the date. */
    method Revise(eventId: string, event: Event, ch: Changes) returns (r: Result<bool, string>)
      requires eventId in events && events[eventId] == event
      modifies this, event
      ensures events == old(events)
      ensures nextEventId == old(nextEventId) && issued == old(issued)
      ensures currentDate == old(currentDate) && currentMonth == old(currentMonth)
      ensures var applied := ApplyChanges(old(event.Snapshot()), ch);
        && event.Snapshot() == applied.data
        && (applied.error.None? ==> r == Success(true))
        && (applied.error.Some? ==> r == Failure(applied.error.value))
        && eventsByDate == (if applied.data.date == old(event.date) then old(eventsByDate)
                            else Appended(Unlinked(old(eventsByDate), old(event.date), eventId),
                                          applied.data.date, eventId))
    {
      var oldDate := event.date;
      var o := AssignThroughDate(event, ch);
      if o.Fail? {
        return Failure(o.error);
      }
      if event.date != oldDate {
        MoveId(eventId, oldDate, event.date);
      }
      AssignTrailing(event, ch);
      r := Success(true);
    }

    /** Takes `eventId` out of the bucket of `dateStr`, dropping the bucket
        when it is left empty, as `delete_event` does. */
    method Unfile(eventId: string, dateStr: string)
      modifies this
      ensures eventsByDate == Detached(old(eventsByDate), dateStr, eventId)
      ensures events == old(events) && nextEventId == old(nextEventId) && issued == old(issued)
      ensures currentDate == old(currentDate) && currentMonth == old(currentMonth)
    {
      if dateStr in eventsByDate {
        var bucket := RemoveFirst(eventsByDate[dateStr], eventId);
        if bucket == [] {
          eventsByDate := eventsByDate - {dateStr};
        } else {
          eventsByDate := eventsByDate[dateStr := bucket];
        }
      }
    }

    /** `delete_event`: unknown ids give `False` and change nothing; a known
        id leaves `events` and its date's bucket, and the bucket goes when
        it is empty. */
    method DeleteEvent(eventId: string) returns (deleted: bool)
      modifies this
      ensures deleted <==> eventId in old(events)
      ensures !deleted ==> events == old(events) && eventsByDate == old(eventsByDate)
      ensures deleted ==>
        && events == old(events) - {eventId}
        && eventsByDate == Detached(old(eventsByDate), old(events[eventId].date), eventId)
      ensures nextEventId == old(nextEventId) && issued == old(issued)
      ensures currentDate == old(currentDate) && currentMonth == old(currentMonth)
      ensures old(Indexed()) ==> Indexed()
    {
      if eventId !in events {
        return false;
      }
      if Indexed() {
        DeleteKeepsConsistent(events, eventsByDate, eventId);
      }
      var dateStr := events[eventId].date;
      events := events - {eventId};
      Unfile(eventId, dateStr);
      deleted := true;
    }
  }

  /** With the index exact, `get_events_for_date` returns, in bucket order,
      every stored event of that date and nothing else. */
  lemma EventsForDateExact(c: Calendar, d: string)
    requires c.Indexed()
    ensures |c.EventsForDate(d)| == |Bucket(c.eventsByDate, d)|
    ensures forall i | 0 <= i < |Bucket(c.eventsByDate, d)| ::
      Bucket(c.eventsByDate, d)[i] in c.events && c.EventsForDate(d)[i] == c.events[Bucket(c.eventsByDate, d)[i]]
    ensures forall e :: e in c.EventsForDate(d) <==> e in c.events.Values && e.date == d
  {
    BucketIsDate(DatesOf(c.events), c.eventsByDate, d);
    forall e | e in c.events.Values && e.date == d
      ensures e in c.EventsForDate(d)
    {
      var id :| id in c.events && c.events[id] == e;
      assert DatesOf(c.events)[id] == d;
    }
    forall e | e in c.EventsForDate(d)
      ensures e.date == d
    {
      assert e in Named(Bucket(c.eventsByDate, d), c.events);
      var id :| id in Bucket(c.eventsByDate, d) && id in c.events && c.events[id] == e;
      assert DatesOf(c.events)[id] == d;
    }
  }

  /** Every stored event is filed under its own date, and
      `get_events_for_date` of that date returns it. */
  lemma GetEventIsFiled(c: Calendar, id: string)
    requires c.Indexed()
    ensures c.GetEvent(id).Some? ==>
      var e := c.GetEvent(id).value;
      id in Bucket(c.eventsByDate, e.date) && e in c.EventsForDate(e.date)
  {
    if id in c.events {
      var e := c.events[id];
      BucketIsDate(DatesOf(c.events), c.eventsByDate, e.date);
      assert DatesOf(c.events)[id] == e.date;
    }
  }
}
