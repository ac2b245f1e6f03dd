/** `get_all_events(months_before, months_after)`: one month query per
    offset around today's month, concatenated and sorted by
    `(date, start_time)`. CalendarService, MonthViewService
    (`get_events_for_all_months`) and AgendaViewService carry the same loop;
    this module models it once. */
module Window {
  import opened Text
  import opened Dates
  import opened Months
  import opened Rows

  // ---------------------------------------------------------------------
  // The sort key (event.date, event.start_time)
  // ---------------------------------------------------------------------

  /** Tuple `<` on `(date, start_time)`. */
  predicate KeyLt(a: EventRow, b: EventRow) {
    StrLt(a.date, b.date) || (a.date == b.date && StrLt(a.startTime, b.startTime))
  }

  predicate SameKey(a: EventRow, b: EventRow) {
    a.date == b.date && a.startTime == b.startTime
  }

  /** Tuple `<=` on `(date, start_time)`. */
  predicate KeyLe(a: EventRow, b: EventRow) {
    !KeyLt(b, a)
  }

  /** Exactly one of: a before b, b before a, same key. */
  lemma KeyTrichotomy(a: EventRow, b: EventRow)
    ensures KeyLt(a, b) || KeyLt(b, a) || SameKey(a, b)
    ensures !(KeyLt(a, b) && KeyLt(b, a))
    ensures SameKey(a, b) ==> !KeyLt(a, b)
  {
    StrLtTrichotomy(a.date, b.date);
    StrLtTrichotomy(a.startTime, b.startTime);
    if StrLt(a.date, b.date) { StrLtAsymmetric(a.date, b.date); }
    if StrLt(b.date, a.date) { StrLtAsymmetric(b.date, a.date); }
    if StrLt(a.startTime, b.startTime) { StrLtAsymmetric(a.startTime, b.startTime); }
    if StrLt(b.startTime, a.startTime) { StrLtAsymmetric(b.startTime, a.startTime); }
    StrLtIrreflexive(a.date);
    StrLtIrreflexive(a.startTime);
  }

  lemma KeyLtTransitive(a: EventRow, b: EventRow, c: EventRow)
    requires KeyLt(a, b) && KeyLt(b, c)
    ensures KeyLt(a, c)
  {
    if StrLt(a.date, b.date) && StrLt(b.date, c.date) {
      StrLtTransitive(a.date, b.date, c.date);
    } else if a.date == b.date == c.date {
      StrLtTransitive(a.startTime, b.startTime, c.startTime);
    }
  }

  lemma KeyLeTransitive(a: EventRow, b: EventRow, c: EventRow)
    requires KeyLe(a, b) && KeyLe(b, c)
    ensures KeyLe(a, c)
  {
    KeyTrichotomy(a, b);
    KeyTrichotomy(b, c);
    KeyTrichotomy(a, c);
    if KeyLt(a, b) && KeyLt(b, c) { KeyLtTransitive(a, b, c); }
    if KeyLt(c, a) {
      if KeyLt(a, b) { KeyLtTransitive(c, a, b); }
    }
  }

  /** Non-decreasing by `(date, start_time)`. */
  ghost predicate Sorted(s: seq<EventRow>) {
    forall i, j | 0 <= i < j < |s| :: KeyLe(s[i], s[j])
  }

  /** Insert `x` before the first element whose key is not smaller, so that
      equal keys keep their original order. */
  function Insert(x: EventRow, s: seq<EventRow>): seq<EventRow> {
    if s == [] then [x]
    else if KeyLe(x, s[0]) then [x] + s
    else [s[0]] + Insert(x, s[1..])
  }

  /** Inserting adds exactly `x`. */
  lemma {:induction false} InsertPermutes(x: EventRow, s: seq<EventRow>)
    ensures multiset(Insert(x, s)) == multiset(s) + multiset{x}
  {
    if s != [] {
      assert s == [s[0]] + s[1..];
      if !KeyLe(x, s[0]) {
        InsertPermutes(x, s[1..]);
      }
    }
  }

  /** A lower bound of `x` and of every element of `s` bounds the result. */
  lemma InsertLowerBound(x: EventRow, s: seq<EventRow>, y: EventRow)
    requires KeyLe(y, x) && forall k | 0 <= k < |s| :: KeyLe(y, s[k])
    ensures forall k | 0 <= k < |Insert(x, s)| :: KeyLe(y, Insert(x, s)[k])
  {
    var r := Insert(x, s);
    InsertPermutes(x, s);
    forall k | 0 <= k < |r|
      ensures KeyLe(y, r[k])
    {
      assert r[k] in multiset(r);
      if r[k] != x {
        assert r[k] in multiset(s);
        var i :| 0 <= i < |s| && s[i] == r[k];
      }
    }
  }

  /** A row bounding every element of a sorted list can go in front of it. */
  lemma SortedCons(x: EventRow, t: seq<EventRow>)
    requires Sorted(t) && forall k | 0 <= k < |t| :: KeyLe(x, t[k])
    ensures Sorted([x] + t)
  {
    var r := [x] + t;
    assert forall k | 0 <= k < |t| :: r[k + 1] == t[k];
  }

  lemma {:induction false} InsertSorted(x: EventRow, s: seq<EventRow>)
    requires Sorted(s)
    ensures Sorted(Insert(x, s))
  {
    if s == [] {
    } else if KeyLe(x, s[0]) {
      forall k | 0 <= k < |s|
        ensures KeyLe(x, s[k])
      {
        if k > 0 { KeyLeTransitive(x, s[0], s[k]); }
      }
      SortedCons(x, s);
    } else {
      KeyTrichotomy(x, s[0]);
      var tail := s[1..];
      assert forall k | 0 <= k < |tail| :: tail[k] == s[k + 1];
      InsertSorted(x, tail);
      InsertLowerBound(x, tail, s[0]);
      SortedCons(s[0], Insert(x, tail));
    }
  }

  /** Python's stable `list.sort(key=lambda e: (e.date, e.start_time))`. */
  function SortByKey(s: seq<EventRow>): (r: seq<EventRow>)
    ensures Sorted(r)
    ensures multiset(r) == multiset(s)
  {
    if s == [] then []
    else
      var t := SortByKey(s[1..]);
      InsertSorted(s[0], t);
      InsertPermutes(s[0], t);
      assert s == [s[0]] + s[1..];
      Insert(s[0], t)
  }

  // ---------------------------------------------------------------------
  // The window
  // ---------------------------------------------------------------------

  /** The months `range(-monthsBefore, monthsAfter + 1)` visits relative to
      today's month, in offset order, each normalised to 1..12. */
  function WindowMonths(today: Date, monthsBefore: int, monthsAfter: int): (r: seq<YearMonth>)
    ensures |r| == if monthsBefore + monthsAfter + 1 > 0 then monthsBefore + monthsAfter + 1 else 0
    ensures forall k | 0 <= k < |r| ::
      ValidMonth(r[k].month) && MonthIndex(r[k]) == today.year * 12 + today.month - monthsBefore + k
  {
    var n := if monthsBefore + monthsAfter + 1 > 0 then monthsBefore + monthsAfter + 1 else 0;
    var r := seq(n, k => Normalised(today.year, today.month - monthsBefore + k));
    assert forall k | 0 <= k < n :: r[k] == Normalised(today.year, today.month - monthsBefore + k);
    r
  }

  /** The defaults (six months either side) query thirteen months, today's
      month in the middle. */
  lemma DefaultWindow(today: Date)
    requires ValidMonth(today.month)
    ensures |WindowMonths(today, 6, 6)| == 13
    ensures WindowMonths(today, 6, 6)[6] == YearMonth(today.year, today.month)
  {
    var w := WindowMonths(today, 6, 6);
    MonthIndexInjective(w[6], YearMonth(today.year, today.month));
  }

  /** The month results appended one after another, with nothing dropped:
      the first month's results come first. */
  function Collected(query: (int, int) -> seq<EventRow>, months: seq<YearMonth>): (r: seq<EventRow>)
    ensures months != [] ==> query(months[0].year, months[0].month) <= r
    decreases |months|
  {
    if months == [] then []
    else
      var last := months[|months| - 1];
      Collected(query, months[..|months| - 1]) + query(last.year, last.month)
  }

  /** How many times `e` comes back from the month queries, summed over months. */
  function TimesReturned(query: (int, int) -> seq<EventRow>, months: seq<YearMonth>, e: EventRow): nat
  {
    if months == [] then 0
    else
      var last := months[|months| - 1];
      TimesReturned(query, months[..|months| - 1], e) + multiset(query(last.year, last.month))[e]
  }

  /** No deduplication: every copy every month query returns is kept. */
  lemma {:induction false} CollectedKeepsEveryCopy(query: (int, int) -> seq<EventRow>, months: seq<YearMonth>, e: EventRow)
    ensures multiset(Collected(query, months))[e] == TimesReturned(query, months, e)
    decreases |months|
  {
    if months != [] {
      CollectedKeepsEveryCopy(query, months[..|months| - 1], e);
    }
  }

  lemma {:induction false} TimesReturnedAtLeast(query: (int, int) -> seq<EventRow>, months: seq<YearMonth>, e: EventRow, i: nat)
    requires i < |months|
    ensures TimesReturned(query, months, e) >= TimesReturned(query, months[..i], e) + multiset(query(months[i].year, months[i].month))[e]
    decreases |months|
  {
    if i < |months| - 1 {
      assert months[..|months| - 1][..i] == months[..i];
      TimesReturnedAtLeast(query, months[..|months| - 1], e, i);
    } else {
      assert months[..|months| - 1] == months[..i];
    }
  }

  lemma TimesReturnedMonotone(query: (int, int) -> seq<EventRow>, months: seq<YearMonth>, e: EventRow, i: nat)
    requires i <= |months|
    ensures TimesReturned(query, months, e) >= TimesReturned(query, months[..i], e)
    decreases |months| - i
  {
    if i < |months| {
      TimesReturnedAtLeast(query, months, e, i);
      TimesReturnedMonotone(query, months, e, i + 1);
      assert months[..i + 1][..i] == months[..i];
      TimesReturnedAtLeast(query, months[..i + 1], e, i);
    } else {
      assert months[..i] == months;
    }
  }

  /** Two months of the window each add their copies of `e` to the count. */
  lemma TimesReturnedTwoMonths(query: (int, int) -> seq<EventRow>, months: seq<YearMonth>, e: EventRow, i: nat, j: nat)
    requires i < j < |months|
    ensures TimesReturned(query, months, e) >=
      multiset(query(months[i].year, months[i].month))[e] + multiset(query(months[j].year, months[j].month))[e]
  {
    TimesReturnedAtLeast(query, months, e, j);
    TimesReturnedMonotone(query, months[..j], e, i + 1);
    assert months[..j][..i + 1] == months[..i + 1];
    var prefix := months[..i + 1];
    assert prefix[i] == months[i];
    TimesReturnedAtLeast(query, prefix, e, i);
  }

  /** An event that two month queries of the window both return (one whose
      days span a month boundary) comes out of the window twice. */
  lemma BoundaryEventRepeated(query: (int, int) -> seq<EventRow>, months: seq<YearMonth>, e: EventRow, i: nat, j: nat)
    requires i < j < |months|
    requires e in query(months[i].year, months[i].month)
    requires e in query(months[j].year, months[j].month)
    ensures multiset(SortByKey(Collected(query, months)))[e] >= 2
  {
    CollectedKeepsEveryCopy(query, months, e);
    TimesReturnedTwoMonths(query, months, e, i, j);
  }

  /** The loop: normalise each offset's month, query it, append the results;
      then sort. */
  method GetAllEvents(today: Date, monthsBefore: int, monthsAfter: int,
                      monthQuery: (int, int) -> seq<EventRow>)
    returns (events: seq<EventRow>)
    ensures Sorted(events)
    ensures multiset(events) == multiset(Collected(monthQuery, WindowMonths(today, monthsBefore, monthsAfter)))
    ensures events == SortByKey(Collected(monthQuery, WindowMonths(today, monthsBefore, monthsAfter)))
  {
    ghost var months := WindowMonths(today, monthsBefore, monthsAfter);
    var all: seq<EventRow> := [];
    var offset := -monthsBefore;
    while offset < monthsAfter + 1
      invariant 0 <= offset + monthsBefore <= |months|
      invariant offset < monthsAfter + 1 ==> offset + monthsBefore < |months|
      invariant all == Collected(monthQuery, months[..offset + monthsBefore])
    {
      var targetYear, targetMonth := NormaliseMonth(today.year, today.month + offset);
      ghost var k := offset + monthsBefore;
      assert months[..k + 1][..k] == months[..k];
      assert YearMonth(targetYear, targetMonth) == months[k];
      all := all + monthQuery(targetYear, targetMonth);
      offset := offset + 1;
    }
    assert months[..offset + monthsBefore] == months;
    events := SortByKey(all);
  }
}
