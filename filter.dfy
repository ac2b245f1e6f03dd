/** FilterService: keep the events that match a criteria dictionary, check
    a criteria dictionary for contradictions, and describe it in words. */
module Filtering {
  import opened Wrappers
  import opened Text
  import opened Dates
  import opened Rows

  /** A non-empty criteria dictionary with its missing keys filled in the
      way the service reads them: search text '', no date bounds and True
      for each of the three show flags. An absent or empty dictionary is
      `None` wherever criteria are optional. */
  datatype Criteria = Criteria(
    searchText: string,
    fromDate: Option<CalendarDate>,
    toDate: Option<CalendarDate>,
    showAllDay: bool,
    showTimed: bool,
    showRecurring: bool)

  /** `filter_criteria.get(...)` for each key missing. */
  const Defaults := Criteria("", None, None, true, true, true)

  /** `FilterService()` reads event dates with its default format "%d-%m-%Y". */
  const DefaultDateParser: string -> Option<Date> := ParseDmy

  // ---------------------------------------------------------------------
  // The three predicates
  // ---------------------------------------------------------------------

  /** `_matches_text_filter`: `needle` is the lower-cased search text; the
      empty needle matches everything, otherwise it must occur in the
      lower-cased title or the lower-cased description. */
  predicate MatchesText(e: EventRow, needle: string)
    ensures MatchesText(e, needle) <==>
      needle == [] || SubstringAt(needle, Lower(e.title)) || SubstringAt(needle, Lower(e.description))
  {
    OccursIffSubstring(needle, Lower(e.title));
    OccursIffSubstring(needle, Lower(e.description));
    needle == [] || Occurs(needle, Lower(e.title)) || Occurs(needle, Lower(e.description))
  }

  /** `_matches_date_filter`: ignored unless both bounds are given; then the
      event's date string must parse and lie in the closed range. A date
      that does not parse excludes the event. */
  predicate MatchesDate(e: EventRow, from: Option<CalendarDate>, to: Option<CalendarDate>,
                        parse: string -> Option<Date>)
    ensures from.None? || to.None? ==> MatchesDate(e, from, to, parse)
    ensures from.Some? && to.Some? && parse(e.date).None? ==> !MatchesDate(e, from, to, parse)
    ensures from.Some? && to.Some? && parse(e.date).Some? ==>
      (MatchesDate(e, from, to, parse) <==>
         DateLe(from.value, parse(e.date).value) && DateLe(parse(e.date).value, to.value))
  {
    if from.None? || to.None? then true
    else
      match parse(e.date)
      case None => false
      case Some(d) => DateLe(from.value, d) && DateLe(d, to.value)
  }

  /** `_matches_type_filter`: three independent exclusions. */
  predicate MatchesType(e: EventRow, showAllDay: bool, showTimed: bool, showRecurring: bool)
    ensures MatchesType(e, showAllDay, showTimed, showRecurring) <==>
      (if e.isAllDay then showAllDay else showTimed) && (e.isRecurring ==> showRecurring)
    ensures showAllDay && showTimed && showRecurring ==> MatchesType(e, showAllDay, showTimed, showRecurring)
    ensures !showAllDay && !showTimed ==> !MatchesType(e, showAllDay, showTimed, showRecurring)
  {
    && !(e.isAllDay && !showAllDay)
    && !(!e.isAllDay && !showTimed)
    && !(e.isRecurring && !showRecurring)
  }

  /** The three predicates ANDed, as the filter loop applies them. */
  predicate Matches(e: EventRow, c: Criteria, parse: string -> Option<Date>) {
    && MatchesText(e, Lower(c.searchText))
    && MatchesDate(e, c.fromDate, c.toDate, parse)
    && MatchesType(e, c.showAllDay, c.showTimed, c.showRecurring)
  }

  /** The events of `events` that match, in their original order. */
  function Kept(events: seq<EventRow>, c: Criteria, parse: string -> Option<Date>): seq<EventRow>
  {
    if events == [] then []
    else
      var last := events[|events| - 1];
      Kept(events[..|events| - 1], c, parse) + (if Matches(last, c, parse) then [last] else [])
  }

  /** One event more: the longer prefix keeps what the shorter one kept,
      then the new event when it matches. */
  lemma KeptStep(events: seq<EventRow>, c: Criteria, parse: string -> Option<Date>, i: nat)
    requires i < |events|
    ensures Kept(events[..i + 1], c, parse) ==
      Kept(events[..i], c, parse) + (if Matches(events[i], c, parse) then [events[i]] else [])
  {
    assert events[..i + 1][..i] == events[..i];
  }

  /** What `filter_events` returns: the input itself for absent or empty
      criteria, otherwise the matching events in order. */
  function Filtered(events: seq<EventRow>, criteria: Option<Criteria>, parse: string -> Option<Date>): (r: seq<EventRow>)
    ensures criteria.None? ==> r == events
    ensures forall x :: x in r <==> x in events && (criteria.None? || Matches(x, criteria.value, parse))
  {
    if criteria.None? then events
    else
      KeptMembers(events, criteria.value, parse);
      Kept(events, criteria.value, parse)
  }

  /** `filter_events`: one pass, skipping an event at the first predicate it
      fails and appending the rest. */
  method FilterEvents(events: seq<EventRow>, criteria: Option<Criteria>, parse: string -> Option<Date>)
    returns (filtered: seq<EventRow>)
    ensures filtered == Filtered(events, criteria, parse)
  {
    if criteria.None? {
      return events;
    }
    var c := criteria.value;
    var searchText := Lower(c.searchText);
    filtered := [];
    for i := 0 to |events|
      invariant filtered == Kept(events[..i], c, parse)
    {
      var e := events[i];
      assert events[..i + 1][..i] == events[..i];
      if !MatchesText(e, searchText) {
        continue;
      }
      if !MatchesDate(e, c.fromDate, c.toDate, parse) {
        continue;
      }
      if !MatchesType(e, c.showAllDay, c.showTimed, c.showRecurring) {
        continue;
      }
      filtered := filtered + [e];
    }
    assert events[..|events|] == events;
  }

  // ---------------------------------------------------------------------
  // What the filter promises
  // ---------------------------------------------------------------------

  /** `r` is `s` with some elements left out and the rest in their order. */
  ghost predicate IsSubsequence(r: seq<EventRow>, s: seq<EventRow>)
    decreases |s|
  {
    if r == [] then true
    else if s == [] then false
    else if r[|r| - 1] == s[|s| - 1] then IsSubsequence(r[..|r| - 1], s[..|s| - 1])
    else IsSubsequence(r, s[..|s| - 1])
  }

  /** Dropping the last element of a subsequence leaves a subsequence. */
  lemma {:induction false} SubsequenceDropLast(r: seq<EventRow>, s: seq<EventRow>)
    requires r != [] && IsSubsequence(r, s)
    ensures IsSubsequence(r[..|r| - 1], s)
    decreases |s|, 0
  {
    var s' := s[..|s| - 1];
    assert s == s' + [s[|s| - 1]];
    if r[|r| - 1] == s[|s| - 1] {
      SubsequenceExtend(r[..|r| - 1], s', s[|s| - 1]);
    } else {
      SubsequenceDropLast(r, s');
      SubsequenceExtend(r[..|r| - 1], s', s[|s| - 1]);
    }
  }

  /** A subsequence of `s` is a subsequence of `s` extended at the end. */
  lemma {:induction false} SubsequenceExtend(r: seq<EventRow>, s: seq<EventRow>, x: EventRow)
    requires IsSubsequence(r, s)
    ensures IsSubsequence(r, s + [x])
    decreases |s|, 1
  {
    var t := s + [x];
    assert t[..|t| - 1] == s;
    if r != [] && r[|r| - 1] == x {
      SubsequenceDropLast(r, s);
    }
  }

  /** The result keeps the input's order: it is a subsequence of it. */
  lemma {:induction false} KeptIsSubsequence(events: seq<EventRow>, c: Criteria, parse: string -> Option<Date>)
    ensures IsSubsequence(Kept(events, c, parse), events)
    decreases |events|
  {
    if events != [] {
      var init, last := events[..|events| - 1], events[|events| - 1];
      var k := Kept(init, c, parse);
      KeptIsSubsequence(init, c, parse);
      assert events == init + [last];
      if Matches(last, c, parse) {
        assert Kept(events, c, parse) == k + [last];
        assert (k + [last])[..|k|] == k;
      } else {
        assert Kept(events, c, parse) == k;
        SubsequenceExtend(k, init, last);
      }
    }
  }

  /** Every copy of a matching event is kept and no copy of any other
      event: an event is in the result exactly when it is in the input and
      matches the text, date and type predicates. */
  lemma {:induction false} KeptCounts(events: seq<EventRow>, c: Criteria, parse: string -> Option<Date>, e: EventRow)
    ensures multiset(Kept(events, c, parse))[e] == if Matches(e, c, parse) then multiset(events)[e] else 0
    decreases |events|
  {
    if events != [] {
      var init := events[..|events| - 1];
      KeptCounts(init, c, parse, e);
      assert events == init + [events[|events| - 1]];
    }
  }

  lemma KeptMembership(events: seq<EventRow>, c: Criteria, parse: string -> Option<Date>, e: EventRow)
    ensures e in Kept(events, c, parse) <==> e in events && Matches(e, c, parse)
  {
    KeptCounts(events, c, parse, e);
  }

  /** `KeptMembership` for every event at once. */
  lemma KeptMembers(events: seq<EventRow>, c: Criteria, parse: string -> Option<Date>)
    ensures forall x :: x in Kept(events, c, parse) <==> x in events && Matches(x, c, parse)
  {
    forall x {
      KeptMembership(events, c, parse, x);
    }
  }

  /** Absent or empty criteria give back the input; so does a dictionary
      that only restates the defaults. */
  lemma {:induction false} DefaultsKeepEverything(events: seq<EventRow>, parse: string -> Option<Date>)
    ensures Filtered(events, None, parse) == events
    ensures Filtered(events, Some(Defaults), parse) == events
    decreases |events|
  {
    if events != [] {
      DefaultsKeepEverything(events[..|events| - 1], parse);
      assert events == events[..|events| - 1] + [events[|events| - 1]];
    }
  }

  /** The text test is blind to case, in the search text and in the
      event's title and description alike. */
  lemma MatchesTextIgnoresCase(e: EventRow, f: EventRow, a: string, b: string)
    requires SameUpToCase(a, b)
    requires SameUpToCase(e.title, f.title) && SameUpToCase(e.description, f.description)
    ensures MatchesText(e, Lower(a)) <==> MatchesText(f, Lower(b))
  {
    LowerIgnoresCase(a, b);
    LowerIgnoresCase(e.title, f.title);
    LowerIgnoresCase(e.description, f.description);
  }

  /** An all-day event and a timed recurring one: hiding timed events or
      hiding recurring events leaves only the all-day one. */
  lemma TypeExclusionExample(a: EventRow, b: EventRow, parse: string -> Option<Date>)
    requires a.isAllDay && !a.isRecurring
    requires !b.isAllDay && b.isRecurring
    ensures Filtered([a, b], Some(Defaults.(showTimed := false)), parse) == [a]
    ensures Filtered([a, b], Some(Defaults.(showRecurring := false)), parse) == [a]
  {
    var hideTimed, hideRecurring := Defaults.(showTimed := false), Defaults.(showRecurring := false);
    assert Lower("") == "";
    assert [a, b][..1] == [a];
    assert [a][..0] == [];
    assert Kept([a], hideTimed, parse) == [a];
    assert Kept([a], hideRecurring, parse) == [a];
  }

  // ---------------------------------------------------------------------
  // The date format of FilterService()
  // ---------------------------------------------------------------------

  /** As written: `FilterService()` parses with "%d-%m-%Y", which rejects
      every stored "%Y-%m-%d" date, so any criteria with both bounds drop
      every stored event. */
  lemma DefaultFormatDropsStoredEvents(events: seq<EventRow>, c: Criteria)
    requires forall i | 0 <= i < |events| :: ParseIso(events[i].date).Some?
    requires c.fromDate.Some? && c.toDate.Some?
    ensures Filtered(events, Some(c), DefaultDateParser) == []
  {
    forall e | e in events ensures !Matches(e, c, DefaultDateParser) {
      FormatOfParseIso(e.date);
      ParseDmyRejectsIso(ParseIso(e.date).value);
    }
    if Kept(events, c, DefaultDateParser) != [] {
      var x := Kept(events, c, DefaultDateParser)[0];
      KeptMembership(events, c, DefaultDateParser, x);
    }
  }

  /** Corrected: reading stored dates with their own format "%Y-%m-%d", a
      stored event passes the date predicate exactly when its date lies in
      the closed range. */
  lemma StorageFormatKeepsRange(e: EventRow, d: CalendarDate, from: CalendarDate, to: CalendarDate)
    requires e.date == IsoFormat(d)
    ensures MatchesDate(e, Some(from), Some(to), ParseIso) <==> DateLe(from, d) && DateLe(d, to)
  {
    ParseIsoOfFormat(d);
  }

  // ---------------------------------------------------------------------
  // validate_filter_criteria
  // ---------------------------------------------------------------------

  const DateRangeError := "'From' date must be before or equal to 'To' date"
  const NoTypeError := "At least one event type must be selected"

  /** `validate_filter_criteria`: the list of problems, date range first. */
  function ValidateFilterCriteria(criteria: Option<Criteria>): (errors: seq<string>)
    ensures criteria.None? ==> errors == []
    ensures criteria.Some? ==>
      var c := criteria.value;
      && (DateRangeError in errors <==> c.fromDate.Some? && c.toDate.Some? && DateLt(c.toDate.value, c.fromDate.value))
      && (NoTypeError in errors <==> !c.showAllDay && !c.showTimed && !c.showRecurring)
    ensures forall i | 0 <= i < |errors| :: errors[i] == DateRangeError || errors[i] == NoTypeError
    ensures |errors| <= 2
    ensures |errors| == 2 ==> errors == [DateRangeError, NoTypeError]
  {
    if criteria.None? then []
    else
      var c := criteria.value;
      var dateErrors :=
        if c.fromDate.Some? && c.toDate.Some? && DateLt(c.toDate.value, c.fromDate.value)
        then [DateRangeError] else [];
      var typeErrors := if !(c.showAllDay || c.showTimed || c.showRecurring) then [NoTypeError] else [];
      dateErrors + typeErrors
  }

  /** Some kind of event (all-day or timed, recurring or not) passes the
      three show flags. */
  predicate SomeKindShown(c: Criteria, allDay: bool, recurring: bool) {
    !(allDay && !c.showAllDay) && !(!allDay && !c.showTimed) && !(recurring && !c.showRecurring)
  }

  /** As written: showing only recurring events passes validation, yet every
      event is all-day or timed, so the type predicate rejects them all. */
  lemma OnlyRecurringPassesButMatchesNothing(e: EventRow)
    ensures var c := Defaults.(showAllDay := false, showTimed := false);
      ValidateFilterCriteria(Some(c)) == [] && !MatchesType(e, c.showAllDay, c.showTimed, c.showRecurring)
  {
  }

  /** `validate_filter_criteria` with the type check it evidently intends:
      it is an error when no kind of event could pass, that is when both
      all-day and timed events are hidden. */
  function ValidateFilterCriteriaCorrected(criteria: Option<Criteria>): (errors: seq<string>)
    ensures criteria.None? ==> errors == []
    ensures criteria.Some? ==>
      var c := criteria.value;
      && (DateRangeError in errors <==> c.fromDate.Some? && c.toDate.Some? && DateLt(c.toDate.value, c.fromDate.value))
      && (NoTypeError in errors <==> !c.showAllDay && !c.showTimed)
    ensures forall i | 0 <= i < |errors| :: errors[i] == DateRangeError || errors[i] == NoTypeError
    ensures |errors| <= 2
    ensures |errors| == 2 ==> errors == [DateRangeError, NoTypeError]
  {
    if criteria.None? then []
    else
      var c := criteria.value;
      var dateErrors :=
        if c.fromDate.Some? && c.toDate.Some? && DateLt(c.toDate.value, c.fromDate.value)
        then [DateRangeError] else [];
      var typeErrors := if !(c.showAllDay || c.showTimed) then [NoTypeError] else [];
      dateErrors + typeErrors
  }

  /** Criteria that pass the corrected validation can match something: some
      kind of event passes the flags, and the date range is not empty. */
  lemma CorrectedValidationAdmitsSomeKind(c: Criteria)
    requires ValidateFilterCriteriaCorrected(Some(c)) == []
    ensures exists allDay: bool, recurring: bool :: SomeKindShown(c, allDay, recurring)
    ensures c.fromDate.Some? && c.toDate.Some? ==> DateLe(c.fromDate.value, c.toDate.value)
  {
    assert NoTypeError !in ValidateFilterCriteriaCorrected(Some(c));
    assert DateRangeError !in ValidateFilterCriteriaCorrected(Some(c));
    if c.showAllDay {
      assert SomeKindShown(c, true, false);
    } else {
      assert SomeKindShown(c, false, false);
    }
  }

  // ---------------------------------------------------------------------
  // get_filter_summary
  // ---------------------------------------------------------------------

  /** `sep.join(parts)`. */
  function Join(sep: string, parts: seq<string>): string {
    if |parts| == 0 then ""
    else if |parts| == 1 then parts[0]
    else parts[0] + sep + Join(sep, parts[1..])
  }

  /** The type names the summary lists as excluded, in the fixed order
      All-Day, Timed, Recurring. */
  function ExcludedTypes(c: Criteria): (r: seq<string>)
    ensures "All-Day" in r <==> !c.showAllDay
    ensures "Timed" in r <==> !c.showTimed
    ensures "Recurring" in r <==> !c.showRecurring
    ensures forall i, j | 0 <= i < j < |r| :: TypeRank(r[i]) < TypeRank(r[j])
    ensures forall i | 0 <= i < |r| :: r[i] == "All-Day" || r[i] == "Timed" || r[i] == "Recurring"
  {
    (if !c.showAllDay then ["All-Day"] else [])
    + (if !c.showTimed then ["Timed"] else [])
    + (if !c.showRecurring then ["Recurring"] else [])
  }

  /** The position of a type name in the fixed order All-Day, Timed, Recurring. */
  function TypeRank(name: string): int {
    if name == "All-Day" then 0 else if name == "Timed" then 1 else 2
  }

  /** The parts of the summary, in order: text, date range, exclusions. */
  function SummaryParts(c: Criteria): seq<string> {
    (if c.searchText != [] then ["Text: '" + c.searchText + "'"] else [])
    + (if c.fromDate.Some? && c.toDate.Some?
       then ["Date: " + DmyFormat(c.fromDate.value) + " to " + DmyFormat(c.toDate.value)] else [])
    + (if ExcludedTypes(c) != [] then ["Excluding: " + Join(", ", ExcludedTypes(c))] else [])
  }

  /** `get_filter_summary`. */
  function GetFilterSummary(criteria: Option<Criteria>): (summary: string)
    ensures criteria.None? ==> summary == "No filters applied"
    ensures criteria.Some? && SummaryParts(criteria.value) == [] ==> summary == "All events (no restrictions)"
    ensures criteria.Some? && SummaryParts(criteria.value) != [] ==> summary == Join(" | ", SummaryParts(criteria.value))
  {
    if criteria.None? then "No filters applied"
    else
      var parts := SummaryParts(criteria.value);
      if parts != [] then Join(" | ", parts) else "All events (no restrictions)"
  }

  /** A summary says "no restrictions" exactly when no search text, no
      complete date range and no exclusion is set. */
  lemma NoRestrictionsIff(c: Criteria)
    ensures GetFilterSummary(Some(c)) == "All events (no restrictions)" <==>
      c.searchText == [] && !(c.fromDate.Some? && c.toDate.Some?) && c.showAllDay && c.showTimed && c.showRecurring
  {
    var parts := SummaryParts(c);
    if parts != [] {
      var p := parts[0];
      if c.searchText != [] {
        assert p == "Text: '" + c.searchText + "'";
      } else if c.fromDate.Some? && c.toDate.Some? {
        assert p == "Date: " + DmyFormat(c.fromDate.value) + " to " + DmyFormat(c.toDate.value);
      } else {
        assert p == "Excluding: " + Join(", ", ExcludedTypes(c));
      }
      JoinStartsWithFirst(" | ", parts);
      assert Join(" | ", parts)[0] == p[0] != 'A';
    }
  }

  lemma {:induction false} JoinStartsWithFirst(sep: string, parts: seq<string>)
    requires parts != []
    ensures parts[0] <= Join(sep, parts)
  {
    if |parts| > 1 {
      assert Join(sep, parts) == parts[0] + (sep + Join(sep, parts[1..]));
    }
  }
}
