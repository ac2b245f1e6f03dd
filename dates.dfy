/** Naive calendar dates as Python's `datetime.date` has them, the two
    string forms the application uses ("%Y-%m-%d" in storage, "%d-%m-%Y"
    for display) and day ordinals with `weekday()`. */
module Dates {
  import opened Wrappers
  import opened Text

  /** A `datetime.date`: proleptic Gregorian year, month and day. */
  datatype Date = Date(year: int, month: int, day: int)

  predicate IsLeap(y: int) {
    y % 4 == 0 && (y % 100 != 0 || y % 400 == 0)
  }

  function DaysInMonth(y: int, m: int): (r: int)
    requires 1 <= m <= 12
    ensures 28 <= r <= 31
    ensures r == 29 <==> m == 2 && IsLeap(y)
  {
    if m == 2 then (if IsLeap(y) then 29 else 28)
    else if m == 4 || m == 6 || m == 9 || m == 11 then 30
    else 31
  }

  /** The dates `datetime.date` can represent (years 1 to 9999). */
  predicate ValidDate(d: Date) {
    && 1 <= d.year <= 9999
    && 1 <= d.month <= 12
    && 1 <= d.day <= DaysInMonth(d.year, d.month)
  }

  /** A `datetime.date` object: always a valid date. */
  type CalendarDate = d: Date | ValidDate(d) witness Date(1, 1, 1)

  /** `a < b` on dates: by year, then month, then day. */
  predicate DateLt(a: Date, b: Date) {
    || a.year < b.year
    || (a.year == b.year && a.month < b.month)
    || (a.year == b.year && a.month == b.month && a.day < b.day)
  }

  /** `a <= b` on dates. */
  predicate DateLe(a: Date, b: Date) {
    a == b || DateLt(a, b)
  }

  // ---------------------------------------------------------------------
  // Day ordinals and weekday()
  // ---------------------------------------------------------------------

  /** A `datetime.date` as its proleptic ordinal (0001-01-01 is day 1);
      adding or subtracting a `timedelta` of `k` days adds or subtracts `k`. */
  type Day = int

  function DaysBeforeYear(y: int): int {
    var p := y - 1;
    p * 365 + p / 4 - p / 100 + p / 400
  }

  function DaysBeforeMonth(y: int, m: int): int
    requires 1 <= m <= 12
  {
    var table := [0, 31, 59, 90, 120, 151, 181, 212, 243, 273, 304, 334];
    table[m - 1] + (if m > 2 && IsLeap(y) then 1 else 0)
  }

  /** `d.toordinal()`: the first of January of year 1 is day 1, and every
      later date has a larger ordinal. */
  function Ordinal(d: Date): (o: Day)
    requires ValidDate(d)
    ensures o >= 1
    ensures d == Date(1, 1, 1) ==> o == 1
  {
    DaysBeforeYear(d.year) + DaysBeforeMonth(d.year, d.month) + d.day
  }

  /** Counting the multiples of 4, 100 and 400 up to `x` and up to `x + 1`. */
  lemma MultiplesStep(x: int)
    ensures (x + 1) / 4 - x / 4 == if (x + 1) % 4 == 0 then 1 else 0
    ensures (x + 1) / 100 - x / 100 == if (x + 1) % 100 == 0 then 1 else 0
    ensures (x + 1) / 400 - x / 400 == if (x + 1) % 400 == 0 then 1 else 0
  {
  }

  /** Multiples of 400 are multiples of 100, which are multiples of 4. */
  lemma MultiplesNest(y: int)
    ensures y % 400 == 0 ==> y % 100 == 0
    ensures y % 100 == 0 ==> y % 4 == 0
  {
    if y % 400 == 0 {
      HundredsOf(4 * (y / 400));
    }
    if y % 100 == 0 {
      HundredsOf(y / 100);
    }
  }

  /** A whole number of hundreds is a multiple of 100 and of 4. */
  lemma HundredsOf(k: int)
    ensures (100 * k) % 100 == 0 && (100 * k) % 4 == 0
  {
  }

  /** A year is 365 days long, 366 when it is a leap year. */
  lemma DaysBeforeYearStep(y: int)
    ensures DaysBeforeYear(y + 1) == DaysBeforeYear(y) + 365 + (if IsLeap(y) then 1 else 0)
  {
    MultiplesStep(y - 1);
    MultiplesNest(y);
  }

  /** Later years start later, by at least 365 days a year. */
  lemma {:induction false} DaysBeforeYearGrows(y: int, z: int)
    requires y <= z
    ensures DaysBeforeYear(y) + 365 * (z - y) <= DaysBeforeYear(z)
    decreases z - y
  {
    if y < z {
      DaysBeforeYearGrows(y, z - 1);
      DaysBeforeYearStep(z - 1);
    }
  }

  /** A month ends before any later month of the same year starts, and the
      last one ends with the year. */
  lemma DaysBeforeMonthGap(y: int, m: int, n: int)
    requires 1 <= m <= 12 && m < n <= 13
    ensures n <= 12 ==> DaysBeforeMonth(y, m) + DaysInMonth(y, m) <= DaysBeforeMonth(y, n)
    ensures n == 13 ==> DaysBeforeMonth(y, m) + DaysInMonth(y, m) <= 365 + (if IsLeap(y) then 1 else 0)
  {
  }

  /** The ordinal of a date lies within its year. */
  lemma OrdinalInYear(d: Date)
    requires ValidDate(d)
    ensures DaysBeforeYear(d.year) < Ordinal(d) <= DaysBeforeYear(d.year + 1)
  {
    DaysBeforeMonthGap(d.year, d.month, 13);
    DaysBeforeYearStep(d.year);
  }

  /** `toordinal` preserves the order of dates in both directions. */
  lemma OrdinalOrder(a: Date, b: Date)
    requires ValidDate(a) && ValidDate(b)
    ensures DateLt(a, b) <==> Ordinal(a) < Ordinal(b)
  {
    if a.year < b.year {
      OrdinalInYear(a);
      OrdinalInYear(b);
      DaysBeforeYearGrows(a.year + 1, b.year);
    } else if b.year < a.year {
      OrdinalInYear(a);
      OrdinalInYear(b);
      DaysBeforeYearGrows(b.year + 1, a.year);
    } else if a.month < b.month {
      DaysBeforeMonthGap(a.year, a.month, b.month);
    } else if b.month < a.month {
      DaysBeforeMonthGap(a.year, b.month, a.month);
    }
  }

  /** `weekday()` of the date with ordinal `o`: Monday is 0, Sunday is 6. */
  function Weekday(o: Day): (r: int)
    ensures 0 <= r < 7
  {
    (o + 6) % 7
  }

  const Sunday := 6

  // ---------------------------------------------------------------------
  // Fixed-width field splitting
  // ---------------------------------------------------------------------

  /** The three numeric fields of a "NNNN-NN-NN" style string, each at its
      given offset and width, when the separators are where they belong and
      every other character is a digit. */
  predicate DigitsAt(s: string, lo: nat, hi: nat) {
    lo <= hi <= |s| && forall i | lo <= i < hi :: IsDigit(s[i])
  }

  function FieldAt(s: string, lo: nat, hi: nat): nat
    requires DigitsAt(s, lo, hi)
  {
    Digits(s[lo..hi])
  }

  // ---------------------------------------------------------------------
  // "%Y-%m-%d", the storage format
  // ---------------------------------------------------------------------

  /** `d.strftime("%Y-%m-%d")`. */
  function IsoFormat(d: Date): (s: string)
    requires ValidDate(d)
    ensures |s| == 10
  {
    Pad(d.year, 4) + MonthDayTail(d)
  }

  /** The "-MM-DD" part of the storage format. */
  function MonthDayTail(d: Date): (s: string)
    requires ValidDate(d)
    ensures |s| == 6
  {
    "-" + Pad(d.month, 2) + "-" + Pad(d.day, 2)
  }

  /** The shape `strftime("%Y-%m-%d")` produces. */
  predicate IsoShaped(s: string) {
    && |s| == 10 && s[4] == '-' && s[7] == '-'
    && DigitsAt(s, 0, 4) && DigitsAt(s, 5, 7) && DigitsAt(s, 8, 10)
  }

  /** `datetime.strptime(s, "%Y-%m-%d").date()` on the zero-padded form:
      `None` where strptime raises ValueError. */
  function ParseIso(s: string): (r: Option<Date>)
    ensures r.Some? ==> ValidDate(r.value)
  {
    if !IsoShaped(s) then None
    else
      var d := Date(FieldAt(s, 0, 4), FieldAt(s, 5, 7), FieldAt(s, 8, 10));
      if ValidDate(d) then Some(d) else None
  }

  lemma IsoFormatFields(d: Date)
    requires ValidDate(d)
    ensures IsoShaped(IsoFormat(d))
    ensures IsoFormat(d)[0..4] == Pad(d.year, 4)
    ensures IsoFormat(d)[5..7] == Pad(d.month, 2)
    ensures IsoFormat(d)[8..10] == Pad(d.day, 2)
  {
    var s := IsoFormat(d);
    assert s[0..4] == Pad(d.year, 4);
    assert s[5..7] == Pad(d.month, 2);
    assert s[8..10] == Pad(d.day, 2);
  }

  /** Parsing a formatted date gives the date back. */
  lemma ParseIsoOfFormat(d: Date)
    requires ValidDate(d)
    ensures ParseIso(IsoFormat(d)) == Some(d)
  {
    IsoFormatFields(d);
    DigitsOfPad(d.year, 4);
    DigitsOfPad(d.month, 2);
    DigitsOfPad(d.day, 2);
  }

  /** Every string the parser accepts is the formatted form of what it
      returns, so stored date strings and dates correspond one to one. */
  lemma FormatOfParseIso(s: string)
    requires ParseIso(s).Some?
    ensures IsoFormat(ParseIso(s).value) == s
  {
    PadOfDigits(s[0..4]);
    PadOfDigits(s[5..7]);
    PadOfDigits(s[8..10]);
    assert s == s[0..4] + "-" + s[5..7] + "-" + s[8..10];
  }

  /** Comparing concatenations whose first parts have one length. */
  lemma {:induction false} StrLtConcat(a1: string, a2: string, b1: string, b2: string)
    requires |a1| == |b1|
    ensures StrLt(a1 + a2, b1 + b2) <==> StrLt(a1, b1) || (a1 == b1 && StrLt(a2, b2))
    decreases |a1|
  {
    if a1 != [] {
      assert (a1 + a2)[1..] == a1[1..] + a2 && (b1 + b2)[1..] == b1[1..] + b2;
      StrLtConcat(a1[1..], a2, b1[1..], b2);
      if a1[0] == b1[0] && a1[1..] == b1[1..] { assert a1 == b1; }
    } else {
      assert a1 + a2 == a2 && b1 + b2 == b2;
    }
  }

  /** Prefixing one character to both sides does not change their order. */
  lemma StrLtCons(c: char, x: string, y: string)
    ensures StrLt([c] + x, [c] + y) <==> StrLt(x, y)
  {
    assert ([c] + x)[1..] == x && ([c] + y)[1..] == y;
  }

  /** The "-MM-DD" tails compare as (month, day) pairs do. */
  lemma MonthDayOrder(a: Date, b: Date)
    requires ValidDate(a) && ValidDate(b)
    ensures StrLt(MonthDayTail(a), MonthDayTail(b))
        <==> a.month < b.month || (a.month == b.month && a.day < b.day)
  {
    var ma, mb := Pad(a.month, 2), Pad(b.month, 2);
    var da, db := Pad(a.day, 2), Pad(b.day, 2);
    PadOrder(a.month, b.month, 2);
    PadOrder(a.day, b.day, 2);
    if ma == mb { PadInjective(a.month, b.month, 2); }
    StrLtCons('-', da, db);
    StrLtConcat(ma, "-" + da, mb, "-" + db);
    StrLtCons('-', ma + ("-" + da), mb + ("-" + db));
    assert "-" + ma + "-" + da == ['-'] + (ma + ("-" + da));
    assert "-" + mb + "-" + db == ['-'] + (mb + ("-" + db));
  }

  /** Stored date strings compare as strings exactly as the dates compare,
      so sorting by the stored string sorts chronologically. */
  lemma IsoFormatOrder(a: Date, b: Date)
    requires ValidDate(a) && ValidDate(b)
    ensures StrLt(IsoFormat(a), IsoFormat(b)) <==> DateLt(a, b)
  {
    var ya, yb := Pad(a.year, 4), Pad(b.year, 4);
    PadOrder(a.year, b.year, 4);
    if ya == yb { PadInjective(a.year, b.year, 4); }
    MonthDayOrder(a, b);
    StrLtConcat(ya, MonthDayTail(a), yb, MonthDayTail(b));
  }

  lemma IsoFormatInjective(a: Date, b: Date)
    requires ValidDate(a) && ValidDate(b) && IsoFormat(a) == IsoFormat(b)
    ensures a == b
  {
    ParseIsoOfFormat(a);
    ParseIsoOfFormat(b);
  }

  // ---------------------------------------------------------------------
  // "%d-%m-%Y", the display format
  // ---------------------------------------------------------------------

  /** `d.strftime("%d-%m-%Y")`. */
  function DmyFormat(d: Date): (s: string)
    requires ValidDate(d)
    ensures |s| == 10
  {
    Pad(d.day, 2) + "-" + Pad(d.month, 2) + "-" + Pad(d.year, 4)
  }

  /** `datetime.strptime(s, "%d-%m-%Y").date()` on the zero-padded form. */
  function ParseDmy(s: string): (r: Option<Date>)
    ensures r.Some? ==> ValidDate(r.value)
  {
    if !(|s| == 10 && s[2] == '-' && s[5] == '-'
         && DigitsAt(s, 0, 2) && DigitsAt(s, 3, 5) && DigitsAt(s, 6, 10)) then None
    else
      var d := Date(FieldAt(s, 6, 10), FieldAt(s, 3, 5), FieldAt(s, 0, 2));
      if ValidDate(d) then Some(d) else None
  }

  lemma ParseDmyOfFormat(d: Date)
    requires ValidDate(d)
    ensures ParseDmy(DmyFormat(d)) == Some(d)
  {
    var s := DmyFormat(d);
    assert s[0..2] == Pad(d.day, 2);
    assert s[3..5] == Pad(d.month, 2);
    assert s[6..10] == Pad(d.year, 4);
    DigitsOfPad(d.year, 4);
    DigitsOfPad(d.month, 2);
    DigitsOfPad(d.day, 2);
  }

  /** A day-first parser rejects every stored (year-first) date string:
      the third character of a stored date is a year digit, not '-'. */
  lemma ParseDmyRejectsIso(d: Date)
    requires ValidDate(d)
    ensures ParseDmy(IsoFormat(d)) == None
  {
    IsoFormatFields(d);
    assert IsoFormat(d)[2] == Pad(d.year, 4)[2];
  }
}
