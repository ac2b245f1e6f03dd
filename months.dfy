/** Month navigation and the month normalisation the window queries use. */
module Months {

  /** A (year, month) pair as the services pass them around. */
  datatype YearMonth = YearMonth(year: int, month: int)

  predicate ValidMonth(m: int) {
    1 <= m <= 12
  }

  /** The month counted from year 0: consecutive months have consecutive
      indices across a year boundary. */
  function MonthIndex(ym: YearMonth): int {
    ym.year * 12 + ym.month
  }

  /** Two months with one index and months in 1..12 are the same month. */
  lemma MonthIndexInjective(a: YearMonth, b: YearMonth)
    requires ValidMonth(a.month) && ValidMonth(b.month) && MonthIndex(a) == MonthIndex(b)
    ensures a == b
  {
  }

  /** `calculate_next_month(year, month)`: the month after a month in 1..12,
      rolling into January of the next year after December. */
  function NextMonth(year: int, month: int): (r: YearMonth)
    ensures ValidMonth(month) ==> ValidMonth(r.month) && MonthIndex(r) == year * 12 + month + 1
    ensures month == 12 ==> r == YearMonth(year + 1, 1)
  {
    if month < 12 then YearMonth(year, month + 1) else YearMonth(year + 1, 1)
  }

  /** `calculate_previous_month(year, month)`: the month before a month in
      1..12, rolling back into December of the previous year after January. */
  function PreviousMonth(year: int, month: int): (r: YearMonth)
    ensures ValidMonth(month) ==> ValidMonth(r.month) && MonthIndex(r) == year * 12 + month - 1
    ensures month == 1 ==> r == YearMonth(year - 1, 12)
  {
    if month > 1 then YearMonth(year, month - 1) else YearMonth(year - 1, 12)
  }

  /** Going forward then back (or back then forward) returns to the month. */
  lemma NextPreviousInverse(year: int, month: int)
    requires ValidMonth(month)
    ensures var n := NextMonth(year, month); PreviousMonth(n.year, n.month) == YearMonth(year, month)
    ensures var p := PreviousMonth(year, month); NextMonth(p.year, p.month) == YearMonth(year, month)
  {
    var n := NextMonth(year, month);
    MonthIndexInjective(PreviousMonth(n.year, n.month), YearMonth(year, month));
    var p := PreviousMonth(year, month);
    MonthIndexInjective(NextMonth(p.year, p.month), YearMonth(year, month));
  }

  /** The month `month - 1` months after January of `year`, for any
      integer `month`. */
  function Normalised(year: int, month: int): (r: YearMonth)
    ensures ValidMonth(r.month)
    ensures MonthIndex(r) == year * 12 + month
  {
    YearMonth(year + (month - 1) / 12, (month - 1) % 12 + 1)
  }

  /** The two adjustment loops of the month-window queries: add twelve
      months while the month is not positive, subtract twelve while it is
      past December, moving the year the other way each time. */
  method NormaliseMonth(year: int, month: int) returns (y: int, m: int)
    ensures YearMonth(y, m) == Normalised(year, month)
  {
    y, m := year, month;
    while m <= 0
      invariant y * 12 + m == year * 12 + month
      decreases -m
    {
      m := m + 12;
      y := y - 1;
    }
    while m > 12
      invariant 1 <= m
      invariant y * 12 + m == year * 12 + month
      decreases m
    {
      m := m - 12;
      y := y + 1;
    }
    MonthIndexInjective(YearMonth(y, m), Normalised(year, month));
  }
}
