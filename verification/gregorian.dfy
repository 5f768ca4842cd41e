/**
 * The proleptic Gregorian calendar as Python's `datetime.date` sees it:
 * dates from 0001-01-01 to 9999-12-31, numbered by ordinal so that
 * 0001-01-01 is day 1. All day arithmetic of the model happens on ordinals.
 */
module Gregorian {

  /** A calendar day, as its ordinal (`date.toordinal()`). */
  type Day = int

  const MinYear: int := 1
  const MaxYear: int := 9999

  /** Divisible by 4, and not by 100 unless also by 400. */
  predicate IsLeapYear(y: int) {
    y % 4 == 0 && (y % 100 != 0 || y % 400 == 0)
  }

  function YearLength(y: int): int {
    if IsLeapYear(y) then 366 else 365
  }

  function DaysInMonth(y: int, m: int): int
    requires 1 <= m <= 12
  {
    if m == 2 then (if IsLeapYear(y) then 29 else 28)
    else if m == 4 || m == 6 || m == 9 || m == 11 then 30
    else 31
  }

  /** The dates `datetime.date(y, m, d)` accepts. */
  predicate IsValidDate(y: int, m: int, d: int) {
    MinYear <= y <= MaxYear && 1 <= m <= 12 && 1 <= d <= DaysInMonth(y, m)
  }

  /** Number of days in the years 1 .. y-1. */
  function DaysBeforeYear(y: int): int
    requires y >= 1
  {
    var p := y - 1;
    p * 365 + p / 4 - p / 100 + p / 400
  }

  /** Number of days in the months 1 .. m-1 of year y. */
  function DaysBeforeMonth(y: int, m: int): int
    requires 1 <= m <= 12
  {
    var common := [0, 31, 59, 90, 120, 151, 181, 212, 243, 273, 304, 334];
    common[m - 1] + (if m > 2 && IsLeapYear(y) then 1 else 0)
  }

  function ToOrdinal(y: int, m: int, d: int): Day
    requires y >= 1 && 1 <= m <= 12
  {
    DaysBeforeYear(y) + DaysBeforeMonth(y, m) + d
  }

  /** The ordinal of 9999-12-31, the last date Python represents. */
  const MaxOrdinal: Day := 3652059

  /** Python's order on dates: by year, then month, then day. */
  predicate Before(y1: int, m1: int, d1: int, y2: int, m2: int, d2: int) {
    y1 < y2 || (y1 == y2 && (m1 < m2 || (m1 == m2 && d1 < d2)))
  }

  /** The calendar date that follows (y, m, d). */
  function NextDate(y: int, m: int, d: int): (int, int, int)
    requires 1 <= m <= 12
  {
    if d < DaysInMonth(y, m) then (y, m, d + 1)
    else if m < 12 then (y, m + 1, 1)
    else (y + 1, 1, 1)
  }

  /** Going from January 1 of year y to January 1 of year y+1 takes exactly the length of year y. */
  lemma DaysBeforeYearStep(y: int)
    requires y >= 1
    ensures DaysBeforeYear(y + 1) == DaysBeforeYear(y) + YearLength(y)
  {
    var p := y - 1;
    var a, b, c := if y % 4 == 0 then 1 else 0, if y % 100 == 0 then 1 else 0, if y % 400 == 0 then 1 else 0;
    FloorStep4(p);
    FloorStep100(p);
    FloorStep400(p);
    assert DaysBeforeYear(y + 1) == y * 365 + (p / 4 + a) - (p / 100 + b) + (p / 400 + c);
    LeapIndicators(y);
  }

  /** The length of a year from the three divisibility tests: 365, plus 1 per 4, minus 1 per 100, plus 1 per 400. */
  lemma LeapIndicators(y: int)
    ensures YearLength(y) == 365 + (if y % 4 == 0 then 1 else 0) - (if y % 100 == 0 then 1 else 0)
      + (if y % 400 == 0 then 1 else 0)
  {
    if y % 400 == 0 {
      assert y == 100 * (4 * (y / 400));
    }
    if y % 100 == 0 {
      assert y == 4 * (25 * (y / 100));
    }
  }

  /** One more year adds one to the count of multiples of 4 exactly when it is such a multiple. */
  lemma FloorStep4(p: int)
    requires p >= 0
    ensures (p + 1) / 4 == p / 4 + (if (p + 1) % 4 == 0 then 1 else 0)
  {
    var q, r := p / 4, p % 4;
    assert p == 4 * q + r && 0 <= r < 4;
    if r == 3 {
      assert p + 1 == 4 * (q + 1);
    } else {
      assert p + 1 == 4 * q + (r + 1) && r + 1 < 4;
    }
  }

  lemma FloorStep100(p: int)
    requires p >= 0
    ensures (p + 1) / 100 == p / 100 + (if (p + 1) % 100 == 0 then 1 else 0)
  {
    var q, r := p / 100, p % 100;
    assert p == 100 * q + r && 0 <= r < 100;
    if r == 99 {
      assert p + 1 == 100 * (q + 1);
    } else {
      assert p + 1 == 100 * q + (r + 1) && r + 1 < 100;
    }
  }

  lemma FloorStep400(p: int)
    requires p >= 0
    ensures (p + 1) / 400 == p / 400 + (if (p + 1) % 400 == 0 then 1 else 0)
  {
    var q, r := p / 400, p % 400;
    assert p == 400 * q + r && 0 <= r < 400;
    if r == 399 {
      assert p + 1 == 400 * (q + 1);
    } else {
      assert p + 1 == 400 * q + (r + 1) && r + 1 < 400;
    }
  }

  lemma {:induction false} DaysBeforeYearMonotone(a: int, b: int)
    requires 1 <= a < b
    ensures DaysBeforeYear(a) + YearLength(a) <= DaysBeforeYear(b)
    decreases b - a
  {
    DaysBeforeYearStep(a);
    if a + 1 < b {
      DaysBeforeYearMonotone(a + 1, b);
    }
  }

  lemma DaysBeforeMonthStep(y: int, m: int)
    requires 1 <= m <= 12
    ensures m < 12 ==> DaysBeforeMonth(y, m + 1) == DaysBeforeMonth(y, m) + DaysInMonth(y, m)
    ensures m == 12 ==> DaysBeforeMonth(y, m) + DaysInMonth(y, m) == YearLength(y)
  {
  }

  /** A valid date's ordinal lies inside its own year and inside its own month. */
  lemma OrdinalWithinYear(y: int, m: int, d: int)
    requires IsValidDate(y, m, d)
    ensures DaysBeforeYear(y) + DaysBeforeMonth(y, m) < ToOrdinal(y, m, d)
    ensures ToOrdinal(y, m, d) <= DaysBeforeYear(y) + DaysBeforeMonth(y, m) + DaysInMonth(y, m)
    ensures DaysBeforeMonth(y, m) + DaysInMonth(y, m) <= YearLength(y)
  {
  }

  lemma MonthsOrdered(y: int, m1: int, m2: int)
    requires 1 <= m1 < m2 <= 12
    ensures DaysBeforeMonth(y, m1) + DaysInMonth(y, m1) <= DaysBeforeMonth(y, m2)
  {
  }

  /**
   * Comparing two valid dates by ordinal is Python's date comparison:
   * one ordinal is smaller exactly when its date comes first by year,
   * month and day, and the ordinals are equal exactly when the dates are.
   */
  lemma OrdinalOrder(y1: int, m1: int, d1: int, y2: int, m2: int, d2: int)
    requires IsValidDate(y1, m1, d1) && IsValidDate(y2, m2, d2)
    ensures ToOrdinal(y1, m1, d1) < ToOrdinal(y2, m2, d2) <==> Before(y1, m1, d1, y2, m2, d2)
    ensures ToOrdinal(y1, m1, d1) == ToOrdinal(y2, m2, d2) <==> (y1, m1, d1) == (y2, m2, d2)
  {
    OrdinalWithinYear(y1, m1, d1);
    OrdinalWithinYear(y2, m2, d2);
    if y1 < y2 {
      DaysBeforeYearMonotone(y1, y2);
    } else if y2 < y1 {
      DaysBeforeYearMonotone(y2, y1);
    } else if m1 < m2 {
      MonthsOrdered(y1, m1, m2);
    } else if m2 < m1 {
      MonthsOrdered(y1, m2, m1);
    }
  }

  /** The date after a valid date has the next ordinal, across month and year ends. */
  lemma NextDateOrdinal(y: int, m: int, d: int)
    requires IsValidDate(y, m, d) && (y, m, d) != (MaxYear, 12, 31)
    ensures var (y', m', d') := NextDate(y, m, d);
      IsValidDate(y', m', d') && ToOrdinal(y', m', d') == ToOrdinal(y, m, d) + 1
  {
    DaysBeforeMonthStep(y, m);
    if d == DaysInMonth(y, m) && m == 12 {
      DaysBeforeYearStep(y);
    }
  }

  lemma OrdinalRange(y: int, m: int, d: int)
    requires IsValidDate(y, m, d)
    ensures 1 <= ToOrdinal(y, m, d) <= MaxOrdinal
  {
    OrdinalWithinYear(y, m, d);
    if y < MaxYear {
      DaysBeforeYearMonotone(y, MaxYear);
    }
  }

  /**
   * The calendar date of an ordinal: the same date `date.fromordinal`
   * returns, found here by peeling off whole years and then whole months
   * (Python itself works in cycles of 400, 100, 4 and 1 years).
   */
  method FromOrdinal(n: Day) returns (y: int, m: int, d: int)
    requires 1 <= n <= MaxOrdinal
    ensures IsValidDate(y, m, d) && ToOrdinal(y, m, d) == n
    ensures forall y', m', d' :: IsValidDate(y', m', d') && ToOrdinal(y', m', d') == n ==> (y', m', d') == (y, m, d)
  {
    y := 1;
    var rest := n;
    while rest > YearLength(y)
      invariant MinYear <= y <= MaxYear
      invariant 1 <= rest
      invariant DaysBeforeYear(y) + rest == n
      decreases rest
    {
      DaysBeforeYearStep(y);
      rest := rest - YearLength(y);
      y := y + 1;
    }
    m := 1;
    while rest > DaysInMonth(y, m)
      invariant 1 <= m <= 12
      invariant 1 <= rest
      invariant DaysBeforeMonth(y, m) + rest <= YearLength(y)
      invariant DaysBeforeYear(y) + DaysBeforeMonth(y, m) + rest == n
      decreases rest
    {
      DaysBeforeMonthStep(y, m);
      rest := rest - DaysInMonth(y, m);
      m := m + 1;
    }
    d := rest;
    forall y', m', d' | IsValidDate(y', m', d') && ToOrdinal(y', m', d') == n
      ensures (y', m', d') == (y, m, d)
    {
      OrdinalOrder(y', m', d', y, m, d);
    }
  }
}
