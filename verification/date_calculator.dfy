/**
 * `DateCalculator`: given two of start date, end date and day count, each
 * operation returns the third. All three validate through a
 * `DateCalculationRequest` first (the only way they can fail) and then apply
 * one rule, the inclusion offset.
 */
module DateCalculator {
  import opened Wrappers
  import opened Gregorian
  import opened DateModels

  /**
   * The distance between the first and the last counted day of a range of
   * `days` days: `days - 1` when the start date counts as day 1, `days` when not.
   */
  function InclusionOffset(days: int, includeStart: bool): int {
    if includeStart then days - 1 else days
  }

  /** The days lo, lo+1, .., hi (empty when hi < lo). */
  function Interval(lo: Day, hi: Day): set<Day>
    decreases hi - lo
  {
    if hi < lo then {} else Interval(lo, hi - 1) + {hi}
  }

  /** The days a range counts: from the start (or the day after it) through the end. */
  function CountedDays(startDate: Day, endDate: Day, includeStart: bool): set<Day> {
    Interval(if includeStart then startDate else startDate + 1, endDate)
  }

  lemma {:induction false} IntervalMembers(lo: Day, hi: Day)
    ensures forall d :: d in Interval(lo, hi) <==> lo <= d <= hi
    decreases hi - lo
  {
    if lo <= hi {
      IntervalMembers(lo, hi - 1);
    }
  }

  /**
   * The rule both date operations share: stepping the offset forward from an
   * anchor, or back to it, spans a range that counts exactly `days` days.
   */
  lemma OffsetSpansDays(anchor: Day, days: nat, includeStart: bool)
    ensures |CountedDays(anchor, anchor + InclusionOffset(days, includeStart), includeStart)| == days
    ensures |CountedDays(anchor - InclusionOffset(days, includeStart), anchor, includeStart)| == days
  {
    var offset := InclusionOffset(days, includeStart);
    IntervalSize(if includeStart then anchor else anchor + 1, anchor + offset);
    IntervalSize(if includeStart then anchor - offset else anchor - offset + 1, anchor);
  }

  lemma {:induction false} IntervalSize(lo: Day, hi: Day)
    ensures |Interval(lo, hi)| == if hi < lo then 0 else hi - lo + 1
    decreases hi - lo
  {
    if lo <= hi {
      IntervalMembers(lo, hi - 1);
      IntervalSize(lo, hi - 1);
    }
  }

  /** `calculate_days_from_dates`. */
  function DaysFromDates(startDate: Day, endDate: Day, includeStart: bool := true): (r: Result<int, RequestError>)
    ensures r.Failure? <==> startDate > endDate
    ensures r.Failure? ==> r.error == StartAfterEnd
    ensures r.Success? ==> r.value == (endDate - startDate) + (if includeStart then 1 else 0)
    ensures r.Success? ==> r.value == |CountedDays(startDate, endDate, includeStart)|
    ensures r.Success? ==> r.value >= (if includeStart then 1 else 0)
  {
    IntervalSize(if includeStart then startDate else startDate + 1, endDate);
    var req :- NewRequest(Some(startDate), Some(endDate), None, includeStart);
    var delta := req.endDate.value - req.startDate.value;
    Success(if req.includeStart then delta + 1 else delta)
  }

  /** `calculate_end_date`. */
  function EndDate(startDate: Day, days: int, includeStart: bool := true): (r: Result<Day, RequestError>)
    ensures r.Failure? <==> days < 0
    ensures r.Failure? ==> r.error == NegativeDays
    ensures r.Success? ==> r.value == startDate + InclusionOffset(days, includeStart)
    ensures r.Success? ==> |CountedDays(startDate, r.value, includeStart)| == days
  {
    IntervalSize(if includeStart then startDate else startDate + 1, startDate + InclusionOffset(days, includeStart));
    var req :- NewRequest(Some(startDate), None, Some(days), includeStart);
    Success(req.startDate.value + InclusionOffset(req.days.value, req.includeStart))
  }

  /** `calculate_start_date`. */
  function StartDate(endDate: Day, days: int, includeStart: bool := true): (r: Result<Day, RequestError>)
    ensures r.Failure? <==> days < 0
    ensures r.Failure? ==> r.error == NegativeDays
    ensures r.Success? ==> r.value == endDate - InclusionOffset(days, includeStart)
    ensures r.Success? ==> |CountedDays(r.value, endDate, includeStart)| == days
  {
    var s := endDate - InclusionOffset(days, includeStart);
    IntervalSize(if includeStart then s else s + 1, endDate);
    var req :- NewRequest(None, Some(endDate), Some(days), includeStart);
    Success(req.endDate.value - InclusionOffset(req.days.value, req.includeStart))
  }

  /** The two date operations fail on the same inputs, and with the same error. */
  lemma DateOperationsFailAlike(d1: Day, d2: Day, days: int, includeStart: bool)
    ensures EndDate(d1, days, includeStart).Failure? <==> StartDate(d2, days, includeStart).Failure?
    ensures EndDate(d1, days, includeStart).Failure? ==>
      EndDate(d1, days, includeStart) == StartDate(d2, days, includeStart)
  {
  }

  /** Counting a range and then rebuilding either end from the count gives the range back. */
  lemma RoundTrip(startDate: Day, endDate: Day, includeStart: bool)
    requires startDate <= endDate
    ensures DaysFromDates(startDate, endDate, includeStart).Success?
    ensures EndDate(startDate, DaysFromDates(startDate, endDate, includeStart).value, includeStart) == Success(endDate)
    ensures StartDate(endDate, DaysFromDates(startDate, endDate, includeStart).value, includeStart) == Success(startDate)
  {
  }

  /**
   * Rebuilding a date from a count and counting again gives the count back,
   * whenever the rebuilt range is not reversed (at least one day when the
   * start counts).
   */
  lemma ReverseRoundTrip(d: Day, days: int, includeStart: bool)
    requires days >= (if includeStart then 1 else 0)
    ensures EndDate(d, days, includeStart).Success? && StartDate(d, days, includeStart).Success?
    ensures DaysFromDates(d, EndDate(d, days, includeStart).value, includeStart) == Success(days)
    ensures DaysFromDates(StartDate(d, days, includeStart).value, d, includeStart) == Success(days)
  {
  }

  /** With zero days and the start counted, the result lies one day outside the given date. */
  lemma ZeroDays(d: Day)
    ensures EndDate(d, 0, true) == Success(d - 1)
    ensures StartDate(d, 0, true) == Success(d + 1)
    ensures EndDate(d, 0, false) == Success(d)
    ensures StartDate(d, 0, false) == Success(d)
  {
  }

  /** Counting the start date costs exactly one day. */
  lemma ConventionShift(d: Day, days: int)
    requires days >= 0
    ensures EndDate(d, days + 1, true) == EndDate(d, days, false)
    ensures StartDate(d, days + 1, true) == StartDate(d, days, false)
  {
  }

  /** A range of a single date counts 1 day with the start included and 0 without. */
  lemma SameDate(d: Day)
    ensures DaysFromDates(d, d, true) == Success(1)
    ensures DaysFromDates(d, d, false) == Success(0)
  {
  }

  /** The docstring examples of the three operations, on 2024-01-01 .. 2024-01-04. */
  lemma DocstringExamples()
    ensures DaysFromDates(ToOrdinal(2024, 1, 1), ToOrdinal(2024, 1, 3), true) == Success(3)
    ensures DaysFromDates(ToOrdinal(2024, 1, 1), ToOrdinal(2024, 1, 3), false) == Success(2)
    ensures EndDate(ToOrdinal(2024, 1, 1), 3, true) == Success(ToOrdinal(2024, 1, 3))
    ensures EndDate(ToOrdinal(2024, 1, 1), 3, false) == Success(ToOrdinal(2024, 1, 4))
    ensures StartDate(ToOrdinal(2024, 1, 3), 3, true) == Success(ToOrdinal(2024, 1, 1))
    ensures StartDate(ToOrdinal(2024, 1, 3), 3, false) == Success(ToOrdinal(2023, 12, 31))
  {
    assert ToOrdinal(2024, 1, 1) == 738886;
    assert ToOrdinal(2023, 12, 31) == 738885;
  }

  /** February 29 is counted in 2024 and absent in 2023. */
  lemma LeapYearScenario()
    ensures DaysFromDates(ToOrdinal(2024, 2, 28), ToOrdinal(2024, 3, 1), true) == Success(3)
    ensures DaysFromDates(ToOrdinal(2023, 2, 28), ToOrdinal(2023, 3, 1), true) == Success(2)
  {
    assert ToOrdinal(2024, 2, 28) == 738944 && ToOrdinal(2024, 3, 1) == 738946;
    assert ToOrdinal(2023, 2, 28) == 738579 && ToOrdinal(2023, 3, 1) == 738580;
  }

  /** Ten days ending 2023-01-05 reach back into December 2022. */
  lemma CrossYearStartDate()
    ensures StartDate(ToOrdinal(2023, 1, 5), 10, true) == Success(ToOrdinal(2022, 12, 27))
    ensures StartDate(ToOrdinal(2023, 1, 5), 10, false) == Success(ToOrdinal(2022, 12, 26))
  {
    assert ToOrdinal(2023, 1, 5) == 738525;
    assert ToOrdinal(2022, 12, 27) == 738516 && ToOrdinal(2022, 12, 26) == 738515;
  }

  /** A range that crosses a year end, and a count of a whole (leap) year's length. */
  lemma CrossYearScenarios()
    ensures DaysFromDates(ToOrdinal(2023, 12, 31), ToOrdinal(2024, 1, 2), true) == Success(3)
    ensures EndDate(ToOrdinal(2024, 1, 1), 365, true) == Success(ToOrdinal(2024, 12, 30))
  {
    assert ToOrdinal(2023, 12, 31) == 738885 && ToOrdinal(2024, 1, 2) == 738887;
    assert ToOrdinal(2024, 1, 1) == 738886 && ToOrdinal(2024, 12, 30) == 739250;
  }

  /**
   * 10000 days ending 2025-07-07 start on 1998-02-20 (1998-02-19 without the
   * start): the code steps back 9999 or 10000 days, which never lands in March 1998.
   */
  lemma LongRangeStartDate()
    ensures StartDate(ToOrdinal(2025, 7, 7), 10000, true) == Success(ToOrdinal(1998, 2, 20))
    ensures StartDate(ToOrdinal(2025, 7, 7), 10000, false) == Success(ToOrdinal(1998, 2, 19))
    ensures StartDate(ToOrdinal(2025, 7, 7), 10000, true) != Success(ToOrdinal(1998, 3, 11))
    ensures StartDate(ToOrdinal(2025, 7, 7), 10000, false) != Success(ToOrdinal(1998, 3, 10))
  {
    assert ToOrdinal(2025, 7, 7) == 739439;
    assert ToOrdinal(1998, 2, 20) == 729440 && ToOrdinal(1998, 2, 19) == 729439;
    assert ToOrdinal(1998, 3, 11) == 729459 && ToOrdinal(1998, 3, 10) == 729458;
  }

  /** 1989-01-28 to 2025-07-07 spans 13309 elapsed days; 10000 days from the start ends in June 2016. */
  lemma LongRangeScenarios()
    ensures DaysFromDates(ToOrdinal(1989, 1, 28), ToOrdinal(2025, 7, 7), true) == Success(13310)
    ensures DaysFromDates(ToOrdinal(1989, 1, 28), ToOrdinal(2025, 7, 7), false) == Success(13309)
    ensures EndDate(ToOrdinal(1989, 1, 28), 10000, true) == Success(ToOrdinal(2016, 6, 14))
    ensures EndDate(ToOrdinal(1989, 1, 28), 10000, false) == Success(ToOrdinal(2016, 6, 15))
  {
    assert ToOrdinal(1989, 1, 28) == 726130 && ToOrdinal(2025, 7, 7) == 739439;
    assert ToOrdinal(2016, 6, 14) == 736129 && ToOrdinal(2016, 6, 15) == 736130;
  }
}
