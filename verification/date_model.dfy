/**
 * The value objects of `date_model.py`: `NullableDate`, a partial calendar
 * date (a year, an optional month and an optional day that needs the month),
 * and `DatePeriod`, a stricter immutable date range than the calculator's
 * request.
 */
module DateModel {
  import opened Wrappers
  import opened Gregorian
  import opened Decimal
  import DateModels

  // ---------------------------------------------------------------- NullableDate

  /** One failed field check. Field checks are collected across fields, in field order. */
  datatype NullableDateError =
    | BelowMinimum(field: string, minimum: nat)
    | AboveMaximum(field: string, maximum: nat)
    | DayWithoutMonth
    | InvalidDate(year: nat, month: nat, day: nat)
  {
    function Message(): string {
      match this
      case BelowMinimum(_, lo) => "Input should be greater than or equal to " + NatToString(lo)
      case AboveMaximum(_, hi) => "Input should be less than or equal to " + NatToString(hi)
      case DayWithoutMonth => "Day cannot be specified without month"
      case InvalidDate(y, m, d) =>
        "Invalid date: " + NatToString(y) + "-" + PaddedString(m, 2) + "-" + PaddedString(d, 2)
    }

    /** The field an error is reported on; the day validator reports on `day`. */
    function Field(): string {
      match this
      case BelowMinimum(f, _) => f
      case AboveMaximum(f, _) => f
      case DayWithoutMonth => "day"
      case InvalidDate(_, _, _) => "day"
    }
  }

  /** The position of a field in the declaration order year, month, day. */
  function FieldIndex(f: string): nat {
    if f == "year" then 0 else if f == "month" then 1 else if f == "day" then 2 else 3
  }

  /** The errors the three field declarations and the day validator can raise. */
  predicate DeclaredError(e: NullableDateError) {
    || e == BelowMinimum("year", 1) || e == AboveMaximum("year", 9999)
    || e == BelowMinimum("month", 1) || e == AboveMaximum("month", 12)
    || e == BelowMinimum("day", 1) || e == AboveMaximum("day", 31)
    || e == DayWithoutMonth || e.InvalidDate?
  }

  /** Errors listed one per field at most, in declaration order. */
  predicate InFieldOrder(errs: seq<NullableDateError>) {
    forall i, j :: 0 <= i < j < |errs| ==> FieldIndex(errs[i].Field()) < FieldIndex(errs[j].Field())
  }

  datatype NullableDate = NullableDate(year: int, month: Option<int>, day: Option<int>)

  /** What a constructed `NullableDate` satisfies: the field bounds, and a day only with a month, forming a real date. */
  predicate ValidNullableDate(year: int, month: Option<int>, day: Option<int>) {
    && MinYear <= year <= MaxYear
    && (month.Some? ==> 1 <= month.value <= 12)
    && (day.Some? ==> month.Some? && IsValidDate(year, month.value, day.value))
  }

  predicate Valid(nd: NullableDate) {
    ValidNullableDate(nd.year, nd.month, nd.day)
  }

  /** The bound check of an integer field: `Field(ge=lo, le=hi)`. */
  function BoundErrors(field: string, v: int, lo: nat, hi: nat): (errs: seq<NullableDateError>)
    ensures errs == [] <==> lo <= v <= hi
    ensures BelowMinimum(field, lo) in errs <==> v < lo
    ensures lo <= hi ==> (AboveMaximum(field, hi) in errs <==> v > hi)
    ensures |errs| <= 1
    ensures forall e | e in errs :: e.Field() == field && (e == BelowMinimum(field, lo) || e == AboveMaximum(field, hi))
  {
    if v < lo then [BelowMinimum(field, lo)]
    else if v > hi then [AboveMaximum(field, hi)]
    else []
  }

  function OptionalBoundErrors(field: string, v: Option<int>, lo: nat, hi: nat): (errs: seq<NullableDateError>)
    ensures errs == [] <==> (v.Some? ==> lo <= v.value <= hi)
    ensures BelowMinimum(field, lo) in errs <==> v.Some? && v.value < lo
    ensures lo <= hi ==> (AboveMaximum(field, hi) in errs <==> v.Some? && v.value > hi)
    ensures |errs| <= 1
    ensures forall e | e in errs :: e.Field() == field && (e == BelowMinimum(field, lo) || e == AboveMaximum(field, hi))
  {
    if v.Some? then BoundErrors(field, v.value, lo, hi) else []
  }

  /**
   * The checks on `day`: its bounds, then the field validator. The validator
   * sees only earlier fields that passed their own checks, so a month that
   * failed counts as missing, and a year that failed skips the real-date check.
   */
  function DayErrors(year: int, month: Option<int>, day: Option<int>): (errs: seq<NullableDateError>)
    ensures |errs| <= 1
    ensures forall e | e in errs :: e.Field() == "day"
    ensures BelowMinimum("day", 1) in errs <==> day.Some? && day.value < 1
    ensures AboveMaximum("day", 31) in errs <==> day.Some? && day.value > 31
    ensures DayWithoutMonth in errs <==>
      day.Some? && 1 <= day.value <= 31 && !(month.Some? && 1 <= month.value <= 12)
    ensures forall y: nat, m: nat, d: nat :: InvalidDate(y, m, d) in errs <==>
      && month.Some? && day.Some? && (y, m, d) == (year, month.value, day.value)
      && MinYear <= year <= MaxYear && 1 <= m <= 12 && 1 <= d <= 31 && d > DaysInMonth(y, m)
    ensures forall e | e in errs :: DeclaredError(e)
  {
    if day.None? then []
    else if day.value < 1 || day.value > 31 then BoundErrors("day", day.value, 1, 31)
    else
      var seenMonth := if month.Some? && 1 <= month.value <= 12 then month else None;
      var yearSeen := MinYear <= year <= MaxYear;
      if seenMonth.None? then [DayWithoutMonth]
      else if yearSeen && !IsValidDate(year, seenMonth.value, day.value)
      then [InvalidDate(year as nat, seenMonth.value as nat, day.value as nat)]
      else []
  }

  /** Three checks of at most one error each, on year, month and day, listed in that order. */
  lemma FieldOrderOfParts(a: seq<NullableDateError>, b: seq<NullableDateError>, c: seq<NullableDateError>)
    requires |a| <= 1 && |b| <= 1 && |c| <= 1
    requires forall e | e in a :: e.Field() == "year"
    requires forall e | e in b :: e.Field() == "month"
    requires forall e | e in c :: e.Field() == "day"
    ensures InFieldOrder(a + b + c) && |a + b + c| <= 3
  {
    forall i, j | 0 <= i < j < |a + b + c|
      ensures FieldIndex((a + b + c)[i].Field()) < FieldIndex((a + b + c)[j].Field())
    {
      PartOfPosition(a, b, c, i);
      PartOfPosition(a, b, c, j);
    }
  }

  /** Position k of the concatenation lies in the year, month or day part, by where k falls. */
  lemma PartOfPosition(a: seq<NullableDateError>, b: seq<NullableDateError>, c: seq<NullableDateError>, k: nat)
    requires k < |a + b + c|
    requires forall e | e in a :: e.Field() == "year"
    requires forall e | e in b :: e.Field() == "month"
    requires forall e | e in c :: e.Field() == "day"
    ensures FieldIndex((a + b + c)[k].Field()) == if k < |a| then 0 else if k < |a| + |b| then 1 else 2
  {
    var s := a + b + c;
    if k < |a| {
      assert s[k] == a[k] && a[k] in a;
    } else if k < |a| + |b| {
      assert s[k] == b[k - |a|] && b[k - |a|] in b;
    } else {
      assert s[k] == c[k - |a| - |b|] && c[k - |a| - |b|] in c;
    }
  }

  /** The field checks of a `NullableDate`, in field order, the day validator last. */
  function FieldErrors(year: int, month: Option<int>, day: Option<int>): (errs: seq<NullableDateError>)
    ensures errs == [] <==> ValidNullableDate(year, month, day)
    ensures InFieldOrder(errs) && |errs| <= 3
    ensures forall e | e in errs :: DeclaredError(e)
    ensures forall e :: e in errs <==>
      e in BoundErrors("year", year, 1, 9999) || e in OptionalBoundErrors("month", month, 1, 12)
      || e in DayErrors(year, month, day)
  {
    var a, b, c := BoundErrors("year", year, 1, 9999), OptionalBoundErrors("month", month, 1, 12),
      DayErrors(year, month, day);
    FieldOrderOfParts(a, b, c);
    a + b + c
  }

  lemma YearChecks(year: int, month: Option<int>, day: Option<int>)
    ensures BelowMinimum("year", 1) in FieldErrors(year, month, day) <==> year < 1
    ensures AboveMaximum("year", 9999) in FieldErrors(year, month, day) <==> year > 9999
  {
  }

  lemma MonthChecks(year: int, month: Option<int>, day: Option<int>)
    ensures BelowMinimum("month", 1) in FieldErrors(year, month, day) <==> month.Some? && month.value < 1
    ensures AboveMaximum("month", 12) in FieldErrors(year, month, day) <==> month.Some? && month.value > 12
  {
  }

  lemma DayChecks(year: int, month: Option<int>, day: Option<int>)
    ensures BelowMinimum("day", 1) in FieldErrors(year, month, day) <==> day.Some? && day.value < 1
    ensures AboveMaximum("day", 31) in FieldErrors(year, month, day) <==> day.Some? && day.value > 31
    ensures DayWithoutMonth in FieldErrors(year, month, day) <==>
      day.Some? && 1 <= day.value <= 31 && !(month.Some? && 1 <= month.value <= 12)
  {
  }

  lemma RealDateCheck(year: int, month: Option<int>, day: Option<int>)
    ensures forall y: nat, m: nat, d: nat :: InvalidDate(y, m, d) in FieldErrors(year, month, day) <==>
      && month.Some? && day.Some? && (y, m, d) == (year, month.value, day.value)
      && MinYear <= year <= MaxYear && 1 <= m <= 12 && 1 <= d <= 31 && d > DaysInMonth(y, m)
  {
    forall y: nat, m: nat, d: nat
      ensures InvalidDate(y, m, d) in FieldErrors(year, month, day) <==>
        && month.Some? && day.Some? && (y, m, d) == (year, month.value, day.value)
        && MinYear <= year <= MaxYear && 1 <= m <= 12 && 1 <= d <= 31 && d > DaysInMonth(y, m)
    {
      var e := InvalidDate(y, m, d);
      assert e in FieldErrors(year, month, day) <==> e in DayErrors(year, month, day);
    }
  }

  /** Constructing a `NullableDate`: all field errors are reported together, in field order. */
  function NewNullableDate(year: int, month: Option<int> := None, day: Option<int> := None)
    : (r: Result<NullableDate, seq<NullableDateError>>)
    ensures r.Success? <==> ValidNullableDate(year, month, day)
    ensures r.Success? ==> r.value == NullableDate(year, month, day)
    ensures r.Failure? ==> 1 <= |r.error| <= 3 && InFieldOrder(r.error)
    ensures r.Failure? ==> forall e | e in r.error :: DeclaredError(e)
    ensures r.Failure? ==> (BelowMinimum("year", 1) in r.error <==> year < 1)
    ensures r.Failure? ==> (AboveMaximum("year", 9999) in r.error <==> year > 9999)
    ensures r.Failure? ==> (BelowMinimum("month", 1) in r.error <==> month.Some? && month.value < 1)
    ensures r.Failure? ==> (AboveMaximum("month", 12) in r.error <==> month.Some? && month.value > 12)
    ensures r.Failure? ==> (BelowMinimum("day", 1) in r.error <==> day.Some? && day.value < 1)
    ensures r.Failure? ==> (AboveMaximum("day", 31) in r.error <==> day.Some? && day.value > 31)
    ensures r.Failure? ==> (DayWithoutMonth in r.error <==>
      day.Some? && 1 <= day.value <= 31 && !(month.Some? && 1 <= month.value <= 12))
    ensures r.Failure? ==> forall y: nat, m: nat, d: nat :: InvalidDate(y, m, d) in r.error <==>
      && month.Some? && day.Some? && (y, m, d) == (year, month.value, day.value)
      && MinYear <= year <= MaxYear && 1 <= m <= 12 && 1 <= d <= 31 && d > DaysInMonth(y, m)
  {
    var errs := FieldErrors(year, month, day);
    YearChecks(year, month, day);
    MonthChecks(year, month, day);
    DayChecks(year, month, day);
    RealDateCheck(year, month, day);
    if errs == [] then Success(NullableDate(year, month, day)) else Failure(errs)
  }

  /**
   * The `date` property: the complete date, as an ordinal, when month and day
   * are both present. The ordinal stands for exactly this year, month and day.
   */
  function CompleteDate(nd: NullableDate): (r: Option<Day>)
    requires Valid(nd)
    ensures r.Some? <==> nd.month.Some? && nd.day.Some?
    ensures r.Some? ==> 1 <= r.value <= MaxOrdinal
    ensures r.Some? ==> forall y, m, d :: IsValidDate(y, m, d) && ToOrdinal(y, m, d) == r.value ==>
      (y, m, d) == (nd.year, nd.month.value, nd.day.value)
  {
    if nd.month.Some? && nd.day.Some? then
      var (y0, m0, d0) := (nd.year, nd.month.value, nd.day.value);
      OrdinalRange(y0, m0, d0);
      assert forall y, m, d :: IsValidDate(y, m, d) && ToOrdinal(y, m, d) == ToOrdinal(y0, m0, d0) ==>
        (y, m, d) == (y0, m0, d0) by {
        forall y, m, d | IsValidDate(y, m, d) && ToOrdinal(y, m, d) == ToOrdinal(y0, m0, d0) {
          OrdinalOrder(y, m, d, y0, m0, d0);
        }
      }
      Some(ToOrdinal(y0, m0, d0))
    else None
  }

  /**
   * `__str__`: `YYYY-MM-DD` for a complete date (Python's ISO format, year
   * padded to four digits), `Y-MM` with a month, and the bare year otherwise.
   * A present `date` is always truthy, and by the contract of `CompleteDate`
   * it is present exactly when month and day are.
   */
  function Render(nd: NullableDate): (s: string)
    requires Valid(nd)
    ensures nd.day.Some? ==> |s| == 10 && s[4] == '-' && s[7] == '-'
    ensures nd.day.None? && nd.month.Some? ==> |s| >= 4 && s[|s| - 3] == '-'
    ensures nd.month.None? ==> AllDigits(s)
    ensures nd.day.None? ==> |s| > 0 && s[0] != '0'
  {
    PieceLengths(nd);
    if nd.month.Some? && nd.day.Some? then
      var yyyy, mm, dd := PaddedString(nd.year as nat, 4), PaddedString(nd.month.value as nat, 2),
        PaddedString(nd.day.value as nat, 2);
      IsoShape(yyyy, mm, dd);
      yyyy + "-" + mm + "-" + dd
    else if nd.month.Some? then
      var yyyy, mm := NatToString(nd.year as nat), PaddedString(nd.month.value as nat, 2);
      ReducedShape(yyyy, mm);
      yyyy + "-" + mm
    else
      NatToString(nd.year as nat)
  }

  lemma IsoShape(a: string, b: string, c: string)
    requires |a| == 4 && |b| == 2 && |c| == 2
    ensures var s := a + "-" + b + "-" + c; |s| == 10 && s[4] == '-' && s[7] == '-'
  {
  }

  lemma ReducedShape(a: string, b: string)
    requires |a| >= 1 && |b| == 2
    ensures var s := a + "-" + b; |s| >= 4 && s[|s| - 3] == '-' && s[0] == a[0]
  {
  }

  lemma PieceLengths(nd: NullableDate)
    requires Valid(nd)
    ensures |PaddedString(nd.year as nat, 4)| == 4
    ensures nd.month.Some? ==> |PaddedString(nd.month.value as nat, 2)| == 2
    ensures nd.day.Some? ==> |PaddedString(nd.day.value as nat, 2)| == 2
  {
    assert Pow10(4) == 10000 && Pow10(2) == 100;
    NatToStringLength(nd.year as nat, 4);
    if nd.month.Some? {
      NatToStringLength(nd.month.value as nat, 2);
    }
    if nd.day.Some? {
      NatToStringLength(nd.day.value as nat, 2);
    }
  }

  /** Splits text at every '-'. */
  function SplitHyphens(s: string): (parts: seq<string>)
    ensures |parts| >= 1
    decreases |s|
  {
    if |s| == 0 then [""]
    else
      var rest := SplitHyphens(s[1..]);
      if s[0] == '-' then [""] + rest else [[s[0]] + rest[0]] + rest[1..]
  }

  lemma {:induction false} SplitWithoutHyphen(a: string)
    requires '-' !in a
    ensures SplitHyphens(a) == [a]
    decreases |a|
  {
    if |a| > 0 {
      assert a[1..] + [] == a[1..];
      SplitWithoutHyphen(a[1..]);
      assert [a[0]] + a[1..] == a;
    }
  }

  lemma {:induction false} SplitAtHyphen(a: string, b: string)
    requires '-' !in a
    ensures SplitHyphens(a + "-" + b) == [a] + SplitHyphens(b)
    decreases |a|
  {
    var s := a + "-" + b;
    if |a| == 0 {
      assert s == "-" + b && s[1..] == b;
    } else {
      assert s[0] == a[0] && s[1..] == a[1..] + "-" + b;
      SplitAtHyphen(a[1..], b);
      assert [a[0]] + a[1..] == a;
    }
  }

  predicate DigitRuns(parts: seq<string>) {
    forall i :: 0 <= i < |parts| ==> |parts[i]| > 0 && AllDigits(parts[i])
  }

  /** Reads year, month and day back from a rendering. */
  function ParseRendering(s: string): Option<(int, Option<int>, Option<int>)> {
    var parts := SplitHyphens(s);
    if !DigitRuns(parts) then None
    else if |parts| == 1 then Some((ParseDigits(parts[0]), None, None))
    else if |parts| == 2 then Some((ParseDigits(parts[0]), Some(ParseDigits(parts[1])), None))
    else if |parts| == 3 then
      Some((ParseDigits(parts[0]), Some(ParseDigits(parts[1])), Some(ParseDigits(parts[2]))))
    else None
  }

  lemma DigitsHaveNoHyphen(a: string)
    requires AllDigits(a)
    ensures '-' !in a
  {
  }

  lemma ParseOne(a: string)
    requires |a| > 0 && AllDigits(a)
    ensures ParseRendering(a) == Some((ParseDigits(a) as int, None, None))
  {
    DigitsHaveNoHyphen(a);
    SplitWithoutHyphen(a);
  }

  lemma ParseTwo(a: string, b: string)
    requires |a| > 0 && AllDigits(a) && |b| > 0 && AllDigits(b)
    ensures ParseRendering(a + "-" + b) == Some((ParseDigits(a) as int, Some(ParseDigits(b) as int), None))
  {
    DigitsHaveNoHyphen(a);
    DigitsHaveNoHyphen(b);
    SplitAtHyphen(a, b);
    SplitWithoutHyphen(b);
    var parts := SplitHyphens(a + "-" + b);
    assert parts == [a] + [b] == [a, b];
    assert parts[0] == a && parts[1] == b && |parts| == 2;
    assert DigitRuns(parts) by {
      forall i | 0 <= i < |parts|
        ensures |parts[i]| > 0 && AllDigits(parts[i])
      {
        if i == 0 { assert parts[i] == a; } else { assert parts[i] == b; }
      }
    }
  }

  lemma ParseThree(a: string, b: string, c: string)
    requires |a| > 0 && AllDigits(a) && |b| > 0 && AllDigits(b) && |c| > 0 && AllDigits(c)
    ensures ParseRendering(a + "-" + b + "-" + c) ==
      Some((ParseDigits(a) as int, Some(ParseDigits(b) as int), Some(ParseDigits(c) as int)))
  {
    DigitsHaveNoHyphen(a);
    DigitsHaveNoHyphen(b);
    DigitsHaveNoHyphen(c);
    SplitAtHyphen(b, c);
    SplitWithoutHyphen(c);
    assert SplitHyphens(b + "-" + c) == [b, c];
    SplitAtHyphen(a, b + "-" + c);
    var s := a + "-" + b + "-" + c;
    assert s == a + "-" + (b + "-" + c);
    var parts := SplitHyphens(s);
    assert parts == [a] + [b, c] == [a, b, c];
    assert DigitRuns(parts) by {
      forall i | 0 <= i < |parts|
        ensures |parts[i]| > 0 && AllDigits(parts[i])
      {
        if i == 0 { assert parts[i] == a; }
        else if i == 1 { assert parts[i] == b; }
        else { assert parts[i] == c; }
      }
    }
  }

  /** Every rendering reads back as the year, month and day it was made from. */
  lemma RenderRoundTrip(nd: NullableDate)
    requires Valid(nd)
    ensures ParseRendering(Render(nd)) == Some((nd.year, nd.month, nd.day))
  {
    var y := nd.year as nat;
    if nd.day.Some? {
      var m, d := nd.month.value as nat, nd.day.value as nat;
      ParsePaddedString(y, 4);
      ParsePaddedString(m, 2);
      ParsePaddedString(d, 2);
      ParseThree(PaddedString(y, 4), PaddedString(m, 2), PaddedString(d, 2));
    } else if nd.month.Some? {
      var m := nd.month.value as nat;
      ParseNatToString(y);
      ParsePaddedString(m, 2);
      ParseTwo(NatToString(y), PaddedString(m, 2));
    } else {
      ParseNatToString(y);
      ParseOne(NatToString(y));
    }
  }

  /** Distinct partial dates render differently. */
  lemma RenderInjective(a: NullableDate, b: NullableDate)
    requires Valid(a) && Valid(b) && Render(a) == Render(b)
    ensures a == b
  {
    RenderRoundTrip(a);
    RenderRoundTrip(b);
  }

  /** A year, a year and month, and a complete date are accepted, February 29 in a leap year included. */
  lemma NullableDateExamples()
    ensures NewNullableDate(2023) == Success(NullableDate(2023, None, None))
    ensures NewNullableDate(2023, Some(12)) == Success(NullableDate(2023, Some(12), None))
    ensures NewNullableDate(2023, Some(12), Some(25)).Success?
    ensures NewNullableDate(2024, Some(2), Some(29)).Success?
  {
    assert ValidNullableDate(2023, None, None);
    assert ValidNullableDate(2023, Some(12), None);
    assert ValidNullableDate(2023, Some(12), Some(25));
    assert ValidNullableDate(2024, Some(2), Some(29));
  }

  /** February 29 of a common year and April 31 are not real dates; a day needs a month. */
  lemma NullableDateRejections()
    ensures NewNullableDate(2023, Some(2), Some(29)) == Failure([InvalidDate(2023, 2, 29)])
    ensures NewNullableDate(2023, Some(4), Some(31)) == Failure([InvalidDate(2023, 4, 31)])
    ensures NewNullableDate(2023, None, Some(15)) == Failure([DayWithoutMonth])
  {
    OnlyDayFails(2023, Some(2), Some(29));
    OnlyDayFails(2023, Some(4), Some(31));
    OnlyDayFails(2023, None, Some(15));
    assert DayErrors(2023, Some(2), Some(29)) == [InvalidDate(2023, 2, 29)];
    assert DayErrors(2023, Some(4), Some(31)) == [InvalidDate(2023, 4, 31)];
    assert DayErrors(2023, None, Some(15)) == [DayWithoutMonth];
  }

  /** With the year and month in bounds, the day's checks are all that is reported. */
  lemma OnlyDayFails(year: int, month: Option<int>, day: Option<int>)
    requires MinYear <= year <= MaxYear && (month.Some? ==> 1 <= month.value <= 12)
    ensures FieldErrors(year, month, day) == DayErrors(year, month, day)
  {
    var e: seq<NullableDateError> := [];
    assert BoundErrors("year", year, 1, 9999) == e && OptionalBoundErrors("month", month, 1, 12) == e;
    assert e + e + DayErrors(year, month, day) == DayErrors(year, month, day);
  }

  /**
   * Errors accumulate across fields; a month that failed its bounds leaves
   * the day without a month, and a year that failed skips the real-date check.
   */
  lemma NullableDateErrorAccumulation()
    ensures NewNullableDate(0, Some(13), Some(5)) ==
      Failure([BelowMinimum("year", 1), AboveMaximum("month", 12), DayWithoutMonth])
    ensures NewNullableDate(10000, Some(2), Some(30)) == Failure([AboveMaximum("year", 9999)])
    ensures NewNullableDate(2023, Some(0), Some(32)) ==
      Failure([BelowMinimum("month", 1), AboveMaximum("day", 31)])
  {
    assert BoundErrors("year", 0, 1, 9999) == [BelowMinimum("year", 1)];
    assert OptionalBoundErrors("month", Some(13), 1, 12) == [AboveMaximum("month", 12)];
    assert DayErrors(0, Some(13), Some(5)) == [DayWithoutMonth];
    assert BoundErrors("year", 10000, 1, 9999) == [AboveMaximum("year", 9999)];
    assert OptionalBoundErrors("month", Some(2), 1, 12) == [];
    assert DayErrors(10000, Some(2), Some(30)) == [];
    assert BoundErrors("year", 2023, 1, 9999) == [];
    assert OptionalBoundErrors("month", Some(0), 1, 12) == [BelowMinimum("month", 1)];
    assert DayErrors(2023, Some(0), Some(32)) == [AboveMaximum("day", 31)];
    var e: seq<NullableDateError> := [];
    assert [BelowMinimum("year", 1)] + [AboveMaximum("month", 12)] + [DayWithoutMonth] ==
      [BelowMinimum("year", 1), AboveMaximum("month", 12), DayWithoutMonth];
    assert [AboveMaximum("year", 9999)] + e + e == [AboveMaximum("year", 9999)];
    assert e + [BelowMinimum("month", 1)] + [AboveMaximum("day", 31)] ==
      [BelowMinimum("month", 1), AboveMaximum("day", 31)];
  }

  lemma RenderCompleteForm(nd: NullableDate)
    requires Valid(nd) && nd.month.Some? && nd.day.Some?
    ensures Render(nd) == PaddedString(nd.year as nat, 4) + "-" + PaddedString(nd.month.value as nat, 2) + "-"
      + PaddedString(nd.day.value as nat, 2)
  {
  }

  /** The complete form is Python's ISO date text. */
  lemma RenderCompleteExample()
    ensures Render(NullableDate(2023, Some(12), Some(25))) == "2023-12-25"
  {
    RenderLiteral20231225(NullableDate(2023, Some(12), Some(25)));
  }

  /** The same fact for a value known only to equal 2023-12-25, which keeps the literal text functions folded. */
  lemma RenderLiteral20231225(nd: NullableDate)
    requires nd == NullableDate(2023, Some(12), Some(25))
    ensures Valid(nd) && Render(nd) == "2023-12-25"
  {
    assert nd.year as nat == 2023 && nd.month.value as nat == 12 && nd.day.value as nat == 25;
    RenderCompleteForm(nd);
    CompleteText20231225();
  }

  lemma CompleteText20231225()
    ensures PaddedString(2023, 4) + "-" + PaddedString(12, 2) + "-" + PaddedString(25, 2) == "2023-12-25"
  {
    Year2023Text();
    TwoDigitText(12);
    TwoDigitText(25);
    assert [DigitChar(1), DigitChar(2)] == "12" && [DigitChar(2), DigitChar(5)] == "25";
    var y, m, d := "2023", "12", "25";
    assert y + "-" + m + "-" + d == "2023-12-25";
  }

  /** A two-digit number is written as its two digits, with nothing to pad. */
  lemma TwoDigitText(n: nat)
    requires 10 <= n < 100
    ensures NatToString(n) == [DigitChar(n / 10), DigitChar(n % 10)]
    ensures PaddedString(n, 2) == NatToString(n)
  {
    assert NatToString(n) == NatToString(n / 10) + [DigitChar(n % 10)];
    assert NatToString(n / 10) == [DigitChar(n / 10)];
  }

  /** The complete form pads the year to four digits. */
  lemma RenderPaddedYearExample()
    ensures Render(NullableDate(5, Some(3), Some(1))) == "0005-03-01"
  {
    RenderCompleteForm(NullableDate(5, Some(3), Some(1)));
    assert PaddedString(5, 4) + "-" + PaddedString(3, 2) + "-" + PaddedString(1, 2) == "0005-03-01";
  }

  lemma Year2023Text()
    ensures NatToString(2023) == "2023" && PaddedString(2023, 4) == "2023"
  {
    TwoDigitText(20);
    assert NatToString(20) == "20";
    assert NatToString(202) == NatToString(20) + [DigitChar(2)] == "202";
    assert NatToString(2023) == NatToString(202) + [DigitChar(3)] == "2023";
  }

  /** The reduced forms print the year as it is. */
  lemma RenderReducedExamples()
    ensures Render(NullableDate(2023, Some(3), None)) == "2023-03"
    ensures Render(NullableDate(2023, None, None)) == "2023"
    ensures Render(NullableDate(5, Some(3), None)) == "5-03"
  {
    Year2023Text();
  }

  /** The message of the real-date check, with month and day padded to two digits. */
  lemma InvalidDateMessage()
    ensures InvalidDate(2023, 2, 29).Message() == "Invalid date: 2023-02-29"
  {
  }

  // ---------------------------------------------------------------- DatePeriod

  const MaxDays: int := 1_000_000

  datatype DatePeriodError = DaysBelowMinimum | DaysAboveMaximum | StartAfterEnd | TooFewFields {
    function Message(): string {
      match this
      case DaysBelowMinimum => "Input should be greater than or equal to 0"
      case DaysAboveMaximum => "Input should be less than or equal to 1000000"
      case StartAfterEnd => "Start date cannot be after end date"
      case TooFewFields => "At least two of start_date, end_date, or days must be provided"
    }
  }

  datatype DatePeriod = DatePeriod(
    startDate: Option<Day>,
    endDate: Option<Day>,
    days: Option<int>,
    includeStart: bool)

  /** How many of start date, end date and days are present. */
  function ProvidedFields(startDate: Option<Day>, endDate: Option<Day>, days: Option<int>): nat {
    (if startDate.Some? then 1 else 0) + (if endDate.Some? then 1 else 0) + (if days.Some? then 1 else 0)
  }

  /** The invariant of a constructed `DatePeriod`. */
  predicate ValidPeriod(p: DatePeriod) {
    && (p.days.Some? ==> 0 <= p.days.value <= MaxDays)
    && (p.startDate.Some? && p.endDate.Some? ==> p.startDate.value <= p.endDate.value)
    && ProvidedFields(p.startDate, p.endDate, p.days) >= 2
  }

  /**
   * Constructing a `DatePeriod`: the bounds on `days` first, then the two
   * model validators (date consistency, then the field count).
   */
  function NewDatePeriod(startDate: Option<Day>, endDate: Option<Day>, days: Option<int>, includeStart: bool := true)
    : (r: Result<DatePeriod, DatePeriodError>)
    ensures r.Success? <==> ValidPeriod(DatePeriod(startDate, endDate, days, includeStart))
    ensures r.Success? ==> r.value == DatePeriod(startDate, endDate, days, includeStart)
    ensures r == Failure(DaysBelowMinimum) <==> days.Some? && days.value < 0
    ensures r == Failure(DaysAboveMaximum) <==> days.Some? && days.value > MaxDays
    ensures r == Failure(StartAfterEnd) <==>
      && (days.Some? ==> 0 <= days.value <= MaxDays)
      && startDate.Some? && endDate.Some? && startDate.value > endDate.value
    ensures r == Failure(TooFewFields) <==>
      (days.Some? ==> 0 <= days.value <= MaxDays) && ProvidedFields(startDate, endDate, days) < 2
  {
    if days.Some? && days.value < 0 then Failure(DaysBelowMinimum)
    else if days.Some? && days.value > MaxDays then Failure(DaysAboveMaximum)
    else if startDate.Some? && endDate.Some? && startDate.value > endDate.value then Failure(StartAfterEnd)
    else if ProvidedFields(startDate, endDate, days) < 2 then Failure(TooFewFields)
    else Success(DatePeriod(startDate, endDate, days, includeStart))
  }

  /**
   * The two model validators never both fail: a start after the end means
   * both dates are present, which is already two fields. So their order
   * does not change any outcome.
   */
  lemma ModelValidatorsIndependent(startDate: Option<Day>, endDate: Option<Day>, days: Option<int>)
    requires startDate.Some? && endDate.Some? && startDate.value > endDate.value
    ensures ProvidedFields(startDate, endDate, days) >= 2
  {
  }

  /** The day-count bounds are inclusive at both ends. */
  lemma DaysBoundary(d: Day, includeStart: bool)
    ensures NewDatePeriod(Some(d), None, Some(0), includeStart).Success?
    ensures NewDatePeriod(Some(d), None, Some(MaxDays), includeStart).Success?
    ensures NewDatePeriod(Some(d), None, Some(-1), includeStart) == Failure(DaysBelowMinimum)
    ensures NewDatePeriod(Some(d), None, Some(MaxDays + 1), includeStart) == Failure(DaysAboveMaximum)
  {
  }

  /** Equal dates are accepted; a reversed pair is rejected whatever the days and convention. */
  lemma DateConsistency(s: Day, e: Day, days: Option<int>, includeStart: bool)
    requires days.None? || 0 <= days.value <= MaxDays
    ensures NewDatePeriod(Some(s), Some(s), days, includeStart).Success?
    ensures s > e ==> NewDatePeriod(Some(s), Some(e), days, includeStart) == Failure(StartAfterEnd)
  {
  }

  /** One field or none is too few. */
  lemma TooFewFieldsRejected(d: Day, n: int)
    requires 0 <= n <= MaxDays
    ensures NewDatePeriod(Some(d), None, None) == Failure(TooFewFields)
    ensures NewDatePeriod(None, Some(d), None) == Failure(TooFewFields)
    ensures NewDatePeriod(None, None, Some(n)) == Failure(TooFewFields)
    ensures NewDatePeriod(None, None, None) == Failure(TooFewFields)
  {
  }

  /** Leaving out `include_start` gives a period that counts the start date. */
  lemma PeriodIncludeStartDefaultsToTrue(startDate: Option<Day>, endDate: Option<Day>, days: Option<int>)
    ensures NewDatePeriod(startDate, endDate, days).Success? ==> NewDatePeriod(startDate, endDate, days).value.includeStart
  {
  }

  /**
   * `DatePeriod` is strictly stricter than the calculator's request: whatever
   * it accepts the request accepts with the same fields, but not conversely.
   */
  lemma PeriodStricterThanRequest(startDate: Option<Day>, endDate: Option<Day>, days: Option<int>, includeStart: bool)
    ensures NewDatePeriod(startDate, endDate, days, includeStart).Success? ==>
      DateModels.NewRequest(startDate, endDate, days, includeStart) ==
      Success(DateModels.DateCalculationRequest(startDate, endDate, days, includeStart))
    ensures DateModels.NewRequest(None, None, Some(5), includeStart).Success?
    ensures NewDatePeriod(None, None, Some(5), includeStart).Failure?
    ensures DateModels.NewRequest(Some(0), None, Some(MaxDays + 1), includeStart).Success?
    ensures NewDatePeriod(Some(0), None, Some(MaxDays + 1), includeStart).Failure?
  {
  }
}
