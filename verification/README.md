# ttdays in Dafny

A model of the core of `ttdays`, a small Python library that, given two of
start date, end date and day count, computes the third. A flag,
`include_start`, says whether the start date counts as day 1.

The model has three parts, one Dafny module per source file:

- `DateModels` (ttdays/date_models.py): `DateCalculationRequest`, the
  validation gate the calculator builds before each calculation. It rejects a
  negative day count (checked first) and a start date after the end date. It
  has no upper bound on the count and no rule on how many fields are present.
- `DateCalculator` (ttdays/date_calculator.py): the three operations
  `calculate_days_from_dates`, `calculate_end_date` and `calculate_start_date`.
  They share one rule, the inclusion offset: `days - 1` when the start counts,
  `days` when it does not. Each can fail only where its request fails.
- `DateModel` (ttdays/date_model.py): the value objects.
  - `NullableDate` is a partial date. It has a year, an optional month, and an
    optional day that needs the month. It also has a computed `date` and a
    rendering (`__str__`).
  - `DatePeriod` is a stricter range. Its day count must be in
    [0, 1 000 000], at least two of its three fields must be present, and
    start must not be after end.

Three supporting modules:

- `Wrappers` provides `Option` and `Result`. The `Failure` side carries the
  error variants. Each variant's `Message()` returns the text the source raises.
- `Gregorian` is the proleptic Gregorian calendar of Python's `datetime.date`.
  Dates are integer ordinals, as `date.toordinal()` numbers them (0001-01-01 is
  day 1). `ToOrdinal` is CPython's closed form, and `FromOrdinal` converts back.
  Lemmas show that ordinal comparison is Python's date comparison and that the
  next calendar day has the next ordinal. So the calculator's day arithmetic
  on ordinals is the `date ± timedelta` arithmetic of the source.
- `Decimal` produces `str(n)` and `f"{n:0Wd}"` text for non-negative integers,
  together with a reader that parses that text back.

A Pydantic model raises a `ValidationError` when it is constructed with bad
fields. Here each constructor is a function that returns a `Result`:
`NewRequest`, `NewNullableDate` and `NewDatePeriod`. Python's default
`include_start=True` is a default parameter value.

## Model

| member | source | states |
|---|---|---|
| `DateModels.ValidateDays` | ttdays/date_models.py:17-39 | A present negative `days` fails with "Days must be non-negative"; anything else passes unchanged |
| `DateModels.ValidateDateConsistency` | ttdays/date_models.py:41-59 | Fails with "Start date cannot be after end date" exactly when both dates are present and start > end; otherwise returns the request untouched |
| `DateModels.NewRequest` | ttdays/date_models.py:7-59 | Succeeds exactly when the request invariant holds, storing every field as given. Negative days fails with the days error even when the dates are reversed. The date error is reported exactly when days is fine and start > end |
| `DateModels.NonNegativeDaysAccepted` | ttdays/date_models.py:37 | Every count ≥ 0 is accepted, 0 included, with no upper bound |
| `DateModels.NoFieldCountRule` | ttdays/date_models.py:12-15 | `days` alone, or no field at all, makes a valid request |
| `DateModels.MissingDateSkipsConsistency` | ttdays/date_models.py:55-56 | With either date absent the consistency check cannot fail |
| `DateModels.SameDateAccepted` | ttdays/date_models.py:57 | start == end is accepted |
| `DateModels.DaysErrorFirst` | ttdays/date_models.py:17-19 | Negative days together with start > end reports the days error |
| `DateModels.IncludeStartDefaultsToTrue` | ttdays/date_models.py:15 | Omitting `include_start` yields a request that counts the start date |
| `DateCalculator.DaysFromDates` | ttdays/date_calculator.py:53-65 | Fails exactly when start > end, with the start-after-end error. Otherwise the result is the number of days in the counted range: start through end, or the day after start through end. That is the day difference plus 1 when the start counts, and at least 1 (counted) or 0 (not counted) |
| `DateCalculator.EndDate` | ttdays/date_calculator.py:105-114 | Fails exactly when days < 0, with the days error. Otherwise the result is start plus the inclusion offset, and the range from start to the result counts exactly `days` days |
| `DateCalculator.StartDate` | ttdays/date_calculator.py:154-163 | Fails exactly when days < 0, with the days error. Otherwise the result is end minus the inclusion offset, and the range from the result to end counts exactly `days` days |
| `DateCalculator.DateOperationsFailAlike` | ttdays/date_calculator.py:105-163 | The end-date and start-date operations fail on the same counts with the same error |
| `DateCalculator.OffsetSpansDays` | ttdays/date_calculator.py:111-114 | The inclusion offset `InclusionOffset` that both date operations use (also at ttdays/date_calculator.py:160-163), stepped forward from a date or back to it, spans a range that counts exactly `days` days, with or without the start counted |
| `DateCalculator.RoundTrip` | ttdays/date_calculator.py:53-163 | For start ≤ end, rebuilding the end from start and the count gives end back. Rebuilding the start from end and the count gives start back |
| `DateCalculator.ReverseRoundTrip` | ttdays/date_calculator.py:53-163 | Counting a range rebuilt from a count gives the count back whenever the range is not reversed (count ≥ 1 with the start counted, ≥ 0 without). This holds in both directions |
| `DateCalculator.ZeroDays` | ttdays/date_calculator.py:111-114 | Zero days with the start counted gives the day before (end) or after (start) the given date. Without the start counted it gives the date itself. Neither is an error |
| `DateCalculator.ConventionShift` | ttdays/date_calculator.py:160-163 | n+1 days with the start counted gives the same date as n days without it, for both date operations |
| `DateCalculator.SameDate` | ttdays/date_calculator.py:62-65 | One date as start and end counts 1 day with the start counted and 0 days without |
| `DateCalculator.DocstringExamples` | ttdays/date_calculator.py:45-152 | 2024-01-01..03 counts 3 or 2 days. Three days from 2024-01-01 ends on 01-03 or 01-04. Three days back from 2024-01-03 starts on 01-01 or 2023-12-31 |
| `DateCalculator.LeapYearScenario` | tests/test_date_calculator.py:279-293 | 2024-02-28..03-01 counts 3 days, and the 2023 range counts 2 |
| `DateCalculator.CrossYearStartDate` | tests/test_date_calculator.py:131-133 | 10 days ending 2023-01-05 start on 2022-12-27 with the start counted, and on 2022-12-26 without |
| `DateCalculator.CrossYearScenarios` | tests/test_ttdays.py:190-208 | 2023-12-31..2024-01-02 counts 3 days. 365 days from 2024-01-01 end on 2024-12-30 |
| `DateCalculator.LongRangeScenarios` | tests/test_date_calculator.py:86-216 | 1989-01-28..2025-07-07 counts 13310 days (13309 without the start). 10000 days from 1989-01-28 end on 2016-06-14 (2016-06-15 without the start) |
| `DateCalculator.LongRangeStartDate` | tests/test_functions.py:140-150 | 10000 days ending 2025-07-07 start on 1998-02-20 with the start counted and on 1998-02-19 without. They do not start on 1998-03-11 or 1998-03-10, the dates the test expects |
| `Gregorian.OrdinalOrder` | ttdays/date_models.py:55-58 | For valid dates, one ordinal is smaller than another exactly when its date comes first by year, month and day. Ordinals are equal exactly when the dates are, so `start_date > end_date` may be decided on ordinals |
| `Gregorian.NextDateOrdinal` | ttdays/date_calculator.py:112 | The calendar date after a valid date, across month and year ends, is valid and has the next ordinal. So adding a `timedelta` of k days moves the ordinal by k |
| `Gregorian.OrdinalRange` | ttdays/date_model.py:41 | Every valid date's ordinal lies in [1, ordinal of 9999-12-31] |
| `Gregorian.FromOrdinal` | ttdays/date_calculator.py:112 | Every ordinal in Python's range has a valid date with that ordinal. No other valid date has it |
| `DateModel.DayErrors` | ttdays/date_model.py:45-83 | The checks on `day`: at most one error, reported on `day`. It is a bound error exactly when the day is outside [1, 31]. It is "Day cannot be specified without month" exactly when a day in [1, 31] meets an absent or invalid month. It is "Invalid date" for exactly this year, month and day when a valid year and month meet a day past the month's end |
| `DateModel.NewNullableDate` | ttdays/date_model.py:41-83 | Succeeds exactly when year ∈ [1, 9999], a present month ∈ [1, 12], and a present day comes with a month and forms a real Gregorian date. On failure there are one to three errors, at most one per field, listed in field order year, month, day, and each is one the fields or the day validator can raise. Every bound violation is reported on its field. "Day cannot be specified without month" is reported exactly when a day in [1, 31] meets an absent or invalid month. "Invalid date" is reported exactly when valid year and month meet a day past the month's end |
| `DateModel.CompleteDate` | ttdays/date_model.py:102-107 | `date` is present exactly when month and day are. It is then a valid ordinal that stands for exactly that year, month and day |
| `DateModel.Render` | ttdays/date_model.py:118-123 | A complete date renders as 10 characters with hyphens at positions 4 and 7. A year with a month ends in `-MM`. A bare year renders as digits only. Both shorter forms start with a non-zero digit, so their year is not padded |
| `DateModel.RenderRoundTrip` | ttdays/date_model.py:118-123 | Splitting a rendering at its hyphens and reading the digits gives back exactly the year, month and day it was made from |
| `DateModel.RenderInjective` | ttdays/date_model.py:118-123 | Two valid partial dates with the same rendering are equal |
| `DateModel.NullableDateExamples` | ttdays/date_model.py:41-83 | 2023, 2023-12, 2023-12-25 and 2024-02-29 are accepted |
| `DateModel.NullableDateRejections` | ttdays/date_model.py:69-81 | 2023-02-29 and 2023-04-31 each fail with exactly one "Invalid date" error. Day 15 with no month fails with exactly one "without month" error |
| `DateModel.NullableDateErrorAccumulation` | ttdays/date_model.py:41-83 | Three fixed inputs. Year 0, month 13, day 5 gives the year, month and "without month" errors, in that order. Year 10000 with 2-30 gives only the year error, because a failed year skips the real-date check. Year 2023, month 0, day 32 gives the month error and then the day error |
| `DateModel.RenderCompleteExample` | ttdays/date_model.py:118-119 | 2023-12-25 renders as "2023-12-25" |
| `DateModel.RenderPaddedYearExample` | ttdays/date_model.py:118-119 | The complete form pads the year: year 5 renders as "0005-03-01" |
| `DateModel.RenderReducedExamples` | ttdays/date_model.py:120-123 | The reduced forms do not pad the year: "2023-03", "2023", "5-03" |
| `DateModel.InvalidDateMessage` | ttdays/date_model.py:81 | The real-date error for 2023-02-29 reads "Invalid date: 2023-02-29" |
| `DateModel.NewDatePeriod` | ttdays/date_model.py:137-201 | Succeeds exactly when days ∈ [0, 1 000 000], start ≤ end when both are present, and at least two fields are present, storing the fields as given. Each error is reported exactly when its check is the first to fail: the bounds on days, then date consistency, then field count |
| `DateModel.ModelValidatorsIndependent` | ttdays/date_model.py:172-199 | A start after the end already means two fields are present, so the two model validators never both fail and their order changes no outcome |
| `DateModel.DaysBoundary` | ttdays/date_model.py:150-155 | 0 and 1 000 000 are accepted. −1 fails below the minimum and 1 000 001 fails above the maximum |
| `DateModel.DateConsistency` | ttdays/date_model.py:172-175 | Equal dates are accepted. start > end fails with "Start date cannot be after end date" for any valid days and either convention |
| `DateModel.TooFewFieldsRejected` | ttdays/date_model.py:192-199 | One field or none fails with "At least two of start_date, end_date, or days must be provided" |
| `DateModel.PeriodIncludeStartDefaultsToTrue` | ttdays/date_model.py:156 | Omitting `include_start` yields a period that counts the start date |
| `DateModel.PeriodStricterThanRequest` | ttdays/date_model.py:137-201 | Whatever `DatePeriod` accepts, `DateCalculationRequest` accepts with the same fields. The converse fails: `days` alone, and 1 000 001 days |

## Where the tests and the code disagree

- tests/test_functions.py:67-78 expects 1989-01-28 to 2025-07-07 to count
  13345 days (13344 without the start). The code subtracts the two dates. By
  the Gregorian calendar the difference is 13309 days, so the code returns
  13310 and 13309. The model follows the code (`LongRangeScenarios`).
  tests/test_date_calculator.py:86-102 computes its expectation from the date
  difference and agrees.
- tests/test_functions.py:140-150 expects 10000 days ending 2025-07-07 to
  start on 1998-03-11 (1998-03-10 without the start). The code steps back 9999
  days (10000 without the start), which gives 1998-02-20 and 1998-02-19. The
  model follows the code (`LongRangeStartDate`). The other fixed expectations
  in that file agree with the code.
- The calculator's only gate is `DateCalculationRequest`. So, unlike
  `DatePeriod`, it accepts a count above 1 000 000, and the model keeps that.
  Where the tests call the `DatePeriod` class `DateModel`, the model uses the
  class as defined, `DatePeriod`.

## Left out

- String-to-date coercion (the tests pass `"2023-01-01"`), and the `frozen`
  and `extra="forbid"` enforcement that `DateCalculationRequest` and
  `DatePeriod` configure, `model_dump` and JSON serialisation, and field
  descriptions. These are Pydantic behaviour. Datatypes are immutable and have
  fixed fields anyway.
- The exact `ValidationError` wrapping text. Errors are datatype variants that
  carry the messages the source raises and Pydantic's bound messages.
- Python's `datetime` range limits on results. Adding a `timedelta` that
  leaves 0001-01-01..9999-12-31 raises `OverflowError`. The calculator works
  on unbounded ordinals and does not model that error. `FromOrdinal` states
  Python's range as its precondition.
- ttdays/functions.py: it only delegates to a shared `DateCalculator`, with
  `DEFAULT_INCLUDE_START = True`, which is the same default the model's
  parameters have.
- ttdays/__init__.py: re-exports only. Its import of a non-existent
  `DateModel` name is a packaging error, not logic.
- `DateModel.CompleteDate`, `DateModel.Render`: only values that passed
  validation are modelled. `NullableDate` has no `model_config`, so Pydantic
  lets a later assignment such as `nd.day = 30` through without checking it.
  The `date` property then raises `ValueError("Invalid date: …")`
  (ttdays/date_model.py:103-106), and `__str__` lets it propagate. That error
  path after an unvalidated assignment is not modelled.
- `NullableDate.__repr__`: debugging text with no rule worth stating.
- `_parse_date` and `_calculate_days_offset` exist only in tests, not in
  ttdays/date_calculator.py. The inclusion offset used here is the one in
  ttdays/date_calculator.py:111-114.
- Tests built on mocks, patching or `date.today()`.
