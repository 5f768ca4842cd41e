/**
 * `DateCalculationRequest`: the validation gate the calculator builds before
 * every calculation. It rejects a negative day count and a start date after
 * the end date, and nothing else: there is no upper bound on the day count
 * and no rule about how many fields are present.
 */
module DateModels {
  import opened Wrappers
  import opened Gregorian

  datatype RequestError = NegativeDays | StartAfterEnd {
    function Message(): string {
      match this
      case NegativeDays => "Days must be non-negative"
      case StartAfterEnd => "Start date cannot be after end date"
    }
  }

  /** A request as it exists after validation; fields are immutable. */
  datatype DateCalculationRequest = DateCalculationRequest(
    startDate: Option<Day>,
    endDate: Option<Day>,
    days: Option<int>,
    includeStart: bool)

  /** The invariant every constructed request satisfies. */
  predicate Valid(req: DateCalculationRequest) {
    && (req.days.Some? ==> req.days.value >= 0)
    && (req.startDate.Some? && req.endDate.Some? ==> req.startDate.value <= req.endDate.value)
  }

  /** The field validator on `days`: a present value must not be negative. */
  function ValidateDays(days: Option<int>): (r: Result<Option<int>, RequestError>)
    ensures r.Failure? <==> days.Some? && days.value < 0
    ensures r.Failure? ==> r.error == NegativeDays
    ensures r.Success? ==> r.value == days
  {
    if days.Some? && days.value < 0 then Failure(NegativeDays) else Success(days)
  }

  /** The model validator: when both dates are present, start must not be after end. */
  function ValidateDateConsistency(req: DateCalculationRequest): (r: Result<DateCalculationRequest, RequestError>)
    ensures r.Failure? <==> req.startDate.Some? && req.endDate.Some? && req.startDate.value > req.endDate.value
    ensures r.Failure? ==> r.error == StartAfterEnd
    ensures r.Success? ==> r.value == req
  {
    if req.startDate.Some? && req.endDate.Some? && req.startDate.value > req.endDate.value
    then Failure(StartAfterEnd)
    else Success(req)
  }

  /**
   * Constructing a request: the field validator runs first, the model
   * validator only on a request whose fields passed.
   */
  function NewRequest(startDate: Option<Day>, endDate: Option<Day>, days: Option<int>, includeStart: bool := true)
    : (r: Result<DateCalculationRequest, RequestError>)
    ensures r.Success? <==> Valid(DateCalculationRequest(startDate, endDate, days, includeStart))
    ensures r.Success? ==> r.value == DateCalculationRequest(startDate, endDate, days, includeStart)
    ensures r.Failure? && r.error == NegativeDays <==> days.Some? && days.value < 0
    ensures r.Failure? && r.error == StartAfterEnd <==>
      && !(days.Some? && days.value < 0)
      && startDate.Some? && endDate.Some? && startDate.value > endDate.value
  {
    var checkedDays :- ValidateDays(days);
    ValidateDateConsistency(DateCalculationRequest(startDate, endDate, checkedDays, includeStart))
  }

  /** Zero days is accepted, and so is every larger count: there is no upper bound. */
  lemma NonNegativeDaysAccepted(startDate: Option<Day>, endDate: Option<Day>, n: int, includeStart: bool)
    requires n >= 0
    requires startDate.Some? && endDate.Some? ==> startDate.value <= endDate.value
    ensures NewRequest(startDate, endDate, Some(n), includeStart) ==
      Success(DateCalculationRequest(startDate, endDate, Some(n), includeStart))
  {
  }

  /** A request needs no minimum number of fields: `days` alone, or nothing at all, is valid. */
  lemma NoFieldCountRule(days: Option<int>, includeStart: bool)
    requires days.None? || days.value >= 0
    ensures NewRequest(None, None, days, includeStart).Success?
    ensures NewRequest(None, None, Some(0), includeStart).Success?
  {
  }

  /** A missing date switches the consistency check off, whatever the other date is. */
  lemma MissingDateSkipsConsistency(d: Day, days: Option<int>, includeStart: bool)
    requires days.None? || days.value >= 0
    ensures NewRequest(Some(d), None, days, includeStart).Success?
    ensures NewRequest(None, Some(d), days, includeStart).Success?
  {
  }

  /** Equal start and end dates are accepted. */
  lemma SameDateAccepted(d: Day, includeStart: bool)
    ensures NewRequest(Some(d), Some(d), None, includeStart).Success?
  {
  }

  /** The days error wins over the date error when both apply. */
  lemma DaysErrorFirst(s: Day, e: Day, n: int, includeStart: bool)
    requires n < 0 && s > e
    ensures NewRequest(Some(s), Some(e), Some(n), includeStart) == Failure(NegativeDays)
  {
  }

  /** Leaving out `include_start` gives a request that counts the start date. */
  lemma IncludeStartDefaultsToTrue(startDate: Option<Day>, endDate: Option<Day>, days: Option<int>)
    ensures NewRequest(startDate, endDate, days).Success? ==> NewRequest(startDate, endDate, days).value.includeStart
  {
  }
}
