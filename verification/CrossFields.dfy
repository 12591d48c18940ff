/** The cross-field economics of src/openfundscore/formula_cross_fields.py. */
module CrossFields {
  import opened Prelude
  import opened Calendar

  datatype RuleKind =
    | IndependentRange
    | PeriodSample
    | NegativeDayCount
    | RecoveryDurationMonths
    | EventDurationDays
    | PointInTimeMaturityDays

  /** A raw value is a Python int or a Python float; four rules insist on the former. */
  datatype Raw = Whole(n: int) | Fraction(x: real)

  datatype CrossFieldError =
    | NoReviewedRule
    | SampleNotPositive
    | NegativeWindow
    | DateOutOfRange
    | NotAnInteger
    | RuleViolated

  function Magnitude(raw: Raw): real {
    match raw
    case Whole(n) => n as real
    case Fraction(x) => x
  }

  /** `rule` is the manifest entry of the formula, `None` when the manifest has none. */
  function ValidateFormulaCrossFields(rule: Option<RuleKind>, raw: Raw, sampleSize: int, windowMonths: int, asOf: Date)
    : Result<(), CrossFieldError>
    requires Valid(asOf)
  {
    if rule.None? then Err(NoReviewedRule)
    else if sampleSize <= 0 then Err(SampleNotPositive)
    else if windowMonths < 0 then Err(NegativeWindow)
    else
      match CalendarDays(asOf, windowMonths)
      case None => Err(DateOutOfRange)
      case Some(days) =>
        var capacity := days + 1;
        if rule.value !in {IndependentRange, PeriodSample} && raw.Fraction? then Err(NotAnInteger)
        else if Breaks(rule.value, Magnitude(raw), sampleSize, windowMonths, capacity) then Err(RuleViolated)
        else Ok(())
  }

  predicate Breaks(kind: RuleKind, raw: real, sampleSize: int, windowMonths: int, capacity: int) {
    match kind
    case IndependentRange => windowMonths != 0
    case PeriodSample => windowMonths <= 0 || sampleSize < windowMonths || sampleSize > capacity
    case NegativeDayCount =>
      windowMonths <= 0 || sampleSize < windowMonths || raw > sampleSize as real || sampleSize > capacity
    case RecoveryDurationMonths => raw > windowMonths as real || (raw > 0.0 && windowMonths == 0)
    case EventDurationDays => windowMonths <= 0 || raw > capacity as real
    case PointInTimeMaturityDays => windowMonths != 0
  }

  /**
    The period rule accepts every sample size from one a month to one a day of the shortest
    possible window, and none below one a month or above one a day of the longest possible window.
   */
  lemma PeriodSampleCapacity(asOf: Date, months: nat, sampleSize: int, raw: Raw)
    requires Valid(asOf) && months > 0 && SubtractMonths(asOf, months).Some?
    ensures months <= sampleSize <= 28 * months + 1
            ==> ValidateFormulaCrossFields(Some(PeriodSample), raw, sampleSize, months, asOf).Ok?
    ensures sampleSize < months || sampleSize > 31 * months + 1
            ==> ValidateFormulaCrossFields(Some(PeriodSample), raw, sampleSize, months, asOf).Err?
  {
    CalendarDaysBounds(asOf, months);
  }

  /** A negative-return count that is accepted fits the window whatever its calendar: at most 31 days a month and one more. */
  lemma NegativeDaysFitWindow(asOf: Date, months: int, sampleSize: int, raw: Raw)
    requires Valid(asOf)
    requires ValidateFormulaCrossFields(Some(NegativeDayCount), raw, sampleSize, months, asOf).Ok?
    ensures raw.Whole? && 0 < months <= sampleSize && raw.n <= sampleSize <= 31 * months + 1
  {
    CalendarDaysBounds(asOf, months);
  }

  /** The other rules, for a positive sample and a window that exists: a recovery fits its window, an event fits the days of its window. */
  lemma DurationRules(asOf: Date, months: nat, sampleSize: int, n: int)
    requires Valid(asOf) && sampleSize > 0 && SubtractMonths(asOf, months).Some?
    ensures ValidateFormulaCrossFields(Some(RecoveryDurationMonths), Whole(n), sampleSize, months, asOf).Ok? <==> n <= months
    ensures ValidateFormulaCrossFields(Some(EventDurationDays), Whole(n), sampleSize, months, asOf).Ok?
            <==> months > 0 && n <= Ordinal(asOf) - Ordinal(SubtractMonths(asOf, months).value) + 1
    ensures ValidateFormulaCrossFields(Some(PointInTimeMaturityDays), Whole(n), sampleSize, months, asOf).Ok? <==> months == 0
    ensures ValidateFormulaCrossFields(Some(IndependentRange), Whole(n), sampleSize, months, asOf).Ok? <==> months == 0
  {
  }
}
