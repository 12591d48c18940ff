/**
  Proleptic Gregorian dates and the month windows of src/openfundscore/window_semantics.py.
  Python's `date` exists for years 1 through 9999; building any other date raises, which is `None` here.
 */
module Calendar {
  import opened Prelude

  datatype Date = Date(year: int, month: int, day: int)

  predicate Leap(year: int) {
    year % 4 == 0 && (year % 100 != 0 || year % 400 == 0)
  }

  function MonthLength(year: int, month: int): (n: int)
    ensures 28 <= n <= 31
  {
    if month == 2 then (if Leap(year) then 29 else 28)
    else if month in {4, 6, 9, 11} then 30
    else 31
  }

  predicate Valid(d: Date) {
    1 <= d.year <= 9999 && 1 <= d.month <= 12 && 1 <= d.day <= MonthLength(d.year, d.month)
  }

  /** A value of Python's `date`. */
  type Day = d: Date | Valid(d) witness Date(1, 1, 1)

  predicate Leq(a: Date, b: Date) {
    a.year < b.year
    || (a.year == b.year && (a.month < b.month || (a.month == b.month && a.day <= b.day)))
  }

  function Min(a: int, b: int): int { if a <= b then a else b }

  function MonthIndex(d: Date): int {
    d.year * 12 + d.month - 1
  }

  // ---- window_semantics.py ----

  /**
    The shifted date is the last date of the target month that does not pass the original day of
    the month, and it exists exactly when the target month lies in years 1 through 9999.
   */
  function SubtractMonths(value: Date, months: int): (r: Option<Date>)
    requires Valid(value)
    ensures r.Some? <==> 12 <= MonthIndex(value) - months < 120000
    ensures r.Some? ==> Valid(r.value) && MonthIndex(r.value) == MonthIndex(value) - months && r.value.day <= value.day
    ensures r.Some? ==> forall t: Date :: Valid(t) && MonthIndex(t) == MonthIndex(value) - months && t.day <= value.day ==> Leq(t, r.value)
  {
    var index := value.year * 12 + value.month - 1 - months;
    var year, month := index / 12, index % 12 + 1;
    if 1 <= year <= 9999 then Some(Date(year, month, Min(value.day, MonthLength(year, month)))) else None
  }

  /** `None` is the ValueError for a reversed window. */
  function CompleteMonthsBetween(start: Date, end: Date): Option<int> {
    if !Leq(start, end) then None
    else
      var elapsed := (end.year - start.year) * 12 + end.month - start.month - (if end.day < start.day then 1 else 0);
      Some(if elapsed < 0 then 0 else elapsed)
  }

  lemma LeqByMonth(a: Date, b: Date)
    requires 1 <= a.month <= 12 && 1 <= b.month <= 12
    ensures Leq(a, b) <==> MonthIndex(a) < MonthIndex(b) || (MonthIndex(a) == MonthIndex(b) && a.day <= b.day)
  {
  }

  /** Counting complete months and shifting back by months are adjoint, despite month-end clamping. */
  lemma MonthWindowGalois(start: Date, end: Date, months: int)
    requires Valid(start) && Valid(end) && Leq(start, end)
    requires SubtractMonths(end, months).Some?
    ensures months <= CompleteMonthsBetween(start, end).value <==> Leq(start, SubtractMonths(end, months).value)
  {
    var shifted := SubtractMonths(end, months).value;
    LeqByMonth(start, end);
    LeqByMonth(start, shifted);
    assert CompleteMonthsBetween(start, end).value
        == var gap := MonthIndex(end) - MonthIndex(start) - (if end.day < start.day then 1 else 0);
           if gap < 0 then 0 else gap;
  }

  /** A window built by shifting back `months` months is counted as exactly `months` complete months. */
  lemma MonthWindowRoundTrip(end: Date, months: nat)
    requires Valid(end) && SubtractMonths(end, months).Some?
    ensures Leq(SubtractMonths(end, months).value, end)
    ensures CompleteMonthsBetween(SubtractMonths(end, months).value, end) == Some(months)
  {
    var start := SubtractMonths(end, months).value;
    LeqByMonth(start, end);
    assert CompleteMonthsBetween(start, end).value
        == var gap := MonthIndex(end) - MonthIndex(start) - (if end.day < start.day then 1 else 0);
           if gap < 0 then 0 else gap;
  }

  // ---- day numbers ----

  function DaysBeforeYear(year: int): int {
    var y := year - 1;
    y * 365 + y / 4 - y / 100 + y / 400
  }

  function DaysBeforeMonth(year: int, month: int): int
    requires 1 <= month <= 12
  {
    if month == 1 then 0 else DaysBeforeMonth(year, month - 1) + MonthLength(year, month - 1)
  }

  /** Python's `date.toordinal`: day 1 is 0001-01-01. */
  function Ordinal(d: Date): int
    requires 1 <= d.month <= 12
  {
    DaysBeforeYear(d.year) + DaysBeforeMonth(d.year, d.month) + d.day
  }

  /** Days before the first day of the month with this index. */
  function MonthStart(index: int): int {
    DaysBeforeYear(index / 12) + DaysBeforeMonth(index / 12, index % 12 + 1)
  }

  function LengthAt(index: int): (n: int)
    ensures 28 <= n <= 31
  {
    MonthLength(index / 12, index % 12 + 1)
  }

  lemma YearLength(year: int)
    ensures DaysBeforeYear(year + 1) - DaysBeforeYear(year) == if Leap(year) then 366 else 365
  {
    hide DaysBeforeYear;
    DivStep(year, 4);
    DivStep(year, 100);
    DivStep(year, 400);
    Multiples(year);
    YearGap(year);
  }

  /** The day count of a year, before the quotients are looked at. */
  lemma YearGap(year: int)
    ensures DaysBeforeYear(year + 1) - DaysBeforeYear(year)
         == 365 + (year / 4 - (year - 1) / 4) - (year / 100 - (year - 1) / 100) + (year / 400 - (year - 1) / 400)
  {
  }

  lemma Multiples(year: int)
    ensures year % 100 == 0 ==> year % 4 == 0
    ensures year % 400 == 0 ==> year % 100 == 0
  {
    if year % 100 == 0 {
      assert year == 4 * (25 * (year / 100));
      MultipleOf(25 * (year / 100), 4);
    }
    if year % 400 == 0 {
      assert year == 100 * (4 * (year / 400));
      MultipleOf(4 * (year / 400), 100);
    }
  }

  lemma MultipleOf(k: int, m: int)
    requires m in {4, 100}
    ensures (m * k) % m == 0
  {
  }

  lemma DivStep(y: int, n: int)
    requires n in {4, 100, 400}
    ensures y / n - (y - 1) / n == if y % n == 0 then 1 else 0
  {
  }

  lemma DaysInYear(year: int)
    ensures DaysBeforeMonth(year, 12) + MonthLength(year, 12) == if Leap(year) then 366 else 365
  {
    assert DaysBeforeMonth(year, 2) == 31;
    assert DaysBeforeMonth(year, 3) == 31 + MonthLength(year, 2);
    assert DaysBeforeMonth(year, 5) == DaysBeforeMonth(year, 3) + 61;
    assert DaysBeforeMonth(year, 7) == DaysBeforeMonth(year, 5) + 61;
    assert DaysBeforeMonth(year, 9) == DaysBeforeMonth(year, 7) + 62;
    assert DaysBeforeMonth(year, 11) == DaysBeforeMonth(year, 9) + 61;
  }

  lemma MonthStep(index: int)
    ensures MonthStart(index + 1) == MonthStart(index) + LengthAt(index)
  {
    var year, month := index / 12, index % 12 + 1;
    if month == 12 {
      assert (index + 1) / 12 == year + 1 && (index + 1) % 12 == 0;
      YearLength(year);
      DaysInYear(year);
    } else {
      assert (index + 1) / 12 == year && (index + 1) % 12 + 1 == month + 1;
    }
  }

  lemma {:induction false} MonthSpan(i: int, j: int)
    requires i <= j
    ensures 28 * (j - i) <= MonthStart(j) - MonthStart(i) <= 31 * (j - i)
    decreases j - i
  {
    if i < j {
      MonthSpan(i, j - 1);
      MonthStep(j - 1);
    }
  }

  lemma OrdinalByMonth(d: Date)
    requires 1 <= d.month <= 12
    ensures Ordinal(d) == MonthStart(MonthIndex(d)) + d.day
  {
    assert MonthIndex(d) / 12 == d.year && MonthIndex(d) % 12 + 1 == d.month;
  }

  /** Day numbers order dates exactly as Python compares them. */
  lemma OrdinalOrder(a: Date, b: Date)
    requires Valid(a) && Valid(b)
    ensures Leq(a, b) <==> Ordinal(a) <= Ordinal(b)
    ensures Ordinal(a) == Ordinal(b) ==> a == b
  {
    OrdinalByMonth(a);
    OrdinalByMonth(b);
    LeqByMonth(a, b);
    if MonthIndex(a) < MonthIndex(b) {
      LaterMonth(a, b);
    } else if MonthIndex(b) < MonthIndex(a) {
      LaterMonth(b, a);
    }
  }

  lemma MonthHolds(d: Date)
    requires Valid(d)
    ensures 1 <= d.day <= LengthAt(MonthIndex(d))
  {
    hide MonthLength;
    assert MonthIndex(d) / 12 == d.year && MonthIndex(d) % 12 + 1 == d.month;
  }

  lemma LaterMonth(a: Date, b: Date)
    requires Valid(a) && Valid(b) && MonthIndex(a) < MonthIndex(b)
    ensures Ordinal(a) < Ordinal(b)
  {
    hide Ordinal, MonthStart, LengthAt, MonthIndex, MonthLength;
    OrdinalByMonth(a);
    OrdinalByMonth(b);
    MonthHolds(a);
    MonthStep(MonthIndex(a));
    MonthSpan(MonthIndex(a) + 1, MonthIndex(b));
  }

  // ---- formula_cross_fields.py: calendar capacity of a month window ----

  function CalendarDays(asOf: Date, windowMonths: int): Option<int>
    requires Valid(asOf)
  {
    match SubtractMonths(asOf, windowMonths)
    case None => None
    case Some(start) =>
      Some(Ordinal(asOf) - Ordinal(start))
  }

  /** The shifted date keeps its day, or takes the last day of a shorter month. */
  lemma DayClamped(asOf: Date, months: int)
    requires Valid(asOf) && SubtractMonths(asOf, months).Some?
    ensures var start := SubtractMonths(asOf, months).value;
            start.day == asOf.day || start.day == LengthAt(MonthIndex(start)) <= asOf.day
  {
    hide MonthLength;
    var start := SubtractMonths(asOf, months).value;
    assert MonthIndex(start) / 12 == start.year && MonthIndex(start) % 12 + 1 == start.month;
  }

  /** Every month window spans 28 to 31 days a month, across leap years and clamped month ends. */
  lemma CalendarDaysBounds(asOf: Date, months: nat)
    requires Valid(asOf) && SubtractMonths(asOf, months).Some?
    ensures 28 * months <= CalendarDays(asOf, months).value <= 31 * months
  {
    hide Ordinal, MonthStart, LengthAt, MonthIndex, MonthLength, SubtractMonths;
    var start := SubtractMonths(asOf, months).value;
    OrdinalByMonth(asOf);
    OrdinalByMonth(start);
    MonthHolds(start);
    MonthHolds(asOf);
    DayClamped(asOf, months);
    if months > 0 {
      MonthStep(MonthIndex(start));
      MonthSpan(MonthIndex(start) + 1, MonthIndex(asOf));
    }
  }

  // ---- the day number by formula ----

  /** Years and months counted from March, so that a leap day ends the year. */
  function MarchYear(d: Date): int {
    if d.month <= 2 then d.year - 1 else d.year
  }

  function MarchMonth(d: Date): int {
    if d.month <= 2 then d.month + 9 else d.month - 3
  }

  lemma MonthsUnrolled(year: int)
    ensures DaysBeforeMonth(year, 1) == 0 && DaysBeforeMonth(year, 2) == 31
    ensures var f := if Leap(year) then 60 else 59;
            && DaysBeforeMonth(year, 3) == f && DaysBeforeMonth(year, 4) == f + 31 && DaysBeforeMonth(year, 5) == f + 61
            && DaysBeforeMonth(year, 6) == f + 92 && DaysBeforeMonth(year, 7) == f + 122 && DaysBeforeMonth(year, 8) == f + 153
            && DaysBeforeMonth(year, 9) == f + 184 && DaysBeforeMonth(year, 10) == f + 214 && DaysBeforeMonth(year, 11) == f + 245
            && DaysBeforeMonth(year, 12) == f + 275
  {
    hide Leap;
    assert DaysBeforeMonth(year, 3) == DaysBeforeMonth(year, 2) + MonthLength(year, 2);
    assert DaysBeforeMonth(year, 6) == DaysBeforeMonth(year, 5) + 31;
    assert DaysBeforeMonth(year, 9) == DaysBeforeMonth(year, 8) + 31;
  }

  /** Month lengths and leap years add up to the closed day-number formula: (153 m + 2) / 5 days before month `m` from March. */
  lemma OrdinalByFormula(d: Date)
    requires 1 <= d.month <= 12
    ensures var y, m := MarchYear(d), MarchMonth(d);
            Ordinal(d) == 365 * y + y / 4 - y / 100 + y / 400 + (153 * m + 2) / 5 + d.day - 306
  {
    MonthsUnrolled(d.year);
    YearLength(d.year);
    FormulaYear(d.year);
    FormulaYear(d.year - 1);
    hide Leap, DaysBeforeYear, DaysBeforeMonth;
    MarchDays(MarchMonth(d));
  }

  lemma FormulaYear(y: int)
    ensures DaysBeforeYear(y + 1) == 365 * y + y / 4 - y / 100 + y / 400
  {
  }

  lemma MarchDays(m: int)
    requires 0 <= m <= 11
    ensures (153 * m + 2) / 5 == [0, 31, 61, 92, 122, 153, 184, 214, 245, 275, 306, 337][m]
  {
  }
}
