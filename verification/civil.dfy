/**
 * The proleptic Gregorian calendar in UTC: the broken-down fields of an
 * instant counted in seconds from 1970-01-01T00:00:00Z, and back. This is the
 * part of Go's `time.Time` that `Add`, `Minute`, `Hour`, `Day`, `Month` and
 * `Year` rely on when a one-time schedule is rendered.
 */
module Civil {

  /** Whole seconds since 1970-01-01T00:00:00Z; negative before the epoch. */
  type Instant = int

  const SecondsPerDay: int := 86400
  const EpochYear: int := 1970

  predicate IsLeapYear(y: int) {
    y % 4 == 0 && (y % 100 != 0 || y % 400 == 0)
  }

  function DaysInYear(y: int): int {
    if IsLeapYear(y) then 366 else 365
  }

  function DaysInMonth(y: int, m: int): int
    requires 1 <= m <= 12
  {
    if m == 2 then (if IsLeapYear(y) then 29 else 28)
    else if m == 4 || m == 6 || m == 9 || m == 11 then 30
    else 31
  }

  datatype Date = Date(year: int, month: int, day: int)

  predicate ValidDate(d: Date) {
    1 <= d.month <= 12 && 1 <= d.day <= DaysInMonth(d.year, d.month)
  }

  /** A broken-down UTC time, to the second. */
  datatype DateTime = DateTime(date: Date, hour: int, minute: int, second: int)

  predicate Valid(t: DateTime) {
    && ValidDate(t.date)
    && 0 <= t.hour < 24
    && 0 <= t.minute < 60
    && 0 <= t.second < 60
  }

  // ---------------------------------------------------------------------------
  // Fields to day numbers
  // ---------------------------------------------------------------------------

  /** Days from 1970-01-01 to January 1st of year `y`. */
  function YearStart(y: int): int
    decreases if y >= EpochYear then y - EpochYear else EpochYear - y
  {
    if y == EpochYear then 0
    else if y > EpochYear then YearStart(y - 1) + DaysInYear(y - 1)
    else YearStart(y + 1) - DaysInYear(y)
  }

  /** Days from January 1st to the first day of month `m` of year `y`. */
  function DaysBeforeMonth(y: int, m: int): int
    requires 1 <= m <= 12
  {
    if m == 1 then 0 else DaysBeforeMonth(y, m - 1) + DaysInMonth(y, m - 1)
  }

  /** The day number of a date: days since 1970-01-01. */
  function DayNumber(d: Date): int
    requires ValidDate(d)
  {
    YearStart(d.year) + DaysBeforeMonth(d.year, d.month) + d.day - 1
  }

  /** The instant a broken-down time denotes. */
  function ToInstant(t: DateTime): Instant
    requires Valid(t)
  {
    DayNumber(t.date) * SecondsPerDay + t.hour * 3600 + t.minute * 60 + t.second
  }

  // ---------------------------------------------------------------------------
  // Day numbers to fields
  // ---------------------------------------------------------------------------

  lemma YearStartStep(y: int)
    ensures YearStart(y + 1) == YearStart(y) + DaysInYear(y)
  {
  }

  /** The year holding day number `days`, searched for from year `y`. */
  function YearHolding(days: int, y: int): (r: int)
    ensures YearStart(r) <= days < YearStart(r) + DaysInYear(r)
    decreases days < YearStart(y), if days < YearStart(y) then YearStart(y) - days else days - YearStart(y)
  {
    YearStartStep(y - 1);
    YearStartStep(y);
    if days < YearStart(y) then YearHolding(days, y - 1)
    else if days >= YearStart(y) + DaysInYear(y) then YearHolding(days, y + 1)
    else y
  }

  /** The month of year `y` holding day `doy` of that year (counted from 0), searched for from month `m`. */
  function MonthHolding(y: int, doy: int, m: int): (r: int)
    requires 1 <= m <= 12
    requires DaysBeforeMonth(y, m) <= doy < DaysInYear(y)
    ensures m <= r <= 12
    ensures DaysBeforeMonth(y, r) <= doy < DaysBeforeMonth(y, r) + DaysInMonth(y, r)
    decreases 12 - m
  {
    DaysBeforeMonth12(y);
    if m == 12 || doy < DaysBeforeMonth(y, m) + DaysInMonth(y, m) then m
    else MonthHolding(y, doy, m + 1)
  }

  lemma DaysBeforeMonth12(y: int)
    ensures DaysBeforeMonth(y, 12) + DaysInMonth(y, 12) == DaysInYear(y)
  {
    var feb := DaysInMonth(y, 2);
    assert DaysBeforeMonth(y, 2) == 31;
    assert DaysBeforeMonth(y, 3) == 31 + feb;
    assert DaysBeforeMonth(y, 4) == 62 + feb;
    assert DaysBeforeMonth(y, 5) == 92 + feb;
    assert DaysBeforeMonth(y, 6) == 123 + feb;
    assert DaysBeforeMonth(y, 7) == 153 + feb;
    assert DaysBeforeMonth(y, 8) == 184 + feb;
    assert DaysBeforeMonth(y, 9) == 215 + feb;
    assert DaysBeforeMonth(y, 10) == 245 + feb;
    assert DaysBeforeMonth(y, 11) == 276 + feb;
    assert DaysBeforeMonth(y, 12) == 306 + feb;
  }

  /** The calendar date of a day number. */
  function DateOf(days: int): (d: Date)
    ensures ValidDate(d)
    ensures DayNumber(d) == days
  {
    var y := YearHolding(days, EpochYear);
    var doy := days - YearStart(y);
    var m := MonthHolding(y, doy, 1);
    Date(y, m, doy - DaysBeforeMonth(y, m) + 1)
  }

  /** The broken-down UTC time of an instant. */
  function FromInstant(t: Instant): (dt: DateTime)
    ensures Valid(dt)
    ensures ToInstant(dt) == t
  {
    var days, sod := t / SecondsPerDay, t % SecondsPerDay;
    var hour, minute, second := sod / 3600, sod % 3600 / 60, sod % 60;
    assert t == days * SecondsPerDay + sod;
    assert sod == hour * 3600 + minute * 60 + second;
    DateTime(DateOf(days), hour, minute, second)
  }

  // ---------------------------------------------------------------------------
  // The two directions are inverse
  // ---------------------------------------------------------------------------

  lemma {:induction false} YearStartMonotone(a: int, b: int)
    requires a < b
    ensures YearStart(a) + DaysInYear(a) <= YearStart(b)
    decreases b - a
  {
    YearStartStep(a);
    if a + 1 < b {
      YearStartMonotone(a + 1, b);
    }
  }

  lemma {:induction false} MonthStartMonotone(y: int, a: int, b: int)
    requires 1 <= a < b <= 12
    ensures DaysBeforeMonth(y, a) + DaysInMonth(y, a) <= DaysBeforeMonth(y, b)
    decreases b - a
  {
    if a + 1 < b {
      MonthStartMonotone(y, a + 1, b);
    }
  }

  /** Every month ends within its year. */
  lemma MonthEndWithinYear(y: int, m: int)
    requires 1 <= m <= 12
    ensures DaysBeforeMonth(y, m) + DaysInMonth(y, m) <= DaysInYear(y)
  {
  }

  /** Distinct valid dates have distinct day numbers. */
  lemma DayNumberInjective(d: Date, e: Date)
    requires ValidDate(d) && ValidDate(e)
    requires DayNumber(d) == DayNumber(e)
    ensures d == e
  {
    MonthEndWithinYear(d.year, d.month);
    MonthEndWithinYear(e.year, e.month);
    if d.month > 1 {
      MonthStartMonotone(d.year, 1, d.month);
    }
    if e.month > 1 {
      MonthStartMonotone(e.year, 1, e.month);
    }
    if d.year < e.year {
      YearStartMonotone(d.year, e.year);
    } else if e.year < d.year {
      YearStartMonotone(e.year, d.year);
    }
    assert d.year == e.year;
    if d.month < e.month {
      MonthStartMonotone(d.year, d.month, e.month);
    } else if e.month < d.month {
      MonthStartMonotone(d.year, e.month, d.month);
    }
  }

  /** Rendering the instant of a valid broken-down time gives that time back. */
  lemma FromToInstant(t: DateTime)
    requires Valid(t)
    ensures FromInstant(ToInstant(t)) == t
  {
    var sod := t.hour * 3600 + t.minute * 60 + t.second;
    var n := ToInstant(t);
    assert n == DayNumber(t.date) * SecondsPerDay + sod;
    assert n / SecondsPerDay == DayNumber(t.date) && n % SecondsPerDay == sod;
    assert sod / 3600 == t.hour && sod % 3600 == t.minute * 60 + t.second;
    DayNumberInjective(DateOf(DayNumber(t.date)), t.date);
  }

  /**
   * Each four-year cycle from the epoch holds one leap year, so year
   * 1970 + 4k starts 1461k days after the epoch, up to 2098 (2100 is not leap).
   */
  lemma {:induction false} FourYearCycleStarts(k: nat)
    requires k <= 32
    ensures YearStart(EpochYear + 4 * k) == 1461 * k
  {
    if k > 0 {
      FourYearCycleStarts(k - 1);
      var y := EpochYear + 4 * (k - 1);
      YearStartStep(y);
      YearStartStep(y + 1);
      YearStartStep(y + 2);
      YearStartStep(y + 3);
      assert !IsLeapYear(y) && !IsLeapYear(y + 1) && IsLeapYear(y + 2) && !IsLeapYear(y + 3);
    }
  }
}
