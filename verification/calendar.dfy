/** The proleptic Gregorian calendar as Python's `datetime.date` sees it:
    years MinYear..MaxYear, and the day ordinal in which 0001-01-01 is day 1
    (Python's `toordinal`/`fromordinal`). */
module Calendar {

  const MinYear := 1
  const MaxYear := 9999

  datatype Date = Date(year: int, month: int, day: int)

  predicate IsLeapYear(y: int) {
    y % 4 == 0 && (y % 100 != 0 || y % 400 == 0)
  }

  function DaysInYear(y: int): int {
    if IsLeapYear(y) then 366 else 365
  }

  function DaysInMonth(y: int, m: int): int
    requires 1 <= m <= 12
  {
    if m == 2 then (if IsLeapYear(y) then 29 else 28)
    else if m == 4 || m == 6 || m == 9 || m == 11 then 30
    else 31
  }

  predicate ValidDate(d: Date) {
    && MinYear <= d.year <= MaxYear
    && 1 <= d.month <= 12
    && 1 <= d.day <= DaysInMonth(d.year, d.month)
  }

  /** A date `datetime.date` accepts. */
  type CivilDate = d: Date | ValidDate(d) witness Date(1, 1, 1)

  /** Number of days in the years 1 .. y-1. */
  function DaysBeforeYear(y: int): nat
    requires y >= 1
    decreases y
  {
    if y == 1 then 0 else DaysBeforeYear(y - 1) + DaysInYear(y - 1)
  }

  /** Number of days in the months 1 .. m-1 of year `y`. */
  function DaysBeforeMonth(y: int, m: int): int
    requires 1 <= m <= 12
  {
    var common := [0, 31, 59, 90, 120, 151, 181, 212, 243, 273, 304, 334][m - 1];
    if m > 2 && IsLeapYear(y) then common + 1 else common
  }

  /** Day number of `d`, counting 0001-01-01 as day 1 (Python's
      `toordinal`). It falls within the year of `d`, and within the range
      of day numbers of valid dates. */
  function Ordinal(d: CivilDate): (n: int)
    ensures DaysBeforeYear(d.year) < n <= DaysBeforeYear(d.year + 1)
    ensures 1 <= n <= MaxOrdinal
  {
    DayOfYearBounds(d);
    YearEndsByMax(d.year);
    DaysBeforeYear(d.year) + DaysBeforeMonth(d.year, d.month) + d.day
  }

  /** The day after `d` on the calendar, by day, month and year alone. */
  function NextDay(d: Date): Date
    requires 1 <= d.month <= 12
  {
    if d.day < DaysInMonth(d.year, d.month) then Date(d.year, d.month, d.day + 1)
    else if d.month < 12 then Date(d.year, d.month + 1, 1)
    else Date(d.year + 1, 1, 1)
  }

  /** Python's ordinal starts at 0001-01-01. */
  lemma OrdinalOfFirstDay(first: CivilDate)
    requires first == Date(1, 1, 1)
    ensures Ordinal(first) == 1
  {
    assert DaysBeforeYear(1) == 0;
    assert DaysBeforeMonth(1, 1) == 0;
  }

  /** Every valid date but the last has a valid next day, and the day
      numbers of the two differ by one. With `OrdinalOfFirstDay`, this fixes
      `Ordinal` as Python's `toordinal`: a count of days from 0001-01-01. */
  lemma OrdinalNextDay(d: CivilDate)
    requires d != Date(MaxYear, 12, 31)
    ensures ValidDate(NextDay(d))
    ensures Ordinal(NextDay(d)) == Ordinal(d) + 1
  {
    MonthStep(d.year, d.month);
    if d.day == DaysInMonth(d.year, d.month) && d.month == 12 {
      YearStep(d.year);
    }
  }

  /** Day number of 9999-12-31, the last date Python accepts
      (see `MaxOrdinalIsDaysBefore10000`). */
  const MaxOrdinal := 3652059

  /** Day of the week of a day number: 0 for Monday .. 6 for Sunday
      (0001-01-01 was a Monday). */
  function WeekdayOfOrdinal(n: int): int {
    (n + 6) % 7
  }

  // ---------------------------------------------------------------------
  // Month and year arithmetic
  // ---------------------------------------------------------------------

  /** The months of a year tile the year. */
  lemma MonthStep(y: int, m: int)
    requires 1 <= m <= 12
    ensures DaysBeforeMonth(y, m) + DaysInMonth(y, m)
            == if m == 12 then DaysInYear(y) else DaysBeforeMonth(y, m + 1)
  {
  }

  lemma MonthsIncrease(y: int, a: int, b: int)
    requires 1 <= a < b <= 12
    ensures DaysBeforeMonth(y, a) + DaysInMonth(y, a) <= DaysBeforeMonth(y, b)
  {
  }

  /** The day of the year of a valid date lies within its year. */
  lemma DayOfYearBounds(d: CivilDate)
    ensures 1 <= DaysBeforeMonth(d.year, d.month) + d.day <= DaysInYear(d.year)
  {
    MonthStep(d.year, 12);
    if d.month < 12 {
      MonthsIncrease(d.year, d.month, 12);
    }
  }

  lemma NextQuotient4(p: int)
    requires p >= 0
    ensures (p + 1) / 4 == p / 4 + (if (p + 1) % 4 == 0 then 1 else 0)
  {
  }

  lemma NextQuotient100(p: int)
    requires p >= 0
    ensures (p + 1) / 100 == p / 100 + (if (p + 1) % 100 == 0 then 1 else 0)
  {
  }

  lemma NextQuotient400(p: int)
    requires p >= 0
    ensures (p + 1) / 400 == p / 400 + (if (p + 1) % 400 == 0 then 1 else 0)
  {
  }

  lemma CenturyDivisibleBy4(y: int)
    requires y % 100 == 0
    ensures y % 4 == 0
  {
    var k := y / 100;
    assert y == 4 * (25 * k);
  }

  lemma QuadCenturyIsCentury(y: int)
    requires y % 400 == 0
    ensures y % 100 == 0
  {
    var k := y / 400;
    assert y == 100 * (4 * k);
  }

  /** Python's `_days_before_year`: the count of earlier days as 365 per
      year plus one per leap year (every 4th, but not every 100th, but every
      400th). */
  function DaysBeforeYearFormula(y: int): int {
    var p := y - 1;
    365 * p + p / 4 - p / 100 + p / 400
  }

  /** The leap-year rule is what makes the formula grow by the length of
      each year. */
  lemma FormulaStep(y: int)
    requires y >= 1
    ensures DaysBeforeYearFormula(y + 1) == DaysBeforeYearFormula(y) + DaysInYear(y)
  {
    var p := y - 1;
    NextQuotient4(p);
    NextQuotient100(p);
    NextQuotient400(p);
    if y % 400 == 0 {
      QuadCenturyIsCentury(y);
      CenturyDivisibleBy4(y);
    } else if y % 100 == 0 {
      CenturyDivisibleBy4(y);
    }
  }

  lemma {:induction false} DaysBeforeYearClosedForm(y: int)
    requires y >= 1
    ensures DaysBeforeYear(y) == DaysBeforeYearFormula(y)
    decreases y
  {
    if y > 1 {
      DaysBeforeYearClosedForm(y - 1);
      FormulaStep(y - 1);
    }
  }

  lemma YearStep(y: int)
    requires y >= 1
    ensures DaysBeforeYear(y + 1) == DaysBeforeYear(y) + DaysInYear(y)
  {
  }

  lemma MaxOrdinalIsDaysBefore10000()
    ensures DaysBeforeYear(MaxYear + 1) == MaxOrdinal
  {
    DaysBeforeYearClosedForm(MaxYear + 1);
  }

  /** No year up to MaxYear ends after day MaxOrdinal. */
  lemma YearEndsByMax(y: int)
    requires MinYear <= y <= MaxYear
    ensures DaysBeforeYear(y + 1) <= MaxOrdinal
  {
    MaxOrdinalIsDaysBefore10000();
    if y < MaxYear {
      YearsIncrease(y, MaxYear + 1);
    }
  }

  lemma {:induction false} YearsIncrease(a: int, b: int)
    requires 1 <= a < b
    ensures DaysBeforeYear(a + 1) <= DaysBeforeYear(b)
    decreases b - a
  {
    if a + 1 < b {
      YearsIncrease(a + 1, b);
      YearStep(a + 1);
    }
  }

  // ---------------------------------------------------------------------
  // From a day number back to a date
  // ---------------------------------------------------------------------

  /** The first year, from `y` on, in which day `n` falls. */
  function FindYear(n: int, y: int): (r: int)
    requires y >= 1 && DaysBeforeYear(y) < n
    ensures r >= y
    ensures DaysBeforeYear(r) < n <= DaysBeforeYear(r + 1)
    decreases n - DaysBeforeYear(y)
  {
    YearStep(y);
    if n <= DaysBeforeYear(y + 1) then y else FindYear(n, y + 1)
  }

  /** The last month, from `m` down, that starts before day `k` of year `y`. */
  function FindMonth(y: int, k: int, m: int): (r: int)
    requires 1 <= m <= 12 && 1 <= k <= DaysBeforeMonth(y, m) + DaysInMonth(y, m)
    ensures 1 <= r <= m
    ensures DaysBeforeMonth(y, r) < k <= DaysBeforeMonth(y, r) + DaysInMonth(y, r)
    decreases m
  {
    if DaysBeforeMonth(y, m) < k then m
    else
      MonthStep(y, m - 1);
      FindMonth(y, k, m - 1)
  }

  /** A day number up to MaxOrdinal falls in a year up to MaxYear. */
  lemma FoundYearInRange(n: int, y: int)
    requires 1 <= y && DaysBeforeYear(y) < n <= MaxOrdinal
    ensures y <= MaxYear
  {
    MaxOrdinalIsDaysBefore10000();
    if y > MaxYear {
      YearsIncrease(MaxYear, y);
    }
  }

  /** Python's `date.fromordinal`. */
  function FromOrdinal(n: int): (d: CivilDate)
    requires 1 <= n <= MaxOrdinal
    ensures Ordinal(d) == n
  {
    var y := FindYear(n, 1);
    FoundYearInRange(n, y);
    YearStep(y);
    MonthStep(y, 12);
    var k := n - DaysBeforeYear(y);
    var m := FindMonth(y, k, 12);
    var day := k - DaysBeforeMonth(y, m);
    assert 1 <= day <= DaysInMonth(y, m);
    Date(y, m, day)
  }

  /** `fromordinal(toordinal(d)) == d`: day numbers identify dates. */
  lemma FromOrdinalOrdinal(d: CivilDate)
    ensures FromOrdinal(Ordinal(d)) == d
  {
    var n := Ordinal(d);
    var y := FindYear(n, 1);
    if y < d.year {
      YearsIncrease(y, d.year);
    } else if y > d.year {
      YearsIncrease(d.year, y);
    }
    assert y == d.year;
    var k := n - DaysBeforeYear(y);
    MonthStep(y, 12);
    var m := FindMonth(y, k, 12);
    if m < d.month {
      MonthsIncrease(y, m, d.month);
    } else if m > d.month {
      MonthsIncrease(y, d.month, m);
    }
  }
}
