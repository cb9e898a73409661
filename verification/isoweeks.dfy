/** The ISO 8601 week-date system (section 4.1.4 of ISO 8601:2004) as
    Python's `datetime` implements it: `date.fromisocalendar` and
    `date.isocalendar`. Weeks run Monday to Sunday and week 1 of a year is
    the week that contains 4 January. */
module IsoWeeks {
  import opened Wrappers
  import opened Calendar

  /** (ISO year, ISO week, ISO weekday with Monday = 1). */
  datatype IsoWeekDate = IsoWeekDate(isoYear: int, week: int, weekday: int)

  /** A week date `date.fromisocalendar` accepts as far as ranges go. */
  predicate ValidIsoWeekDate(x: IsoWeekDate) {
    && MinYear <= x.isoYear <= MaxYear
    && 1 <= x.week <= IsoWeeksInYear(x.isoYear)
    && 1 <= x.weekday <= 7
  }

  /** Day number of an ISO week date: `weekday - 1` days after the Monday
      that starts week `week`. */
  function IsoOrdinal(x: IsoWeekDate): int
    requires x.isoYear >= 1
  {
    Week1Monday(x.isoYear) + 7 * (x.week - 1) + (x.weekday - 1)
  }

  /** Day number of 1 January of `y`. */
  function NewYearOrdinal(y: int): int
    requires y >= 1
  {
    DaysBeforeYear(y) + 1
  }

  /** The Monday of the week that contains day `first + 3`: the Monday
      starting ISO week 1 when `first` is the day number of 1 January. */
  function WeekOneMondayFrom(first: int): (r: int)
    ensures WeekdayOfOrdinal(r) == 0
    ensures r <= first + 3 < r + 7
  {
    var wd := WeekdayOfOrdinal(first);
    assert first + 6 == 7 * ((first + 6) / 7) + wd;
    var monday := first - wd;
    if wd > 3 then monday + 7 else monday
  }

  /** Python's `_isoweek1monday`. */
  function Week1Monday(y: int): (r: int)
    requires y >= 1
    ensures WeekdayOfOrdinal(r) == 0
    ensures r <= NewYearOrdinal(y) + 3 < r + 7
  {
    WeekOneMondayFrom(NewYearOrdinal(y))
  }

  /** The test `fromisocalendar` applies to week 53: the year starts on a
      Thursday, or it is a leap year starting on a Wednesday. */
  predicate HasWeek53(y: int)
    requires y >= 1
  {
    var firstWeekday := WeekdayOfOrdinal(NewYearOrdinal(y));
    firstWeekday == 3 || (firstWeekday == 2 && IsLeapYear(y))
  }

  function IsoWeeksInYear(y: int): int
    requires y >= 1
  {
    if HasWeek53(y) then 53 else 52
  }

  // ---------------------------------------------------------------------
  // How week-1 Mondays are spaced
  // ---------------------------------------------------------------------

  /** The week-53 rule agrees with the spacing of consecutive week-1
      Mondays: ISO year `y` has exactly IsoWeeksInYear(y) weeks. */
  lemma WeekOneStep(y: int)
    requires y >= 1
    ensures Week1Monday(y + 1) == Week1Monday(y) + 7 * IsoWeeksInYear(y)
  {
    YearStep(y);
    var first := NewYearOrdinal(y);
    WeekOneShift(first, DaysInYear(y));
  }

  /** Moving 1 January forward by a year of `len` days moves the week-1
      Monday forward by 52 or 53 weeks, by the week-53 rule. */
  lemma WeekOneShift(first: int, len: int)
    requires len == 365 || len == 366
    ensures var wd := WeekdayOfOrdinal(first);
            WeekOneMondayFrom(first + len)
            == WeekOneMondayFrom(first) + 7 * (if wd == 3 || (wd == 2 && len == 366) then 53 else 52)
  {
    var wd := WeekdayOfOrdinal(first);
    var q := (first + 6) / 7;
    assert first + 6 == 7 * q + wd;
    assert first + len + 6 == 7 * (q + 52) + wd + (len - 364);
    if wd + (len - 364) < 7 {
      assert WeekdayOfOrdinal(first + len) == wd + (len - 364);
    } else {
      assert first + len + 6 == 7 * (q + 53) + wd + (len - 364) - 7;
      assert WeekdayOfOrdinal(first + len) == wd + (len - 364) - 7;
    }
  }

  /** The week-53 test agrees with the calendar: an ISO year has a week 53
      exactly when the next year's week 1 starts 371 days (53 weeks) after
      its own, and otherwise 364 days (52 weeks) after it. */
  lemma Week53BySpacing(y: int)
    requires y >= 1
    ensures HasWeek53(y) <==> Week1Monday(y + 1) - Week1Monday(y) == 371
    ensures !HasWeek53(y) <==> Week1Monday(y + 1) - Week1Monday(y) == 364
  {
    WeekOneStep(y);
  }

  lemma {:induction false} WeekOneIncreases(a: int, b: int)
    requires 1 <= a < b
    ensures Week1Monday(a + 1) <= Week1Monday(b)
    decreases b - a
  {
    WeekOneStep(a);
    if a + 1 < b {
      WeekOneIncreases(a + 1, b);
      WeekOneStep(a + 1);
    }
  }

  lemma Week1MondayPositive(y: int)
    requires y >= 1
    ensures Week1Monday(y) >= 1
  {
    if y > 1 {
      YearsIncrease(1, y);
    }
  }

  /** 9999-12-31 still belongs to ISO year 9999. */
  lemma NoWeekOneAfterMaxYear()
    ensures Week1Monday(MaxYear + 1) > MaxOrdinal
  {
    MaxOrdinalIsDaysBefore10000();
    assert NewYearOrdinal(MaxYear + 1) == MaxOrdinal + 1;
  }

  /** The Monday of any week of ISO year `y` falls before the end of the
      Gregorian year `y`, hence never past 9999-12-31. */
  lemma MondayBeforeYearEnd(y: int, w: int)
    requires MinYear <= y <= MaxYear && 1 <= w <= IsoWeeksInYear(y)
    ensures Week1Monday(y) + 7 * (w - 1) < NewYearOrdinal(y + 1)
    ensures Week1Monday(y) + 7 * (w - 1) <= MaxOrdinal
  {
    WeekOneStep(y);
    MaxOrdinalIsDaysBefore10000();
    if y < MaxYear {
      YearsIncrease(y + 1, MaxYear + 1);
    }
  }

  // ---------------------------------------------------------------------
  // The two conversions
  // ---------------------------------------------------------------------

  /** Python's `date.fromisocalendar(year, week, day)`, with `None` where
      it raises ValueError. */
  function FromIsoCalendar(year: int, week: int, day: int): (r: Option<CivilDate>)
    ensures r.Some? <==>
              && ValidIsoWeekDate(IsoWeekDate(year, week, day))
              && IsoOrdinal(IsoWeekDate(year, week, day)) <= MaxOrdinal
    ensures r.Some? ==> Ordinal(r.value) == IsoOrdinal(IsoWeekDate(year, week, day))
  {
    if year < MinYear || year > MaxYear then None
    else if (week <= 0 || week >= 53) && !(week == 53 && HasWeek53(year)) then None
    else if day <= 0 || day >= 8 then None
    else
      var n := Week1Monday(year) + (week - 1) * 7 + (day - 1);
      Week1MondayPositive(year);
      if n > MaxOrdinal then None else Some(FromOrdinal(n))
  }

  /** Splitting a day offset within an ISO year into week and weekday. */
  lemma WeekSplit(x: int, weeks: int)
    requires 0 <= x < 7 * weeks
    ensures 0 <= x / 7 < weeks
    ensures 0 <= x % 7 < 7
    ensures x == 7 * (x / 7) + x % 7
  {
  }

  /** Python's `date.isocalendar()`. */
  function IsoCalendar(d: CivilDate): (r: IsoWeekDate)
    ensures ValidIsoWeekDate(r)
    ensures d.year - 1 <= r.isoYear <= d.year + 1
    ensures Ordinal(d) == IsoOrdinal(r)
  {
    var today := Ordinal(d);
    var year := d.year;
    var w1 := Week1Monday(year);
    WeekOneStep(year);
    assert NewYearOrdinal(year) <= today < NewYearOrdinal(year + 1);
    if today < w1 then
      // Only possible in the first days of January: the date belongs to the
      // last ISO week of the previous year.
      var prev := year - 1;
      assert prev >= 1 by {
        assert Week1Monday(1) == 1;
      }
      WeekOneStep(prev);
      var w0 := Week1Monday(prev);
      WeekSplit(today - w0, IsoWeeksInYear(prev));
      IsoWeekDate(prev, (today - w0) / 7 + 1, (today - w0) % 7 + 1)
    else if (today - w1) / 7 >= 52 && today >= Week1Monday(year + 1) then
      // Only possible in the last days of December: the date belongs to
      // week 1 of the next year.
      var w2 := Week1Monday(year + 1);
      assert year + 1 <= MaxYear by {
        if year == MaxYear { NoWeekOneAfterMaxYear(); }
      }
      WeekSplit(today - w1, IsoWeeksInYear(year) + 1);
      WeekSplit(today - w2, 1);
      IsoWeekDate(year + 1, 1, (today - w1) % 7 + 1)
    else
      WeekSplit(today - w1, IsoWeeksInYear(year));
      IsoWeekDate(year, (today - w1) / 7 + 1, (today - w1) % 7 + 1)
  }

  // ---------------------------------------------------------------------
  // Round trips
  // ---------------------------------------------------------------------

  /** An ISO week date is determined by its day number. */
  lemma IsoOrdinalInjective(a: IsoWeekDate, b: IsoWeekDate)
    requires ValidIsoWeekDate(a) && ValidIsoWeekDate(b)
    requires IsoOrdinal(a) == IsoOrdinal(b)
    ensures a == b
  {
    WeekOneStep(a.isoYear);
    WeekOneStep(b.isoYear);
    if a.isoYear < b.isoYear {
      WeekOneIncreases(a.isoYear, b.isoYear);
    } else if b.isoYear < a.isoYear {
      WeekOneIncreases(b.isoYear, a.isoYear);
    }
  }

  /** `date.fromisocalendar(y, w, d).isocalendar() == (y, w, d)`. */
  lemma FromIsoCalendarRoundTrip(year: int, week: int, day: int)
    requires FromIsoCalendar(year, week, day).Some?
    ensures IsoCalendar(FromIsoCalendar(year, week, day).value) == IsoWeekDate(year, week, day)
  {
    var d := FromIsoCalendar(year, week, day).value;
    IsoOrdinalInjective(IsoCalendar(d), IsoWeekDate(year, week, day));
  }

  /** `date.fromisocalendar(*d.isocalendar()) == d`. */
  lemma IsoCalendarRoundTrip(d: CivilDate)
    ensures var x := IsoCalendar(d);
            FromIsoCalendar(x.isoYear, x.week, x.weekday) == Some(d)
  {
    FromOrdinalOrdinal(d);
  }

  /** Two dates with the same ISO week date are the same date. */
  lemma IsoCalendarInjective(a: CivilDate, b: CivilDate)
    requires IsoCalendar(a) == IsoCalendar(b)
    ensures a == b
  {
    IsoCalendarRoundTrip(a);
    IsoCalendarRoundTrip(b);
  }

  /** Every week of every ISO year in range has a Monday, and it is the
      date whose ISO week date is (year, week, 1); no other (year, week)
      has one. */
  lemma MondayOfEveryWeek(year: int, week: int)
    ensures FromIsoCalendar(year, week, 1).Some? <==>
              MinYear <= year <= MaxYear && 1 <= week <= IsoWeeksInYear(year)
    ensures FromIsoCalendar(year, week, 1).Some? ==>
              IsoCalendar(FromIsoCalendar(year, week, 1).value) == IsoWeekDate(year, week, 1)
  {
    if MinYear <= year <= MaxYear && 1 <= week <= IsoWeeksInYear(year) {
      MondayBeforeYearEnd(year, week);
      FromIsoCalendarRoundTrip(year, week, 1);
    }
  }
}
