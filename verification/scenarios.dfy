/** Worked examples on 2021 dates. Dates are
    passed in as parameters pinned by `requires`, which keeps the verifier
    from unrolling the calendar arithmetic on literals. */
module Scenarios {
  import opened Wrappers
  import opened Calendar
  import opened IsoWeeks
  import opened Tables
  import opened MergeCsv
  import opened PrepareDataset

  /** Days before 1 January 2020 and 2021. */
  lemma DaysBefore2020And2021(y: int)
    requires y == 2021
    ensures DaysBeforeYear(y - 1) == 737424
    ensures DaysBeforeYear(y) == 737790
  {
    DaysBeforeYearClosedForm(y - 1);
    DaysBeforeYearClosedForm(y);
  }

  /** 1 January 2021 is the Friday of ISO week 53 of 2020: 2020 is a leap
      year that starts on a Wednesday, so it has 53 ISO weeks. */
  lemma NewYearsDay2021(jan1: Date)
    requires jan1 == Date(2021, 1, 1)
    ensures ValidDate(jan1)
    ensures IsoCalendar(jan1) == IsoWeekDate(2020, 53, 5)
  {
    var y := jan1.year;
    DaysBefore2020And2021(y);
    assert Ordinal(jan1) == 737791;
    assert NewYearOrdinal(y - 1) == 737425;
    assert WeekdayOfOrdinal(737425) == 2;
    assert Week1Monday(y - 1) == 737423;
    var x := IsoWeekDate(y - 1, 53, 5);
    assert HasWeek53(y - 1);
    assert IsoOrdinal(x) == Ordinal(jan1);
    IsoOrdinalInjective(IsoCalendar(jan1), x);
  }

  /** ISO week 1 of 2021 starts on Monday 4 January. */
  lemma FirstMonday2021(jan4: Date)
    requires jan4 == Date(2021, 1, 4)
    ensures ValidDate(jan4)
    ensures IsoCalendar(jan4) == IsoWeekDate(2021, 1, 1)
  {
    var y := jan4.year;
    DaysBefore2020And2021(y);
    assert Ordinal(jan4) == 737794;
    assert WeekdayOfOrdinal(737791) == 4;
    assert Week1Monday(y) == 737794;
    var x := IsoWeekDate(y, 1, 1);
    assert IsoOrdinal(x) == Ordinal(jan4);
    IsoOrdinalInjective(IsoCalendar(jan4), x);
  }

  /** The label of ISO week 1 of 2021. */
  lemma Week1Of2021Label(year: nat, week: nat)
    requires year == 2021 && week == 1
    ensures WeekLabel(year, week) == "2021-S01"
  {
    assert WeekLabel(2021, 1) == "2021-S01";
  }

  /** "2021-S01" reads as Monday 4 January 2021. */
  lemma Week1Of2021(weekText: string, jan4: Date, year: nat, week: nat)
    requires weekText == "2021-S01" && jan4 == Date(2021, 1, 4)
    requires year == 2021 && week == 1
    ensures ValidDate(jan4)
    ensures IsoWeekToDate(Text(weekText)) == Some(jan4)
  {
    FirstMonday2021(jan4);
    Week1Of2021Label(year, week);
    WeekLabelRoundTrip(year, week);
    IsoCalendarInjective(IsoWeekToDate(Text(weekText)).value, jan4);
  }

  /** Near a year boundary the calendar year and the ISO week disagree:
      stage B gives 1 January 2021 `annee` 2021 and `semaine` 53. */
  lemma YearBoundaryFields(jan1: Date, row: Record)
    requires jan1 == Date(2021, 1, 1)
    requires ValidDate(jan1) && Get(row, DateField) == Day(jan1)
    ensures Get(DeriveCalendarRow(row), YearField) == Int(2021)
    ensures Get(DeriveCalendarRow(row), MonthField) == Int(1)
    ensures Get(DeriveCalendarRow(row), WeekField) == Int(53)
  {
    NewYearsDay2021(jan1);
  }

  /** A Paris-region, all-ages row dated 4 January 2021 gets `annee` 2021,
      `mois` 1 and `semaine` 1. */
  lemma FirstWeekRow(jan4: Date, row: Record, parse: DateParser)
    requires jan4 == Date(2021, 1, 4)
    requires ValidDate(jan4) && Get(row, DateField) == Day(jan4)
    requires Survives(row)
    ensures var e := Enrich(parse, row);
            && Get(e, YearField) == Int(2021)
            && Get(e, MonthField) == Int(1)
            && Get(e, WeekField) == Int(1)
  {
    FirstMonday2021(jan4);
    var f := FillCell(row, SosActsField, ZeroRate);
    assert Get(f, DateField) == Day(jan4);
    assert Get(ReparseRow(parse, f), DateField) == Day(jan4);
  }

  /** A row from another region does not reach stage B's output. */
  lemma OtherRegionDropped(t: Table, parse: DateParser, i: int)
    requires HasAllColumns(t.columns)
    requires 0 <= i < |t.rows| && Get(t.rows[i], RegionField) != Text(TargetRegion)
    ensures forall j :: 0 <= j < |PrepareTable(t, parse).rows| ==>
              Get(PrepareTable(t, parse).rows[j], RegionField) != Get(t.rows[i], RegionField)
  {
    PreparedRows(t, parse);
  }
}
