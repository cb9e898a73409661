/** Stage B, `scripts/prepare_dataset.py`: keep one region and one age
    class, clean the two rates, re-read the week date and derive calendar
    fields. Every step runs only when its column is present; otherwise the
    table passes through untouched. */
module PrepareDataset {
  import opened Wrappers
  import opened IsoWeeks
  import opened Tables
  import opened Seqs

  const TargetRegion := "Île-de-France"
  const TargetAgeClass := "Tous âges"

  const RegionField := "region"
  const AgeClassField := "classe_age"
  const PassagesField := "taux_passages_urgences"
  const SosActsField := "taux_actes_sos_medecins"
  const DateField := "date_semaine"
  const YearField := "annee"
  const MonthField := "mois"
  const WeekField := "semaine"

  /** The value `fillna(0)` writes. */
  const ZeroRate := Real(0.0)

  datatype PrepareError = MissingInput

  // ---------------------------------------------------------------------
  // Row-level steps
  // ---------------------------------------------------------------------

  /** `fillna(value)` on one cell of `row`. */
  function FillCell(row: Record, column: string, value: Cell): (r: Record)
    ensures Get(r, column) == if Get(row, column).Null? then value else Get(row, column)
    ensures forall c :: c != column ==> Get(r, c) == Get(row, c)
  {
    if Get(row, column).Null? then row[column := value] else row
  }

  /** `pd.to_datetime(value, errors="coerce")` on a value that may already
      be a date: dates and missing values are kept, anything else goes
      through the parser. */
  function Reparse(parse: DateParser, value: Cell): (r: Cell)
    ensures r.Null? || r.Day?
    ensures value.Day? || value.Null? ==> r == value
  {
    match value
    case Day(_) => value
    case Null => Null
    case _ =>
      match parse(value)
      case Some(d) => Day(d)
      case None => Null
  }

  /** The calendar fields `.dt.year`, `.dt.month` and
      `.dt.isocalendar().week` of one date cell. */
  function DeriveCalendarRow(row: Record): (r: Record)
    ensures r.Keys == row.Keys + {YearField, MonthField, WeekField}
    ensures Get(row, DateField).Day? ==>
              var d := Get(row, DateField).date;
              && Get(r, YearField) == Int(d.year)
              && Get(r, MonthField) == Int(d.month)
              && Get(r, WeekField) == Int(IsoCalendar(d).week)
    ensures !Get(row, DateField).Day? ==>
              Get(r, YearField).Null? && Get(r, MonthField).Null? && Get(r, WeekField).Null?
    ensures forall c :: c != YearField && c != MonthField && c != WeekField ==> Get(r, c) == Get(row, c)
  {
    match Get(row, DateField)
    case Day(d) =>
      row[YearField := Int(d.year)][MonthField := Int(d.month)][WeekField := Int(IsoCalendar(d).week)]
    case _ =>
      row[YearField := Null][MonthField := Null][WeekField := Null]
  }

  /** `df[...] = df[...].to_datetime(...)` on one row. */
  function ReparseRow(parse: DateParser, row: Record): (r: Record)
    ensures r.Keys == row.Keys + {DateField}
    ensures Get(r, DateField) == Reparse(parse, Get(row, DateField))
    ensures forall c :: c != DateField ==> Get(r, c) == Get(row, c)
  {
    row[DateField := Reparse(parse, Get(row, DateField))]
  }

  /** The row test of `df[df[column] == value]`. */
  function HasValue(column: string, value: Cell): Record -> bool {
    row => Get(row, column) == value
  }

  /** The row test of `df.dropna(subset=[column])`. */
  function Present(column: string): Record -> bool {
    row => !Get(row, column).Null?
  }

  function FillWith(column: string, value: Cell): Record -> Record {
    row => FillCell(row, column, value)
  }

  function ReparseWith(parse: DateParser): Record -> Record {
    row => ReparseRow(parse, row)
  }

  // ---------------------------------------------------------------------
  // Table-level steps, each guarded by the presence of its column
  // ---------------------------------------------------------------------

  /** `df[df[column] == value]`. */
  function KeepEqual(t: Table, column: string, value: Cell): (r: Table)
    ensures r.columns == t.columns
    ensures column !in t.columns ==> r == t
    ensures IsSubsequence(r.rows, t.rows)
    ensures column in t.columns ==>
              forall i :: 0 <= i < |r.rows| ==> Get(r.rows[i], column) == value
    ensures column in t.columns ==>
              forall i :: 0 <= i < |t.rows| && Get(t.rows[i], column) == value ==> t.rows[i] in r.rows
    ensures column in t.columns ==> multiset(r.rows) <= multiset(t.rows)
    ensures column in t.columns ==>
              forall i :: 0 <= i < |t.rows| ==>
                multiset(r.rows)[t.rows[i]] == if Get(t.rows[i], column) == value then multiset(t.rows)[t.rows[i]] else 0
  {
    if column in t.columns then
      FilterMultiplicity(HasValue(column, value), t.rows);
      Table(t.columns, Filter(HasValue(column, value), t.rows))
    else SubsequenceReflexive(t.rows); t
  }

  /** `df[column] = df[column].fillna(value)`. */
  function FillNull(t: Table, column: string, value: Cell): (r: Table)
    ensures r.columns == t.columns && |r.rows| == |t.rows|
    ensures column !in t.columns ==> r == t
    ensures column in t.columns ==> forall i :: 0 <= i < |t.rows| ==>
              && Get(r.rows[i], column) == (if Get(t.rows[i], column).Null? then value else Get(t.rows[i], column))
              && forall c :: c != column ==> Get(r.rows[i], c) == Get(t.rows[i], c)
  {
    if column in t.columns then Table(t.columns, MapSeq(FillWith(column, value), t.rows))
    else t
  }

  /** `df.dropna(subset=[column])`. */
  function DropNull(t: Table, column: string): (r: Table)
    ensures r.columns == t.columns
    ensures column !in t.columns ==> r == t
    ensures IsSubsequence(r.rows, t.rows)
    ensures column in t.columns ==>
              forall i :: 0 <= i < |r.rows| ==> !Get(r.rows[i], column).Null?
    ensures column in t.columns ==>
              forall i :: 0 <= i < |t.rows| && !Get(t.rows[i], column).Null? ==> t.rows[i] in r.rows
    ensures column in t.columns ==> multiset(r.rows) <= multiset(t.rows)
    ensures column in t.columns ==>
              forall i :: 0 <= i < |t.rows| ==>
                multiset(r.rows)[t.rows[i]] == if !Get(t.rows[i], column).Null? then multiset(t.rows)[t.rows[i]] else 0
  {
    if column in t.columns then
      FilterMultiplicity(Present(column), t.rows);
      Table(t.columns, Filter(Present(column), t.rows))
    else SubsequenceReflexive(t.rows); t
  }

  /** `df["date_semaine"] = pd.to_datetime(df["date_semaine"], errors="coerce")`. */
  function ReparseDates(t: Table, parse: DateParser): (r: Table)
    ensures r.columns == t.columns && |r.rows| == |t.rows|
    ensures DateField !in t.columns ==> r == t
    ensures DateField in t.columns ==> forall i :: 0 <= i < |r.rows| ==>
              && (Get(r.rows[i], DateField).Null? || Get(r.rows[i], DateField).Day?)
              && (Get(t.rows[i], DateField).Day? ==> Get(r.rows[i], DateField) == Get(t.rows[i], DateField))
              && forall c :: c != DateField ==> Get(r.rows[i], c) == Get(t.rows[i], c)
  {
    if DateField in t.columns then
      Table(t.columns, MapSeq(ReparseWith(parse), t.rows))
    else t
  }

  /** `df[column] = ...` on a column that may be new: a new column goes last. */
  function AddColumn(columns: seq<string>, column: string): (r: seq<string>)
    ensures forall c :: c in r <==> c in columns || c == column
    ensures |r| == |columns| + (if column in columns then 0 else 1)
    ensures r[..|columns|] == columns
  {
    if column in columns then columns else columns + [column]
  }

  function CalendarColumns(columns: seq<string>): seq<string> {
    AddColumn(AddColumn(AddColumn(columns, YearField), MonthField), WeekField)
  }

  /** Step 3: derive `annee`, `mois` and `semaine` from `date_semaine`. */
  function DeriveCalendar(t: Table): (r: Table)
    ensures |r.rows| == |t.rows|
    ensures DateField !in t.columns ==> r == t
    ensures DateField in t.columns ==> r.columns == CalendarColumns(t.columns)
    ensures DateField in t.columns ==> forall i :: 0 <= i < |r.rows| ==> r.rows[i] == DeriveCalendarRow(t.rows[i])
  {
    if DateField in t.columns then Table(CalendarColumns(t.columns), MapSeq(DeriveCalendarRow, t.rows))
    else t
  }

  /** The whole of `prepare_dataset.py` once its input has been read. */
  function PrepareTable(t: Table, parse: DateParser): (r: Table)
    ensures |r.rows| <= |t.rows|
  {
    var scoped := KeepEqual(KeepEqual(t, RegionField, Text(TargetRegion)), AgeClassField, Text(TargetAgeClass));
    var filled := FillNull(scoped, SosActsField, ZeroRate);
    var complete := DropNull(filled, PassagesField);
    DeriveCalendar(ReparseDates(complete, parse))
  }

  /** Stage B: a missing input file is fatal. */
  function Prepare(input: Option<Table>, parse: DateParser): (r: Result<Table, PrepareError>)
    ensures r.Failure? <==> input.None?
    ensures r.Success? ==> |r.value.rows| <= |input.value.rows|
  {
    match input
    case None => Failure(MissingInput)
    case Some(t) => Success(PrepareTable(t, parse))
  }

  // ---------------------------------------------------------------------
  // What stage B computes, row by row
  // ---------------------------------------------------------------------

  /** The columns every step of stage B looks for. */
  predicate HasAllColumns(columns: seq<string>) {
    && RegionField in columns && AgeClassField in columns
    && SosActsField in columns && PassagesField in columns
    && DateField in columns
  }

  /** A row survives stage B: right region, right age class, and an
      emergency-visit rate. */
  predicate Survives(row: Record) {
    InScope(row) && !Get(row, PassagesField).Null?
  }

  /** What stage B does to a surviving row. */
  function Enrich(parse: DateParser, row: Record): (r: Record)
    ensures Survives(row) ==> PreparedRow(r)
  {
    DeriveCalendarRow(ReparseRow(parse, FillCell(row, SosActsField, ZeroRate)))
  }

  /** A row that already holds a date keeps it through stage B's row steps,
      and its calendar fields are that date's year, month and ISO week. */
  lemma EnrichKeepsDate(parse: DateParser, row: Record)
    requires Get(row, DateField).Day?
    ensures var d := Get(row, DateField).date;
            var r := Enrich(parse, row);
            && Get(r, DateField) == Day(d)
            && Get(r, YearField) == Int(d.year)
            && Get(r, MonthField) == Int(d.month)
            && Get(r, WeekField) == Int(IsoCalendar(d).week)
  {
    var e := FillCell(row, SosActsField, ZeroRate);
    assert Get(e, DateField) == Get(row, DateField);
    assert Get(ReparseRow(parse, e), DateField) == Get(row, DateField);
  }

  /** A row in scope: right region and right age class. */
  predicate InScope(row: Record) {
    Get(row, RegionField) == Text(TargetRegion) && Get(row, AgeClassField) == Text(TargetAgeClass)
  }

  /** The two scope filters amount to one filter by region and age class. */
  lemma ScopeFilter(t: Table)
    requires RegionField in t.columns && AgeClassField in t.columns
    ensures KeepEqual(KeepEqual(t, RegionField, Text(TargetRegion)), AgeClassField, Text(TargetAgeClass)).rows
            == Filter(InScope, t.rows)
  {
    var p := HasValue(RegionField, Text(TargetRegion));
    var q := HasValue(AgeClassField, Text(TargetAgeClass));
    var a := KeepEqual(t, RegionField, Text(TargetRegion));
    assert a.rows == Filter(p, t.rows);
    assert AgeClassField in a.columns;
    assert KeepEqual(a, AgeClassField, Text(TargetAgeClass)).rows == Filter(q, a.rows);
    FilterFilter(p, q, InScope, t.rows);
  }

  /** `out` is, in order and one for one, the enrichment of the rows of
      `rows` that survive stage B. */
  ghost predicate EnrichesSurvivors(parse: DateParser, rows: seq<Record>, out: seq<Record>) {
    && |out| == |Filter(Survives, rows)|
    && forall i :: 0 <= i < |out| ==> out[i] == Enrich(parse, Filter(Survives, rows)[i])
  }

  /** With all its columns present, stage B keeps exactly the surviving
      rows, in their order, and enriches each of them. Filling the SOS rate
      before dropping rows without an emergency rate does not change which
      rows are dropped. */
  lemma PrepareCharacterization(t: Table, parse: DateParser)
    requires HasAllColumns(t.columns)
    ensures EnrichesSurvivors(parse, t.rows, PrepareTable(t, parse).rows)
  {
    var scope := InScope;
    var scoped := KeepEqual(KeepEqual(t, RegionField, Text(TargetRegion)), AgeClassField, Text(TargetAgeClass));
    ScopeFilter(t);
    assert scoped.rows == Filter(scope, t.rows);
    var fill := FillWith(SosActsField, ZeroRate);
    var filled := FillNull(scoped, SosActsField, ZeroRate);
    assert filled.rows == MapSeq(fill, scoped.rows);
    var present := Present(PassagesField);
    var complete := DropNull(filled, PassagesField);
    assert complete.rows == Filter(present, MapSeq(fill, scoped.rows));
    FilterOfMap(fill, present, present, scoped.rows);
    FilterFilter(scope, present, Survives, t.rows);
    var kept := Filter(Survives, t.rows);
    assert complete.rows == MapSeq(fill, kept);
    var reparsed := ReparseDates(complete, parse);
    var r := DeriveCalendar(reparsed);
    assert r == PrepareTable(t, parse);
    forall i | 0 <= i < |kept|
      ensures r.rows[i] == Enrich(parse, kept[i])
    {
      assert complete.rows[i] == FillCell(kept[i], SosActsField, ZeroRate);
      assert reparsed.rows[i] == ReparseRow(parse, complete.rows[i]);
    }
  }

  /** With all its columns present, stage B's output has the input's
      columns followed by whichever of `annee`, `mois` and `semaine` were
      not there yet. */
  lemma PrepareColumns(t: Table, parse: DateParser)
    requires HasAllColumns(t.columns)
    ensures PrepareTable(t, parse).columns == CalendarColumns(t.columns)
    ensures forall c :: c in PrepareTable(t, parse).columns <==>
              c in t.columns || c == YearField || c == MonthField || c == WeekField
  {
  }

  /** A row as stage B writes it: in scope, both rates present, a date or
      NaT, and calendar fields that agree with that date. */
  predicate PreparedRow(row: Record) {
    && Survives(row)
    && DateField in row && YearField in row && MonthField in row && WeekField in row
    && !Get(row, SosActsField).Null?
    && (Get(row, DateField).Day? || Get(row, DateField).Null?)
    && (Get(row, DateField).Day? ==>
          var d := Get(row, DateField).date;
          && Get(row, YearField) == Int(d.year)
          && Get(row, MonthField) == Int(d.month)
          && Get(row, WeekField) == Int(IsoCalendar(d).week))
    && (Get(row, DateField).Null? ==>
          Get(row, YearField).Null? && Get(row, MonthField).Null? && Get(row, WeekField).Null?)
  }

  /** Every row stage B writes is a prepared row. */
  lemma PreparedRows(t: Table, parse: DateParser)
    requires HasAllColumns(t.columns)
    ensures forall i :: 0 <= i < |PrepareTable(t, parse).rows| ==> PreparedRow(PrepareTable(t, parse).rows[i])
  {
    PrepareCharacterization(t, parse);
    var kept := Filter(Survives, t.rows);
    var r := PrepareTable(t, parse);
    forall i | 0 <= i < |r.rows|
      ensures PreparedRow(r.rows[i])
    {
      assert r.rows[i] == Enrich(parse, kept[i]);
    }
  }

  /** `row` is the enrichment of a row of `rows` that survives stage B. */
  ghost predicate FromSurvivor(parse: DateParser, rows: seq<Record>, row: Record) {
    exists i :: 0 <= i < |rows| && Survives(rows[i]) && row == Enrich(parse, rows[i])
  }

  /** The origins argument on plain sequences: `out` enriches, one for
      one, the surviving elements of `rows`. */
  lemma EnrichedSurvivors(parse: DateParser, rows: seq<Record>, out: seq<Record>)
    requires EnrichesSurvivors(parse, rows, out)
    ensures forall i :: 0 <= i < |rows| && Survives(rows[i]) ==> Enrich(parse, rows[i]) in out
    ensures forall j :: 0 <= j < |out| ==> FromSurvivor(parse, rows, out[j])
  {
    var kept := Filter(Survives, rows);
    forall i | 0 <= i < |rows| && Survives(rows[i])
      ensures Enrich(parse, rows[i]) in out
    {
      assert rows[i] in kept;
      var j :| 0 <= j < |kept| && kept[j] == rows[i];
      assert out[j] == Enrich(parse, kept[j]);
    }
    forall j | 0 <= j < |out|
      ensures FromSurvivor(parse, rows, out[j])
    {
      assert kept[j] in rows && Survives(kept[j]);
      var i :| 0 <= i < |rows| && rows[i] == kept[j];
      assert out[j] == Enrich(parse, rows[i]);
    }
  }

  /** A row is in stage B's output exactly when it is the enrichment of a
      surviving input row: no surviving row is lost and nothing else gets
      in. */
  lemma PrepareRowOrigins(t: Table, parse: DateParser)
    requires HasAllColumns(t.columns)
    ensures forall i :: 0 <= i < |t.rows| && Survives(t.rows[i]) ==> Enrich(parse, t.rows[i]) in PrepareTable(t, parse).rows
    ensures forall j :: 0 <= j < |PrepareTable(t, parse).rows| ==> FromSurvivor(parse, t.rows, PrepareTable(t, parse).rows[j])
  {
    PrepareCharacterization(t, parse);
    EnrichedSurvivors(parse, t.rows, PrepareTable(t, parse).rows);
  }

  /** Without any of the columns it looks for, stage B changes nothing. */
  lemma PrepareWithoutColumns(t: Table, parse: DateParser)
    requires RegionField !in t.columns && AgeClassField !in t.columns
    requires SosActsField !in t.columns && PassagesField !in t.columns
    requires DateField !in t.columns
    ensures PrepareTable(t, parse) == t
  {
  }

  /** Adding the calendar columns a second time adds nothing. */
  lemma CalendarColumnsIdempotent(columns: seq<string>)
    ensures HasAllColumns(columns) ==> HasAllColumns(CalendarColumns(columns))
    ensures CalendarColumns(CalendarColumns(columns)) == CalendarColumns(columns)
  {
  }

  /** Stage B leaves a prepared row as it is. */
  lemma EnrichFixesPrepared(parse: DateParser, row: Record)
    requires PreparedRow(row)
    ensures Enrich(parse, row) == row
  {
    assert FillCell(row, SosActsField, ZeroRate) == row;
    assert ReparseRow(parse, row) == row;
    DeriveFixesPrepared(row);
  }

  /** Deriving the calendar fields of a prepared row again gives the
      fields it already has. */
  lemma DeriveFixesPrepared(row: Record)
    requires PreparedRow(row)
    ensures DeriveCalendarRow(row) == row
  {
    var r := DeriveCalendarRow(row);
    assert r.Keys == row.Keys;
    forall c | c in row
      ensures r[c] == row[c]
    {
      assert Get(r, c) == Get(row, c);
    }
  }

  /** A sequence that enriches the survivors of prepared rows is those
      rows. */
  lemma PreparedSurvivorsFixed(parse: DateParser, rows: seq<Record>, out: seq<Record>)
    requires forall i :: 0 <= i < |rows| ==> PreparedRow(rows[i])
    requires EnrichesSurvivors(parse, rows, out)
    ensures out == rows
  {
    FilterAll(Survives, rows);
    forall i | 0 <= i < |rows|
      ensures out[i] == rows[i]
    {
      EnrichFixesPrepared(parse, rows[i]);
    }
  }

  /** Stage B leaves a table of prepared rows, which already has the
      calendar columns, as it is. */
  lemma PrepareFixesPrepared(u: Table, parse: DateParser)
    requires HasAllColumns(u.columns) && CalendarColumns(u.columns) == u.columns
    requires forall i :: 0 <= i < |u.rows| ==> PreparedRow(u.rows[i])
    ensures PrepareTable(u, parse) == u
  {
    PrepareCharacterization(u, parse);
    PreparedSurvivorsFixed(parse, u.rows, PrepareTable(u, parse).rows);
  }

  /** Running stage B on its own output changes nothing. */
  lemma PrepareIdempotent(t: Table, parse: DateParser)
    requires HasAllColumns(t.columns)
    ensures PrepareTable(PrepareTable(t, parse), parse) == PrepareTable(t, parse)
  {
    PrepareCharacterization(t, parse);
    PreparedRows(t, parse);
    CalendarColumnsIdempotent(t.columns);
    PrepareFixesPrepared(PrepareTable(t, parse), parse);
  }
}
