/** The two stages end to end: stage A's canonical rows become the table
    stage B reads. The CSV file between the stages is not modelled: a row
    is handed over cell for cell, and the date as a date. */
module Pipeline {
  import opened Wrappers
  import opened Strings
  import opened Calendar
  import opened IsoWeeks
  import opened Tables
  import opened Seqs
  import opened MergeCsv
  import opened PrepareDataset

  const ReasonField := "raison"
  const HospitalisationField := "taux_hospitalisation"

  /** The set of canonical column names. */
  function CanonicalKeys(): set<string> {
    set c | c in CanonicalColumns
  }

  /** A canonical row as a record keyed by the canonical column names; it
      reads back as the same row. */
  function CanonicalRecord(row: CanonicalRow): (r: Record)
    ensures r.Keys == CanonicalKeys()
    ensures RecordRow(r) == row
  {
    map[DateField := (match row.dateSemaine case Some(d) => Day(d) case None => Null),
        RegionField := row.region,
        AgeClassField := row.classeAge,
        PassagesField := row.tauxPassagesUrgences,
        HospitalisationField := row.tauxHospitalisation,
        SosActsField := row.tauxActesSosMedecins,
        ReasonField := Text(row.raison)]
  }

  /** Reads a canonical row back from a record. */
  function RecordRow(r: Record): CanonicalRow {
    CanonicalRow(
      if Get(r, DateField).Day? then Some(Get(r, DateField).date) else None,
      Get(r, RegionField), Get(r, AgeClassField), Get(r, PassagesField),
      Get(r, HospitalisationField), Get(r, SosActsField),
      if Get(r, ReasonField).Text? then Get(r, ReasonField).text else "")
  }

  /** Stage A's output as a table: the seven canonical columns in order,
      one record per row. */
  function MergedTable(rows: seq<CanonicalRow>): (t: Table)
    ensures t.columns == CanonicalColumns
    ensures |t.rows| == |rows|
    ensures WellFormed(t)
    ensures HasAllColumns(t.columns)
    ensures forall i :: 0 <= i < |rows| ==> RecordRow(t.rows[i]) == rows[i]
  {
    Table(CanonicalColumns, MapSeq(CanonicalRecord, rows))
  }

  /** Both stages: merge the files, then filter and derive. Stage B cannot
      miss its input once stage A has written it, so the only failures are
      stage A's. */
  function RunPipeline(files: seq<SourceFile>, parse: DateParser): (r: Result<Table, MergeError>)
    ensures r.Failure? <==> Merge(files, parse).Failure?
    ensures r.Failure? ==> r.error == Merge(files, parse).error
    ensures r.Success? ==> |r.value.rows| <= Sorting.SumBy(files, RowCount)
    ensures r.Success? ==> forall i :: 0 <= i < |r.value.rows| ==> PreparedRow(r.value.rows[i])
  {
    match Merge(files, parse)
    case Failure(e) => Failure(e)
    case Success(rows) =>
      var t := MergedTable(rows);
      PreparedRows(t, parse);
      Success(Prepare(Some(t), parse).value)
  }

  /** Stage A followed by stage B keeps exactly the canonical rows that
      survive, in merged order. */
  lemma PipelineRows(files: seq<SourceFile>, parse: DateParser)
    requires Merge(files, parse).Success?
    ensures var rows := Merge(files, parse).value;
            var kept := Filter(Survives, MergedTable(rows).rows);
            && RunPipeline(files, parse).value == PrepareTable(MergedTable(rows), parse)
            && |RunPipeline(files, parse).value.rows| == |kept|
            && forall i :: 0 <= i < |kept| ==> RunPipeline(files, parse).value.rows[i] == Enrich(parse, kept[i])
  {
    PrepareCharacterization(MergedTable(Merge(files, parse).value), parse);
  }

  // ---------------------------------------------------------------------
  // The week-label round trip across the two stages
  // ---------------------------------------------------------------------

  /** A date that stage A read from a "YYYY-SWW" label comes out of stage B
      with `semaine` equal to WW. */
  lemma WeekLabelGivesSemaine(weekText: string, row: CanonicalRow, parse: DateParser)
    requires row.dateSemaine == IsoWeekToDate(Text(weekText))
    requires row.dateSemaine.Some?
    ensures var parts := Split(weekText, WeekSeparator);
            Get(Enrich(parse, CanonicalRecord(row)), WeekField) == Int(DigitsValue(parts[1]))
  {
    assert Get(CanonicalRecord(row), DateField) == Day(row.dateSemaine.value);
    EnrichKeepsDate(parse, CanonicalRecord(row));
  }

  /** The label stage A writes for ISO week `week` of `year` comes out of
      stage B as `semaine` == `week`. */
  lemma WeekLabelRoundTripThroughStages(year: nat, week: nat, row: CanonicalRow, parse: DateParser)
    requires MinYear <= year <= MaxYear && 1 <= week <= IsoWeeksInYear(year)
    requires row.dateSemaine == IsoWeekToDate(Text(WeekLabel(year, week)))
    ensures Get(Enrich(parse, CanonicalRecord(row)), WeekField) == Int(week)
  {
    WeekLabelRoundTrip(year, week);
    assert Get(CanonicalRecord(row), DateField) == Day(row.dateSemaine.value);
    EnrichKeepsDate(parse, CanonicalRecord(row));
  }
}
