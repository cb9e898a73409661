/** Stage A, `scripts/merge_csv.py`: derive a reason label from each file
    name, map each file's columns onto the seven canonical fields, and
    concatenate the files in sorted-name order. */
module MergeCsv {
  import opened Wrappers
  import opened Strings
  import opened Calendar
  import opened IsoWeeks
  import opened Tables
  import Sorting

  // ---------------------------------------------------------------------
  // File name -> reason label
  // ---------------------------------------------------------------------

  /** The file-name endings that carry no information about the reason,
      in the order they are tried. */
  const KnownSuffixes: seq<string> := [
    "-passages-aux-urgences-et-actes-sos-medecins-region.csv",
    "-passages-aux-urgences-region.csv",
    "-passages-urgences-et-actes-sos-medecin_reg.csv"
  ]

  /** `name.lower().endswith(".csv")`. Only the ASCII letters C, S and V
      lower-case onto c, s and v, so folding the last four characters is
      enough. */
  predicate EndsWithCsvIgnoringCase(name: string) {
    |name| >= 4 && LowerAscii(name[|name| - 4..]) == ".csv"
  }

  /** Strips the first suffix of `suffixes` that `name` ends with; failing
      that, a case-insensitive `.csv` extension. */
  function StripSuffixes(name: string, suffixes: seq<string>): (r: string)
    ensures |r| <= |name| && r == name[..|r|]
    ensures forall k :: 0 <= k < |suffixes| && EndsWith(name, suffixes[k]) &&
                        (forall j :: 0 <= j < k ==> !EndsWith(name, suffixes[j])) ==>
              r + suffixes[k] == name
    ensures (forall k :: 0 <= k < |suffixes| ==> !EndsWith(name, suffixes[k])) ==>
              r == if EndsWithCsvIgnoringCase(name) then name[..|name| - 4] else name
    decreases |suffixes|
  {
    if |suffixes| == 0 then
      if EndsWithCsvIgnoringCase(name) then name[..|name| - 4] else name
    else if EndsWith(name, suffixes[0]) then
      var r := name[..|name| - |suffixes[0]|];
      assert r + suffixes[0] == name;
      r
    else
      var r := StripSuffixes(name, suffixes[1..]);
      forall k | 0 < k < |suffixes| && EndsWith(name, suffixes[k]) &&
                 (forall j :: 0 <= j < k ==> !EndsWith(name, suffixes[j]))
        ensures r + suffixes[k] == name
      {
        assert suffixes[1..][k - 1] == suffixes[k];
        assert forall j :: 0 <= j < k - 1 ==> suffixes[1..][j] == suffixes[j + 1];
      }
      assert forall k :: 0 < k < |suffixes| ==> suffixes[1..][k - 1] == suffixes[k];
      r
  }

  /** `reason_from_name`: a best-effort label, always a prefix of the name. */
  function ReasonFromName(name: string): (r: string)
    ensures |r| <= |name| && r == name[..|r|]
    ensures forall k :: 0 <= k < |KnownSuffixes| && EndsWith(name, KnownSuffixes[k]) ==>
              r + KnownSuffixes[k] == name
    ensures (forall k :: 0 <= k < |KnownSuffixes| ==> !EndsWith(name, KnownSuffixes[k])) ==>
              r == if EndsWithCsvIgnoringCase(name) then name[..|name| - 4] else name
  {
    forall k, j | 0 <= j < k < |KnownSuffixes| && EndsWith(name, KnownSuffixes[k])
      ensures !EndsWith(name, KnownSuffixes[j])
    {
      AtMostOneSuffix(name, k, j);
    }
    StripSuffixes(name, KnownSuffixes)
  }

  /** No known suffix ends another. */
  lemma SuffixesDisjoint()
    ensures forall j, k :: 0 <= j < |KnownSuffixes| && 0 <= k < |KnownSuffixes| && j != k ==>
              !EndsWith(KnownSuffixes[j], KnownSuffixes[k])
  {
    var s0, s1, s2 := KnownSuffixes[0], KnownSuffixes[1], KnownSuffixes[2];
    assert |s0| == 55 && |s1| == 33 && |s2| == 47;
    assert s0[|s0| - 13] != s1[|s1| - 13];
    assert s0[|s0| - 5] != s2[|s2| - 5];
    assert s2[|s2| - 5] != s1[|s1| - 5];
    assert s0[|s0| - |s1|..][|s1| - 13] == s0[|s0| - 13];
    assert s0[|s0| - |s2|..][|s2| - 5] == s0[|s0| - 5];
    assert s2[|s2| - |s1|..][|s1| - 5] == s2[|s2| - 5];
  }

  /** Hence a name ends with at most one of them, and the order in which
      they are tried does not matter. */
  lemma AtMostOneSuffix(name: string, j: int, k: int)
    requires 0 <= j < |KnownSuffixes| && 0 <= k < |KnownSuffixes| && j != k
    requires EndsWith(name, KnownSuffixes[j])
    ensures !EndsWith(name, KnownSuffixes[k])
  {
    SuffixesDisjoint();
    if EndsWith(name, KnownSuffixes[k]) {
      EndsWithNested(name, KnownSuffixes[j], KnownSuffixes[k]);
    }
  }

  /** Two endings of the same name: the shorter ends the longer. */
  lemma EndsWithNested(name: string, a: string, b: string)
    requires EndsWith(name, a) && EndsWith(name, b)
    ensures EndsWith(a, b) || EndsWith(b, a)
  {
    if |b| <= |a| {
      assert a[|a| - |b|..] == name[|name| - |b|..];
    } else {
      assert b[|b| - |a|..] == name[|name| - |a|..];
    }
  }

  lemma EndsWithTransitive(s: string, a: string, b: string)
    requires EndsWith(s, a) && EndsWith(a, b)
    ensures EndsWith(s, b)
  {
    assert s[|s| - |b|..] == a[|a| - |b|..];
  }

  lemma KnownSuffixesEndInCsv(k: int)
    requires 0 <= k < |KnownSuffixes|
    ensures EndsWith(KnownSuffixes[k], ".csv")
  {
    var s0, s1, s2 := KnownSuffixes[0], KnownSuffixes[1], KnownSuffixes[2];
    assert s0[|s0| - 4..] == ".csv";
    assert s1[|s1| - 4..] == ".csv";
    assert s2[|s2| - 4..] == ".csv";
  }

  /** Every name ending in a known suffix is a `.csv` name. */
  lemma KnownSuffixIsCsvName(name: string, k: int)
    requires 0 <= k < |KnownSuffixes| && EndsWith(name, KnownSuffixes[k])
    ensures EndsWithCsvIgnoringCase(name)
  {
    KnownSuffixesEndInCsv(k);
    EndsWithTransitive(name, KnownSuffixes[k], ".csv");
    LowerCsv(name[|name| - 4..]);
  }

  lemma LowerCsv(s: string)
    requires s == ".csv"
    ensures LowerAscii(s) == ".csv"
  {
    var r := LowerAscii(s);
    assert r[0] == '.' && r[1] == 'c' && r[2] == 's' && r[3] == 'v';
  }

  /** Lower-casing gives the lower-case letter `lower` exactly from that
      letter and its capital, and gives `.` only from `.`. */
  lemma LowerCharOnto(c: char, lower: char)
    requires 'a' <= lower <= 'z'
    ensures LowerChar(c) == lower <==> c == lower || c == (lower as int - 32) as char
    ensures LowerChar(c) == '.' <==> c == '.'
  {
  }

  /** The `.csv` test letter by letter: a dot, then c, s and v in either
      case. */
  lemma CsvExtensionLetters(name: string)
    ensures EndsWithCsvIgnoringCase(name) <==>
              && |name| >= 4
              && name[|name| - 4] == '.'
              && (name[|name| - 3] == 'c' || name[|name| - 3] == 'C')
              && (name[|name| - 2] == 's' || name[|name| - 2] == 'S')
              && (name[|name| - 1] == 'v' || name[|name| - 1] == 'V')
  {
    if |name| >= 4 {
      var n := |name|;
      var l := LowerAscii(name[n - 4..]);
      LowerCharOnto(name[n - 4], 'c');
      LowerCharOnto(name[n - 3], 'c');
      LowerCharOnto(name[n - 2], 's');
      LowerCharOnto(name[n - 1], 'v');
      assert l[0] == LowerChar(name[n - 4]) && l[1] == LowerChar(name[n - 3]);
      assert l[2] == LowerChar(name[n - 2]) && l[3] == LowerChar(name[n - 1]);
      if l[0] == '.' && l[1] == 'c' && l[2] == 's' && l[3] == 'v' {
        assert l == ".csv";
      }
    }
  }

  /** A name that is not a `.csv` name (in any letter case) is its own
      label; in particular labels that do not end in `.csv` are fixed
      points, which makes the extractor idempotent on them. */
  lemma ReasonFixedPoint(name: string)
    requires !EndsWithCsvIgnoringCase(name)
    ensures ReasonFromName(name) == name
  {
    forall k | 0 <= k < |KnownSuffixes|
      ensures !EndsWith(name, KnownSuffixes[k])
    {
      if EndsWith(name, KnownSuffixes[k]) {
        KnownSuffixIsCsvName(name, k);
      }
    }
  }

  lemma ReasonIdempotent(name: string)
    requires !EndsWithCsvIgnoringCase(ReasonFromName(name))
    ensures ReasonFromName(ReasonFromName(name)) == ReasonFromName(name)
  {
    ReasonFixedPoint(ReasonFromName(name));
  }

  /** Appending a known suffix to a label and extracting gives the label back. */
  lemma ReasonOfLabelledName(stem: string, k: int)
    requires 0 <= k < |KnownSuffixes|
    ensures ReasonFromName(stem + KnownSuffixes[k]) == stem
  {
    var name := stem + KnownSuffixes[k];
    assert name[|name| - |KnownSuffixes[k]|..] == KnownSuffixes[k];
  }

  // ---------------------------------------------------------------------
  // ISO week label -> Monday
  // ---------------------------------------------------------------------

  const WeekSeparator := "-S"

  /** `iso_week_to_date`: "YYYY-SWW" to the Monday of ISO week WW of ISO
      year YYYY. Anything that does not split into exactly two parts, or
      whose parts are not integers, or that names no such week, gives NaT. */
  function IsoWeekToDate(value: Cell): (r: Option<CivilDate>)
    ensures !value.Text? ==> r.None?
    ensures r.Some? <==>
              && value.Text?
              && var parts := Split(value.text, WeekSeparator);
              && |parts| == 2
              && IsDigits(parts[0]) && IsDigits(parts[1])
              && MinYear <= DigitsValue(parts[0]) <= MaxYear
              && 1 <= DigitsValue(parts[1]) <= IsoWeeksInYear(DigitsValue(parts[0]))
    ensures r.Some? ==>
              var parts := Split(value.text, WeekSeparator);
              IsoCalendar(r.value) == IsoWeekDate(DigitsValue(parts[0]), DigitsValue(parts[1]), 1)
  {
    if !value.Text? then None
    else
      var parts := Split(value.text, WeekSeparator);
      if |parts| != 2 then None
      else
        match (ParseNat(parts[0]), ParseNat(parts[1]))
        case (Some(year), Some(week)) =>
          MondayOfEveryWeek(year, week);
          FromIsoCalendar(year, week, 1)
        case _ => None
  }

  /** The label the source data uses for ISO week `week` of `year`:
      the year, "-S", and the week on at least two digits. */
  function WeekLabel(year: nat, week: nat): string {
    ShowNat(year) + WeekSeparator + (if week < 10 then "0" + ShowNat(week) else ShowNat(week))
  }

  lemma DigitsAvoidSeparator(s: string)
    requires IsDigits(s)
    ensures forall i :: 0 <= i < |s| ==> s[i] !in WeekSeparator
  {
    forall i | 0 <= i < |s| ensures s[i] !in WeekSeparator {
      assert IsDigit(s[i]);
    }
  }

  /** A week label splits at its separator into the year's digits and the
      week's digits, which read back as the year and the week. */
  lemma WeekLabelParts(year: nat, week: nat)
    ensures var parts := Split(WeekLabel(year, week), WeekSeparator);
            && |parts| == 2
            && IsDigits(parts[0]) && IsDigits(parts[1])
            && DigitsValue(parts[0]) == year && DigitsValue(parts[1]) == week
  {
    var y := ShowNat(year);
    var w := if week < 10 then "0" + ShowNat(week) else ShowNat(week);
    ParseShowNat(year);
    ParseShowNat(week);
    if week < 10 {
      LeadingZero(ShowNat(week));
    }
    assert IsDigits(w) && DigitsValue(w) == week;
    DigitsAvoidSeparator(y);
    DigitsAvoidSeparator(w);
    SplitAround(y, w, WeekSeparator);
  }

  /** Every week label of a week that exists reads back as that week's
      Monday: the result is a date whose ISO week date is (year, week, 1). */
  lemma WeekLabelRoundTrip(year: nat, week: nat)
    requires MinYear <= year <= MaxYear && 1 <= week <= IsoWeeksInYear(year)
    ensures IsoWeekToDate(Text(WeekLabel(year, week))).Some?
    ensures IsoCalendar(IsoWeekToDate(Text(WeekLabel(year, week))).value)
            == IsoWeekDate(year, week, 1)
  {
    WeekLabelParts(year, week);
  }

  // ---------------------------------------------------------------------
  // Column lookup by prefix
  // ---------------------------------------------------------------------

  predicate NoneWithPrefix(columns: seq<string>, prefix: string) {
    forall i :: 0 <= i < |columns| ==> !StartsWith(columns[i], prefix)
  }

  /** Column `i` is the first one whose name starts with `prefix`. */
  predicate FirstWithPrefix(columns: seq<string>, prefix: string, i: int) {
    && 0 <= i < |columns|
    && StartsWith(columns[i], prefix)
    && forall j :: 0 <= j < i ==> !StartsWith(columns[j], prefix)
  }

  /** `pick_first_column`: the first column, in order, whose name starts
      with `prefix`. */
  function PickFirstColumn(columns: seq<string>, prefix: string): (r: Option<string>)
    ensures r.None? <==> NoneWithPrefix(columns, prefix)
    ensures r.Some? ==> exists i :: FirstWithPrefix(columns, prefix, i) && columns[i] == r.value
    decreases |columns|
  {
    if |columns| == 0 then None
    else if StartsWith(columns[0], prefix) then Some(columns[0])
    else
      var r := PickFirstColumn(columns[1..], prefix);
      assert forall i :: 0 < i < |columns| ==> columns[1..][i - 1] == columns[i];
      if r.Some? then
        assert exists i :: FirstWithPrefix(columns, prefix, i) && columns[i] == r.value by {
          var i :| FirstWithPrefix(columns[1..], prefix, i) && columns[1..][i] == r.value;
          assert FirstWithPrefix(columns, prefix, i + 1);
        }
        r
      else
        r
  }

  // ---------------------------------------------------------------------
  // One file onto the canonical schema
  // ---------------------------------------------------------------------

  const FirstDayColumn := "1er jour de la semaine"
  const WeekColumn := "Semaine"
  const YearColumn := "Année"
  const RegionColumn := "Région"
  const AgeClassColumn := "Classe d'âge"
  const PassagesPrefix := "Taux de passages aux urgences pour "
  const HospitalisationPrefix := "Taux d'hospitalisations après passages aux urgences pour "
  const SosActsPrefix := "Taux d'actes médicaux SOS médecins pour "

  /** The fields of a row of the merged table, in output-column order. */
  datatype CanonicalRow = CanonicalRow(
    dateSemaine: Option<CivilDate>,
    region: Cell,
    classeAge: Cell,
    tauxPassagesUrgences: Cell,
    tauxHospitalisation: Cell,
    tauxActesSosMedecins: Cell,
    raison: string)

  const CanonicalColumns: seq<string> := [
    "date_semaine", "region", "classe_age", "taux_passages_urgences",
    "taux_hospitalisation", "taux_actes_sos_medecins", "raison"
  ]

  /** Where a file's `date_semaine` comes from. */
  datatype DateSource = FromFirstDay | FromWeekLabel | FromYear | NoDate

  /** First day of the week, else ISO week label, else year, else nothing. */
  function ChooseDateSource(columns: seq<string>): (src: DateSource)
    ensures src == FromFirstDay <==> FirstDayColumn in columns
    ensures src == FromWeekLabel <==> FirstDayColumn !in columns && WeekColumn in columns
    ensures src == FromYear <==>
              FirstDayColumn !in columns && WeekColumn !in columns && YearColumn in columns
    ensures src == NoDate <==>
              FirstDayColumn !in columns && WeekColumn !in columns && YearColumn !in columns
  {
    if FirstDayColumn in columns then FromFirstDay
    else if WeekColumn in columns then FromWeekLabel
    else if YearColumn in columns then FromYear
    else NoDate
  }

  /** `value.astype("Int64").astype(str)` for one year cell: the decimal
      integer, "<NA>" for a missing value, and `None` where the cast raises.
      A float casts when it is integral. A string casts through `int()`, so
      a string of decimal digits casts and any other text raises. A date
      never casts. */
  function YearText(value: Cell): (r: Option<string>)
    ensures value.Null? ==> r == Some("<NA>")
    ensures value.Int? ==> r.Some? && ParseNat(r.value) == (if value.i >= 0 then Some(value.i) else None)
    ensures value.Real? ==> (r.Some? <==> value.x.Floor as real == value.x)
    ensures value.Real? && r.Some? ==>
              ParseNat(r.value) == (if value.x >= 0.0 then Some(value.x.Floor) else None)
    ensures value.Text? ==> (r.Some? <==> IsDigits(value.text))
    ensures value.Text? && r.Some? ==> ParseNat(r.value) == ParseNat(value.text)
    ensures value.Day? ==> r.None?
  {
    match value
    case Null => Some("<NA>")
    case Int(i) => Some(IntText(i))
    case Real(x) => if x.Floor as real == x then Some(IntText(x.Floor)) else None
    case Text(s) =>
      if IsDigits(s) then
        var n := DigitsValue(s);
        ParseShowNat(n);
        Some(ShowNat(n))
      else None
    case Day(_) => None
  }

  /** `str` of an integer: its decimal digits read back as the integer when
      it is not negative, and do not read as a natural number when it is. */
  function IntText(i: int): (r: string)
    ensures ParseNat(r) == if i >= 0 then Some(i) else None
  {
    if i >= 0 then ParseShowNat(i); ShowInt(i)
    else assert !IsDigit(ShowInt(i)[0]); ShowInt(i)
  }

  /** A year gives the same text whether pandas read it as an integer, a
      float or a string of its digits. */
  lemma YearTextAgrees(n: nat)
    ensures YearText(Int(n)) == Some(ShowNat(n))
    ensures YearText(Real(n as real)) == Some(ShowNat(n))
    ensures YearText(Text(ShowNat(n))) == Some(ShowNat(n))
  {
    ParseShowNat(n);
    assert (n as real).Floor == n;
  }

  /** The year column can be cast to integers on every row. */
  predicate YearsCastable(t: Table) {
    forall i :: 0 <= i < |t.rows| ==> YearText(Get(t.rows[i], YearColumn)).Some?
  }

  /** The rate measure of `row` found by prefix search: missing when no
      column has the prefix, else the cell of the first column that has it. */
  function MeasureCell(columns: seq<string>, prefix: string, row: Record): (c: Cell)
    ensures NoneWithPrefix(columns, prefix) ==> c.Null?
    ensures forall i :: FirstWithPrefix(columns, prefix, i) ==> c == Get(row, columns[i])
  {
    match PickFirstColumn(columns, prefix)
    case None => Null
    case Some(name) =>
      forall i | FirstWithPrefix(columns, prefix, i)
        ensures name == columns[i]
      {
        var j :| FirstWithPrefix(columns, prefix, j) && columns[j] == name;
        FirstWithPrefixUnique(columns, prefix, i, j);
      }
      Get(row, name)
  }

  /** The `date_semaine` of one row, by the file's date source. */
  function RowDate(columns: seq<string>, row: Record, parse: DateParser): (d: Option<CivilDate>)
    requires ChooseDateSource(columns) == FromYear ==> YearText(Get(row, YearColumn)).Some?
    ensures FirstDayColumn in columns ==> d == parse(Get(row, FirstDayColumn))
    ensures FirstDayColumn !in columns && WeekColumn in columns ==>
              d == IsoWeekToDate(Get(row, WeekColumn))
    ensures FirstDayColumn !in columns && WeekColumn !in columns && YearColumn in columns ==>
              d == parse(Text(YearText(Get(row, YearColumn)).value + "-01-01"))
    ensures FirstDayColumn !in columns && WeekColumn !in columns && YearColumn !in columns ==>
              d.None?
  {
    match ChooseDateSource(columns)
    case FromFirstDay => parse(Get(row, FirstDayColumn))
    case FromWeekLabel => IsoWeekToDate(Get(row, WeekColumn))
    case FromYear => parse(Text(YearText(Get(row, YearColumn)).value + "-01-01"))
    case NoDate => None
  }

  /** A column copied under a new name, or missing when the file has none. */
  function CopyColumn(columns: seq<string>, column: string, row: Record): (c: Cell)
    ensures column in columns ==> c == Get(row, column)
    ensures column !in columns ==> c.Null?
  {
    if column in columns then Get(row, column) else Null
  }

  /** One row of a file with columns `columns` named `name`, mapped onto
      the canonical fields. */
  function NormalizeRow(name: string, columns: seq<string>, row: Record, parse: DateParser): (r: CanonicalRow)
    requires ChooseDateSource(columns) == FromYear ==> YearText(Get(row, YearColumn)).Some?
    ensures r.raison == ReasonFromName(name)
    ensures FirstDayColumn in columns ==> r.dateSemaine == parse(Get(row, FirstDayColumn))
    ensures FirstDayColumn !in columns && WeekColumn in columns ==>
              r.dateSemaine == IsoWeekToDate(Get(row, WeekColumn))
    ensures FirstDayColumn !in columns && WeekColumn !in columns && YearColumn in columns ==>
              r.dateSemaine == parse(Text(YearText(Get(row, YearColumn)).value + "-01-01"))
    ensures FirstDayColumn !in columns && WeekColumn !in columns && YearColumn !in columns ==>
              r.dateSemaine.None?
    ensures r.region == if RegionColumn in columns then Get(row, RegionColumn) else Null
    ensures r.classeAge == if AgeClassColumn in columns then Get(row, AgeClassColumn) else Null
    ensures NoneWithPrefix(columns, PassagesPrefix) ==> r.tauxPassagesUrgences.Null?
    ensures NoneWithPrefix(columns, HospitalisationPrefix) ==> r.tauxHospitalisation.Null?
    ensures NoneWithPrefix(columns, SosActsPrefix) ==> r.tauxActesSosMedecins.Null?
    ensures forall i :: FirstWithPrefix(columns, PassagesPrefix, i) ==>
              r.tauxPassagesUrgences == Get(row, columns[i])
    ensures forall i :: FirstWithPrefix(columns, HospitalisationPrefix, i) ==>
              r.tauxHospitalisation == Get(row, columns[i])
    ensures forall i :: FirstWithPrefix(columns, SosActsPrefix, i) ==>
              r.tauxActesSosMedecins == Get(row, columns[i])
  {
    CanonicalRow(
      RowDate(columns, row, parse),
      CopyColumn(columns, RegionColumn, row),
      CopyColumn(columns, AgeClassColumn, row),
      MeasureCell(columns, PassagesPrefix, row),
      MeasureCell(columns, HospitalisationPrefix, row),
      MeasureCell(columns, SosActsPrefix, row),
      ReasonFromName(name))
  }

  /** Only one column can be the first with a given prefix. */
  lemma FirstWithPrefixUnique(columns: seq<string>, prefix: string, i: int, j: int)
    requires FirstWithPrefix(columns, prefix, i) && FirstWithPrefix(columns, prefix, j)
    ensures i == j
  {
  }

  datatype MergeError = NoCsvFiles | YearNotInteger(file: string)

  /** One CSV file of the input directory: its base name and its contents. */
  datatype SourceFile = SourceFile(name: string, table: Table)

  /** The per-file frame of the loop body: one canonical row per source
      row, in order, or the failure of the year cast. */
  function NormalizeFile(f: SourceFile, parse: DateParser): (r: Result<seq<CanonicalRow>, MergeError>)
    ensures r.Failure? <==> ChooseDateSource(f.table.columns) == FromYear && !YearsCastable(f.table)
    ensures r.Failure? ==> r.error == YearNotInteger(f.name)
    ensures r.Success? ==> |r.value| == |f.table.rows|
    ensures r.Success? ==> forall i :: 0 <= i < |r.value| ==> r.value[i].raison == ReasonFromName(f.name)
    ensures r.Success? ==>
              forall i {:trigger NormalizeRow(f.name, f.table.columns, f.table.rows[i], parse)} ::
                0 <= i < |r.value| ==> r.value[i] == NormalizeRow(f.name, f.table.columns, f.table.rows[i], parse)
  {
    var t := f.table;
    if ChooseDateSource(t.columns) == FromYear && !YearsCastable(t) then
      Failure(YearNotInteger(f.name))
    else
      Success(seq(|t.rows|, i requires 0 <= i < |t.rows| => NormalizeRow(f.name, t.columns, t.rows[i], parse)))
  }

  function RowCount(f: SourceFile): nat {
    |f.table.rows|
  }

  /** The frames of `files`, in the given order, concatenated; the first
      failing file aborts the run. */
  function NormalizeAll(files: seq<SourceFile>, parse: DateParser): (r: Result<seq<CanonicalRow>, MergeError>)
    ensures r.Failure? <==> exists i :: 0 <= i < |files| && NormalizeFile(files[i], parse).Failure?
    ensures r.Failure? ==> r.error.YearNotInteger?
    ensures r.Success? ==> |r.value| == Sorting.SumBy(files, RowCount)
    decreases |files|
  {
    if |files| == 0 then Success([])
    else
      assert forall i :: 0 < i < |files| ==> files[1..][i - 1] == files[i];
      match NormalizeFile(files[0], parse)
      case Failure(e) => Failure(e)
      case Success(head) =>
        match NormalizeAll(files[1..], parse)
        case Failure(e) => Failure(e)
        case Success(tail) => Success(head + tail)
  }

  function SortByName(files: seq<SourceFile>): seq<SourceFile> {
    Sorting.SortBy(files, (f: SourceFile) => f.name)
  }

  /** The whole of stage A: no file is fatal; otherwise the per-file frames
      concatenated in sorted file-name order. */
  function Merge(files: seq<SourceFile>, parse: DateParser): (r: Result<seq<CanonicalRow>, MergeError>)
    ensures r == Failure(NoCsvFiles) <==> |files| == 0
    ensures r.Failure? <==>
              |files| == 0 || exists i :: 0 <= i < |files| && NormalizeFile(files[i], parse).Failure?
    ensures r.Success? ==> |r.value| == Sorting.SumBy(files, RowCount)
  {
    if |files| == 0 then Failure(NoCsvFiles)
    else
      var sorted := SortByName(files);
      Sorting.SumSort(files, (f: SourceFile) => f.name, RowCount);
      SameFailures(files, sorted, parse);
      NormalizeAll(sorted, parse)
  }

  /** Reordering the files does not change whether one of them fails. */
  lemma SameFailures(files: seq<SourceFile>, sorted: seq<SourceFile>, parse: DateParser)
    requires multiset(files) == multiset(sorted)
    ensures (exists i :: 0 <= i < |files| && NormalizeFile(files[i], parse).Failure?) <==>
            (exists i :: 0 <= i < |sorted| && NormalizeFile(sorted[i], parse).Failure?)
  {
    if exists i :: 0 <= i < |files| && NormalizeFile(files[i], parse).Failure? {
      var i :| 0 <= i < |files| && NormalizeFile(files[i], parse).Failure?;
      assert files[i] in multiset(sorted);
      var j :| 0 <= j < |sorted| && sorted[j] == files[i];
    }
    if exists i :: 0 <= i < |sorted| && NormalizeFile(sorted[i], parse).Failure? {
      var i :| 0 <= i < |sorted| && NormalizeFile(sorted[i], parse).Failure?;
      assert sorted[i] in multiset(files);
      var j :| 0 <= j < |files| && files[j] == sorted[i];
    }
  }

  /** Rows of the files before file `k`. */
  function RowsBefore(files: seq<SourceFile>, k: nat): nat
    requires k <= |files|
  {
    Sorting.SumBy(files[..k], RowCount)
  }

  lemma RowsBeforeStep(files: seq<SourceFile>, k: nat)
    requires 0 < k <= |files|
    ensures RowsBefore(files, k) == RowCount(files[0]) + RowsBefore(files[1..], k - 1)
  {
    assert files[..k][0] == files[0];
    assert files[..k][1..] == files[1..][..k - 1];
  }

  /** A block of `tail` is the same block of head + tail, shifted by |head|. */
  lemma ShiftedBlock<T>(head: seq<T>, tail: seq<T>, start: nat, len: nat, block: seq<T>)
    requires start + len <= |tail| && tail[start..start + len] == block
    ensures |head| + start + len <= |head + tail|
    ensures (head + tail)[|head| + start..|head| + start + len] == block
  {
    assert (head + tail)[|head| + start..|head| + start + len] == tail[start..start + len];
  }

  /** head is the first block of head + tail. */
  lemma HeadBlock<T>(head: seq<T>, tail: seq<T>)
    ensures (head + tail)[0..|head|] == head
  {
  }

  /** A successful run is the first file's frame followed by the rest. */
  lemma NormalizeAllCons(files: seq<SourceFile>, parse: DateParser)
    requires NormalizeAll(files, parse).Success? && |files| > 0
    ensures NormalizeFile(files[0], parse).Success?
    ensures NormalizeAll(files[1..], parse).Success?
    ensures NormalizeAll(files, parse).value
            == NormalizeFile(files[0], parse).value + NormalizeAll(files[1..], parse).value
  {
  }

  /** The merged rows are the files' frames laid end to end: file `k`'s
      frame sits right after the rows of files 0 .. k-1, in file order. */
  lemma {:induction false} NormalizeAllBlocks(files: seq<SourceFile>, parse: DateParser, k: nat)
    requires NormalizeAll(files, parse).Success?
    requires k < |files|
    ensures NormalizeFile(files[k], parse).Success?
    ensures var rows := NormalizeAll(files, parse).value;
            var start := RowsBefore(files, k);
            && start + RowCount(files[k]) <= |rows|
            && rows[start..start + RowCount(files[k])] == NormalizeFile(files[k], parse).value
    decreases k
  {
    NormalizeAllCons(files, parse);
    var head := NormalizeFile(files[0], parse).value;
    var tail := NormalizeAll(files[1..], parse).value;
    if k == 0 {
      assert files[..0] == [];
      HeadBlock(head, tail);
    } else {
      var rest := files[1..];
      assert rest[k - 1] == files[k];
      NormalizeAllBlocks(rest, parse, k - 1);
      RowsBeforeStep(files, k);
      ShiftedBlock(head, tail, RowsBefore(rest, k - 1), RowCount(files[k]), NormalizeFile(files[k], parse).value);
    }
  }

  /** Stage A lays the files out in sorted-name order: the merged table is
      the frame of the first name, then the frame of the next name, and so
      on. */
  lemma MergeInSortedOrder(files: seq<SourceFile>, parse: DateParser, k: nat)
    requires Merge(files, parse).Success?
    requires k < |files|
    ensures var sorted := SortByName(files);
            var rows := Merge(files, parse).value;
            var start := RowsBefore(sorted, k);
            && Sorting.SortedBy(sorted, (f: SourceFile) => f.name)
            && multiset(sorted) == multiset(files)
            && start + RowCount(sorted[k]) <= |rows|
            && rows[start..start + RowCount(sorted[k])] == NormalizeFile(sorted[k], parse).value
  {
    NormalizeAllBlocks(SortByName(files), parse, k);
  }
}
