/** An in-memory data frame: named columns in order, and rows keyed by
    column name. A cell is a pandas scalar: missing (NaN / NA / NaT), a
    string, an integer, a float or a date. */
module Tables {
  import opened Wrappers
  import opened Calendar

  datatype Cell =
    | Null
    | Text(text: string)
    | Int(i: int)
    | Real(x: real)
    | Day(date: CivilDate)

  type Record = map<string, Cell>

  datatype Table = Table(columns: seq<string>, rows: seq<Record>)

  /** The cell of `row` in `column`; missing when the row has no such key. */
  function Get(row: Record, column: string): Cell {
    if column in row then row[column] else Null
  }

  /** Every row has exactly the table's columns as keys. */
  ghost predicate WellFormed(t: Table) {
    forall i :: 0 <= i < |t.rows| ==> t.rows[i].Keys == set c | c in t.columns
  }

  /** `pd.to_datetime(value, errors="coerce")` on one value: pandas' free-text
      date parser, left opaque. `None` is NaT. */
  type DateParser = Cell -> Option<CivilDate>
}
