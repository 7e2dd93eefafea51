/**
 * The spreadsheet export: a header row and one row per leaderboard entry,
 * in the order the entries were fetched. The workbook file format is not
 * modelled; a sheet is its header and its rows of cells.
 */
module Report {
  import opened Wrappers
  import opened Api
  import opened TimeFormat

  /**
   * The two column sets of the export: `Rank, Username, Score, Time Taken`
   * (app.py) or `Rank, Username, Score` (leader2.py).
   */
  datatype Layout = WithTime | WithoutTime

  /** A spreadsheet cell. */
  datatype Cell = IntCell(i: int) | TextCell(text: string) | NumberCell(x: Score)

  /** A sheet: the column titles and the data rows. */
  datatype Sheet = Sheet(header: seq<string>, rows: seq<seq<Cell>>)

  /** The failure of the export step: pandas cannot find the named columns. */
  datatype ExportError = MissingColumns(keys: seq<string>)

  /** The column titles of a layout. */
  function Titles(layout: Layout): seq<string> {
    match layout
    case WithTime => ["Rank", "Username", "Score", "Time Taken"]
    case WithoutTime => ["Rank", "Username", "Score"]
  }

  /** Every entry carries the fields the layout exports. */
  predicate HasTimes(entries: seq<Entry>, layout: Layout) {
    layout.WithTime? ==> forall i :: 0 <= i < |entries| ==> entries[i].timeTaken.Some?
  }

  /** The row written for one entry; the time column shows the formatted duration. */
  function RowOf(e: Entry, layout: Layout): seq<Cell>
    requires layout.WithTime? ==> e.timeTaken.Some?
  {
    [IntCell(e.rank), TextCell(e.hacker), NumberCell(e.score)]
      + (if layout.WithTime? then [TextCell(FormatTime(e.timeTaken.value))] else [])
  }

  function Rows(entries: seq<Entry>, layout: Layout): seq<seq<Cell>>
    requires HasTimes(entries, layout)
  {
    if |entries| == 0 then [] else [RowOf(entries[0], layout)] + Rows(entries[1..], layout)
  }

  /**
   * The sheet written for a leaderboard: the layout's titles and one row
   * per entry, each as wide as the header.
   */
  function BuildSheet(entries: seq<Entry>, layout: Layout): (sheet: Sheet)
    requires HasTimes(entries, layout)
    ensures sheet.header == Titles(layout)
    ensures |sheet.rows| == |entries|
    ensures forall i :: 0 <= i < |sheet.rows| ==> |sheet.rows[i]| == |sheet.header|
  {
    RowsShape(entries, layout);
    Sheet(Titles(layout), Rows(entries, layout))
  }

  lemma {:induction false} RowsShape(entries: seq<Entry>, layout: Layout)
    requires HasTimes(entries, layout)
    ensures |Rows(entries, layout)| == |entries|
    ensures forall i :: 0 <= i < |entries| ==> Rows(entries, layout)[i] == RowOf(entries[i], layout)
    decreases |entries|
  {
    if |entries| > 0 {
      RowsShape(entries[1..], layout);
    }
  }

  /**
   * `save_to_excel` as the code stands: the column selection fails on an
   * empty leaderboard, because a DataFrame built from an empty list has no
   * columns at all.
   */
  function SaveToExcelAsWritten(entries: seq<Entry>, layout: Layout): (r: Result<Sheet, ExportError>)
    requires HasTimes(entries, layout)
    ensures r.Failure? <==> |entries| == 0
    ensures r.Success? ==> r.value == BuildSheet(entries, layout)
  {
    if |entries| == 0 then
      match layout
      case WithTime => Failure(MissingColumns(["time_taken"]))
      case WithoutTime => Failure(MissingColumns(["rank", "hacker", "score"]))
    else Success(BuildSheet(entries, layout))
  }

  /** A contest with no entries makes the export as written fail instead of writing a header-only sheet. */
  lemma EmptyLeaderboardExportFails(layout: Layout)
    ensures SaveToExcelAsWritten([], layout).Failure?
    ensures BuildSheet([], layout) == Sheet(Titles(layout), [])
  {
  }

  // ---------------------------------------------------------------------
  // Reading a sheet back
  // ---------------------------------------------------------------------

  /** What a layout keeps of an entry: everything, or everything but the time. */
  function Project(e: Entry, layout: Layout): Entry {
    if layout.WithTime? then e else e.(timeTaken := None)
  }

  function ProjectAll(entries: seq<Entry>, layout: Layout): (p: seq<Entry>)
    ensures |p| == |entries|
    ensures forall i :: 0 <= i < |entries| ==> p[i] == Project(entries[i], layout)
  {
    if |entries| == 0 then [] else [Project(entries[0], layout)] + ProjectAll(entries[1..], layout)
  }

  /** Reads one data row back into an entry, the time cell through the time parser. */
  function ReadRow(row: seq<Cell>, layout: Layout): Option<Entry> {
    if |row| != |Titles(layout)| || !row[0].IntCell? || !row[1].TextCell? || !row[2].NumberCell? then None
    else if layout.WithoutTime? then Some(Entry(row[0].i, row[1].text, row[2].x, None))
    else if !row[3].TextCell? then None
    else match ParseTime(row[3].text)
      case None => None
      case Some(seconds) => Some(Entry(row[0].i, row[1].text, row[2].x, Some(seconds)))
  }

  function ReadRows(rows: seq<seq<Cell>>, layout: Layout): Option<seq<Entry>> {
    if |rows| == 0 then Some([])
    else match (ReadRow(rows[0], layout), ReadRows(rows[1..], layout))
      case (Some(e), Some(es)) => Some([e] + es)
      case _ => None
  }

  /** Reads a sheet of the given layout back into entries. */
  function ReadSheet(sheet: Sheet, layout: Layout): Option<seq<Entry>> {
    if sheet.header != Titles(layout) then None else ReadRows(sheet.rows, layout)
  }

  lemma ReadRowOf(e: Entry, layout: Layout)
    requires layout.WithTime? ==> e.timeTaken.Some?
    ensures ReadRow(RowOf(e, layout), layout) == Some(Project(e, layout))
  {
    if layout.WithTime? {
      FormatTimeRoundTrip(e.timeTaken.value);
    }
  }

  lemma {:induction false} ReadRowsOf(entries: seq<Entry>, layout: Layout)
    requires HasTimes(entries, layout)
    ensures ReadRows(Rows(entries, layout), layout) == Some(ProjectAll(entries, layout))
    decreases |entries|
  {
    if |entries| > 0 {
      ReadRowOf(entries[0], layout);
      ReadRowsOf(entries[1..], layout);
      assert Rows(entries, layout)[1..] == Rows(entries[1..], layout);
    }
  }

  /**
   * Round trip: reading the exported sheet back gives the entries in their
   * original order, each with every field its layout exports (the time
   * through its display form).
   */
  lemma ExportRoundTrip(entries: seq<Entry>, layout: Layout)
    requires HasTimes(entries, layout)
    ensures ReadSheet(BuildSheet(entries, layout), layout) == Some(ProjectAll(entries, layout))
    ensures layout.WithTime? ==> ReadSheet(BuildSheet(entries, layout), layout) == Some(entries)
  {
    ReadRowsOf(entries, layout);
    if layout.WithTime? {
      assert ProjectAll(entries, layout) == entries;
    }
  }

  /** The rows of the written sheet, header first. */
  function Table(sheet: Sheet): seq<seq<Cell>> {
    [seq(|sheet.header|, i requires 0 <= i < |sheet.header| => TextCell(sheet.header[i]))] + sheet.rows
  }

  /** An export of N entries holds N data rows plus the header row. */
  lemma ExportRowCount(entries: seq<Entry>, layout: Layout)
    requires HasTimes(entries, layout)
    ensures |Table(BuildSheet(entries, layout))| == |entries| + 1
    ensures |Table(BuildSheet(entries, layout))[0]| == |Titles(layout)|
  {
  }

  /** The time of an entry with 0 in place of a missing one. */
  function DefaultTime(e: Entry): (d: Entry)
    ensures d.timeTaken == Some(TimeOrZero(e))
    ensures d.(timeTaken := e.timeTaken) == e
  {
    e.(timeTaken := Some(TimeOrZero(e)))
  }

  /** Every entry with its missing time replaced by 0, as the app's export handler does first. */
  function DefaultTimes(entries: seq<Entry>): (d: seq<Entry>)
    ensures |d| == |entries| && HasTimes(d, WithTime)
    ensures forall i :: 0 <= i < |d| ==> d[i] == DefaultTime(entries[i])
  {
    if |entries| == 0 then [] else [DefaultTime(entries[0])] + DefaultTimes(entries[1..])
  }
}
