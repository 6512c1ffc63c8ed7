/**
 * `parse_sheet`: turns one raw spreadsheet grid and a station label into hourly readings
 * (one per data row and hour column) and, in the newer variant, day/night level pairs.
 */
module Sheet {
  import opened Wrappers
  import opened Strings
  import opened Ordering

  /** A loosely typed spreadsheet cell. */
  datatype Cell = Blank | Num(x: real) | Text(s: string) | Date(day: int)

  /**
   * The pandas conversions the parser relies on, taken as given partial functions:
   * `show` is `str(cell)` (`astype(str)`); `toDate` is `pd.to_datetime(errors="coerce")`
   * followed by `.dt.date`, as a day number; `labelHour` is `int(round(float(str(c).strip())))`,
   * None where that raises; `toNumber` is `pd.to_numeric(errors="coerce").round(2)`, None
   * where the result is missing.
   */
  datatype Coercion = Coercion(
    show: Cell -> string,
    toDate: Cell -> Option<int>,
    labelHour: Cell -> Option<int>,
    toNumber: string -> Option<real>)

  /** Rows of cells as read with `header=None`; a short row reads as blank on the right. */
  type Grid = seq<seq<Cell>>

  datatype HourRecord = HourRecord(station: string, day: int, hour: int, level: real)
  datatype DayNightRecord = DayNightRecord(station: string, date: Cell, laeqDay: real, laeqNight: real)
  datatype HourColumn = HourColumn(index: nat, hour: int)
  /** A data row whose date cell parsed, with the parsed date. */
  datatype DataRow = DataRow(cells: seq<Cell>, day: int)
  datatype Parsed = Parsed(hourly: seq<HourRecord>, hours: seq<int>, dayNight: seq<DayNightRecord>)

  const HeaderMarker := "측정일"
  const HeaderScanRows := 30
  const DateLabel := Text("date")
  const DayLabels := ["낮", "day", "Day", "DAY"]
  const NightLabels := ["밤", "night", "Night", "NIGHT"]

  /** The number of columns of the frame: the longest row. */
  function Width(g: Grid): (w: nat)
    ensures forall i :: 0 <= i < |g| ==> |g[i]| <= w
    ensures |g| == 0 ==> w == 0
    ensures |g| > 0 ==> exists i :: 0 <= i < |g| && |g[i]| == w
  {
    if |g| == 0 then 0
    else
      var init := g[..|g| - 1];
      var w := Width(init);
      assert forall i :: 0 <= i < |g| - 1 ==> g[i] == init[i];
      if |g[|g| - 1]| > w then
        assert |g[|g| - 1]| == |g[|g| - 1]|;
        |g[|g| - 1]|
      else if |init| == 0 then
        assert |g[0]| == 0;
        w
      else
        var i :| 0 <= i < |init| && |init[i]| == w;
        assert g[i] == init[i];
        w
  }

  function CellAt(row: seq<Cell>, j: nat): Cell {
    if j < |row| then row[j] else Blank
  }

  /** The `w` cells of a row, padded with blanks. */
  function RowCells(row: seq<Cell>, w: nat): (r: seq<Cell>)
    ensures |r| == w && forall j :: 0 <= j < w ==> r[j] == CellAt(row, j)
  {
    seq(w, j requires 0 <= j < w => CellAt(row, j))
  }

  /** `" ".join(row.astype(str))`. */
  function RowText(row: seq<Cell>, w: nat, show: Cell -> string): string {
    Join(seq(w, j requires 0 <= j < w => show(CellAt(row, j))), " ")
  }

  predicate IsHeaderRow(row: seq<Cell>, w: nat, show: Cell -> string) {
    Contains(RowText(row, w, show), HeaderMarker)
  }

  /** The marker has no space, so it is in the joined row text exactly when one cell's text holds it. */
  lemma HeaderRowHasMarkerCell(row: seq<Cell>, w: nat, show: Cell -> string)
    ensures IsHeaderRow(row, w, show) <==> exists j :: 0 <= j < w && Contains(show(CellAt(row, j)), HeaderMarker)
  {
    var parts := seq(w, j requires 0 <= j < w => show(CellAt(row, j)));
    ContainsInJoin(parts, HeaderMarker);
    assert forall j :: 0 <= j < w ==> parts[j] == show(CellAt(row, j));
  }

  /** `min(30, len(df))`. */
  function ScanLimit(g: Grid): nat {
    if |g| < HeaderScanRows then |g| else HeaderScanRows
  }

  /** The first header row at or after `i` among the scanned rows. */
  function HeaderRowFrom(g: Grid, show: Cell -> string, i: nat): (r: Option<nat>)
    requires i <= ScanLimit(g)
    ensures r.Some? ==> i <= r.value < ScanLimit(g) && IsHeaderRow(g[r.value], Width(g), show)
    ensures r.Some? ==> forall k :: i <= k < r.value ==> !IsHeaderRow(g[k], Width(g), show)
    ensures r.None? ==> forall k :: i <= k < ScanLimit(g) ==> !IsHeaderRow(g[k], Width(g), show)
    decreases ScanLimit(g) - i
  {
    if i == ScanLimit(g) then None
    else if IsHeaderRow(g[i], Width(g), show) then Some(i)
    else HeaderRowFrom(g, show, i + 1)
  }

  /** The index of the header row, if one of the first 30 rows holds the marker. */
  function HeaderRow(g: Grid, show: Cell -> string): Option<nat> {
    HeaderRowFrom(g, show, 0)
  }

  /** The header-row scan of step 1, a loop that stops at the first match. */
  method FindHeaderRow(g: Grid, show: Cell -> string) returns (hr: Option<nat>)
    ensures hr == HeaderRow(g, show)
    ensures hr.Some? ==> hr.value < |g| && hr.value < HeaderScanRows
  {
    var n := if |g| < HeaderScanRows then |g| else HeaderScanRows;
    var w := Width(g);
    hr := None;
    var i := 0;
    while i < n
      invariant 0 <= i <= n && n == ScanLimit(g)
      invariant HeaderRowFrom(g, show, i) == HeaderRow(g, show)
    {
      if IsHeaderRow(g[i], w, show) {
        hr := Some(i);
        break;
      }
      i := i + 1;
    }
  }

  /** A text label that names the date column: it contains "측정" or "시간". */
  predicate IsDateLabel(c: Cell) {
    c.Text? && (Contains(c.s, "측정") || Contains(c.s, "시간"))
  }

  /** The first date-like label, else the first column. */
  function DateColumn(labels: seq<Cell>): (j: nat)
    ensures j < |labels| && IsDateLabel(labels[j]) ==> forall k :: 0 <= k < j ==> !IsDateLabel(labels[k])
    ensures !(j < |labels| && IsDateLabel(labels[j])) ==> j == 0 && forall k :: 0 <= k < |labels| ==> !IsDateLabel(labels[k])
  {
    if |labels| == 0 then 0
    else if IsDateLabel(labels[0]) then 0
    else
      var j := DateColumn(labels[1..]);
      if j < |labels| - 1 && IsDateLabel(labels[1..][j]) then j + 1
      else
        assert forall k :: 1 <= k < |labels| ==> labels[k] == labels[1..][k - 1];
        0
  }

  /** Step 4: the rows whose date cell parses, each with its date; the others are dropped. */
  function KeptRows(rows: seq<seq<Cell>>, dc: nat, toDate: Cell -> Option<int>): (kept: seq<DataRow>)
    ensures |kept| <= |rows|
  {
    if |rows| == 0 then []
    else
      var rest := KeptRows(rows[1..], dc, toDate);
      match toDate(CellAt(rows[0], dc))
      case Some(d) => [DataRow(rows[0], d)] + rest
      case None => rest
  }

  /** The hour a header label stands for, when that column is an hour column. */
  function AcceptedHour(labels: seq<Cell>, dc: nat, labelHour: Cell -> Option<int>, j: nat): Option<int>
    requires j < |labels|
  {
    if labels[j] == CellAt(labels, dc) || labels[j] == DateLabel then None
    else match labelHour(labels[j])
      case Some(h) => if 1 <= h <= 24 then Some(h) else None
      case None => None
  }

  /** The hour columns among the first `n` labels, left to right. */
  function HourColumnsUpTo(labels: seq<Cell>, dc: nat, labelHour: Cell -> Option<int>, n: nat): (cols: seq<HourColumn>)
    requires n <= |labels|
    ensures forall k :: 0 <= k < |cols| ==>
      cols[k].index < n && AcceptedHour(labels, dc, labelHour, cols[k].index) == Some(cols[k].hour)
    ensures forall j :: 0 <= j < n && AcceptedHour(labels, dc, labelHour, j).Some? ==>
      HourColumn(j, AcceptedHour(labels, dc, labelHour, j).value) in cols
    ensures forall k, l :: 0 <= k < l < |cols| ==> cols[k].index < cols[l].index
  {
    if n == 0 then []
    else
      var cols := HourColumnsUpTo(labels, dc, labelHour, n - 1);
      match AcceptedHour(labels, dc, labelHour, n - 1)
      case Some(h) => cols + [HourColumn(n - 1, h)]
      case None => cols
  }

  function HourColumns(labels: seq<Cell>, dc: nat, labelHour: Cell -> Option<int>): seq<HourColumn> {
    HourColumnsUpTo(labels, dc, labelHour, |labels|)
  }

  /** Step 5, the loop that appends to `hour_cols` and `hours`. */
  method CollectHourColumns(labels: seq<Cell>, dc: nat, labelHour: Cell -> Option<int>) returns (cols: seq<HourColumn>)
    ensures cols == HourColumns(labels, dc, labelHour)
  {
    cols := [];
    for j := 0 to |labels|
      invariant cols == HourColumnsUpTo(labels, dc, labelHour, j)
    {
      if labels[j] != CellAt(labels, dc) && labels[j] != DateLabel {
        match labelHour(labels[j]) {
          case Some(h) =>
            if 1 <= h <= 24 {
              cols := cols + [HourColumn(j, h)];
            }
          case None =>
        }
      }
    }
  }

  /** `sorted(set(hours))`. */
  function Hours(cols: seq<HourColumn>): (hours: seq<int>)
    ensures StrictlySorted(hours, IntLess)
    ensures forall h :: h in hours <==> exists k :: 0 <= k < |cols| && cols[k].hour == h
  {
    IntLessIsStrictTotal();
    var hs := seq(|cols|, k requires 0 <= k < |cols| => cols[k].hour);
    assert forall k :: 0 <= k < |cols| ==> hs[k] == cols[k].hour;
    assert forall h :: h in hs <==> exists k :: 0 <= k < |cols| && cols[k].hour == h;
    SortedUnique(hs, IntLess)
  }

  /** A level cell: `pd.to_numeric(str(cell).replace(",", "."), errors="coerce").round(2)`. */
  function Level(cell: Cell, co: Coercion): Option<real> {
    co.toNumber(ReplaceChar(co.show(cell), ',', '.'))
  }

  /** The record of one (row, hour column) pair, or None when the cell has no level (`dropna`). */
  function MeltCell(station: string, row: DataRow, col: HourColumn, co: Coercion): Option<HourRecord> {
    match Level(CellAt(row.cells, col.index), co)
    case Some(v) => Some(HourRecord(station, row.day, col.hour, v))
    case None => None
  }

  /** The melted records of one hour column, row by row. */
  function MeltColumn(station: string, kept: seq<DataRow>, col: HourColumn, co: Coercion): (r: seq<HourRecord>)
    ensures |r| <= |kept|
  {
    if |kept| == 0 then []
    else
      var rest := MeltColumn(station, kept[1..], col, co);
      match MeltCell(station, kept[0], col, co)
      case Some(rec) => [rec] + rest
      case None => rest
  }

  /** `df.melt(id_vars=["date"], value_vars=hour_cols)` followed by `dropna`: column after column. */
  function Melt(station: string, kept: seq<DataRow>, cols: seq<HourColumn>, co: Coercion): seq<HourRecord> {
    if |cols| == 0 then []
    else Melt(station, kept, cols[..|cols| - 1], co) + MeltColumn(station, kept, cols[|cols| - 1], co)
  }

  /** Column `j` is the first column labelled `names[k]`, and no earlier name is a label at all. */
  predicate FirstOfNames(labels: seq<Cell>, names: seq<string>, k: nat, j: nat) {
    && k < |names| && j < |labels| && labels[j] == Text(names[k])
    && (forall l :: 0 <= l < k ==> Text(names[l]) !in labels)
    && Text(names[k]) !in labels[..j]
  }

  /** `next((c for c in names if c in df.columns), None)`, located as a column. */
  function FirstLabelled(labels: seq<Cell>, names: seq<string>): (r: Option<nat>)
    ensures r.Some? ==> exists k :: FirstOfNames(labels, names, k, r.value)
    ensures r.None? ==> forall k :: 0 <= k < |names| ==> Text(names[k]) !in labels
  {
    if |names| == 0 then None
    else match IndexOf(labels, Text(names[0]))
      case Some(j) =>
        assert FirstOfNames(labels, names, 0, j);
        Some(j)
      case None =>
        var r := FirstLabelled(labels, names[1..]);
        assert forall k :: 1 <= k < |names| ==> names[k] == names[1..][k - 1];
        if r.Some? then
          var k: nat :| FirstOfNames(labels, names[1..], k, r.value);
          assert FirstOfNames(labels, names, k + 1, r.value);
          r
        else r
  }

  /**
   * The date of a day/night record: `rename(columns={date_col: "date"})` keeps the raw date
   * cell, except when the date column is itself labelled "date", which step 4 overwrote
   * with the parsed date.
   */
  function DayNightDate(labels: seq<Cell>, dc: nat, row: DataRow): Cell {
    if CellAt(labels, dc) == DateLabel then Date(row.day) else CellAt(row.cells, dc)
  }

  /** One record per kept row whose day and night cells both have a level. */
  function DayNightRows(station: string, kept: seq<DataRow>, labels: seq<Cell>, dc: nat, dayCol: nat, nightCol: nat, co: Coercion): (r: seq<DayNightRecord>)
    ensures |r| <= |kept|
  {
    if |kept| == 0 then []
    else
      var rest := DayNightRows(station, kept[1..], labels, dc, dayCol, nightCol, co);
      match (Level(CellAt(kept[0].cells, dayCol), co), Level(CellAt(kept[0].cells, nightCol), co))
      case (Some(d), Some(n)) => [DayNightRecord(station, DayNightDate(labels, dc, kept[0]), d, n)] + rest
      case _ => rest
  }

  /** Step 6: day/night pairs, only when both a day label and a night label are present. */
  function DayNight(station: string, kept: seq<DataRow>, labels: seq<Cell>, dc: nat, co: Coercion): seq<DayNightRecord> {
    match (FirstLabelled(labels, DayLabels), FirstLabelled(labels, NightLabels))
    case (Some(dayCol), Some(nightCol)) => DayNightRows(station, kept, labels, dc, dayCol, nightCol, co)
    case _ => []
  }

  /** What `parse_sheet` of app/main_file.py returns for a grid and a station label. */
  function ParseSheetSpec(g: Grid, station: string, co: Coercion): Parsed {
    match HeaderRow(g, co.show)
    case None => Parsed([], [], [])
    case Some(hr) =>
      var labels := RowCells(g[hr], Width(g));
      var dc := DateColumn(labels);
      var kept := KeptRows(g[hr + 1..], dc, co.toDate);
      var cols := HourColumns(labels, dc, co.labelHour);
      Parsed(Melt(station, kept, cols, co), Hours(cols), DayNight(station, kept, labels, dc, co))
  }

  /** What `parse_sheet` of app/main.py returns: no day/night part, and nothing without hour columns. */
  function ParseSheetV1Spec(g: Grid, station: string, co: Coercion): (seq<HourRecord>, seq<int>) {
    match HeaderRow(g, co.show)
    case None => ([], [])
    case Some(hr) =>
      var labels := RowCells(g[hr], Width(g));
      var dc := DateColumn(labels);
      var cols := HourColumns(labels, dc, co.labelHour);
      if |cols| == 0 then ([], [])
      else
        var kept := KeptRows(g[hr + 1..], dc, co.toDate);
        (Melt(station, kept, cols, co), Hours(cols))
  }

  /** `parse_sheet` of app/main_file.py. */
  method ParseSheet(g: Grid, station: string, co: Coercion) returns (p: Parsed)
    ensures p == ParseSheetSpec(g, station, co)
  {
    var hr := FindHeaderRow(g, co.show);
    match hr {
      case None =>
        p := Parsed([], [], []);
      case Some(h) =>
        var labels := RowCells(g[h], Width(g));
        var dc := DateColumn(labels);
        var kept := KeptRows(g[h + 1..], dc, co.toDate);
        var cols := CollectHourColumns(labels, dc, co.labelHour);
        var hours := Hours(cols);
        var hourly: seq<HourRecord> := [];
        if |cols| > 0 {
          hourly := Melt(station, kept, cols, co);
        }
        assert hourly == Melt(station, kept, cols, co);
        p := Parsed(hourly, hours, DayNight(station, kept, labels, dc, co));
    }
  }

  /** `parse_sheet` of app/main.py. */
  method ParseSheetV1(g: Grid, station: string, co: Coercion) returns (hourly: seq<HourRecord>, hours: seq<int>)
    ensures (hourly, hours) == ParseSheetV1Spec(g, station, co)
  {
    var hr := FindHeaderRow(g, co.show);
    if hr.None? {
      return [], [];
    }
    var labels := RowCells(g[hr.value], Width(g));
    var dc := DateColumn(labels);
    var kept := KeptRows(g[hr.value + 1..], dc, co.toDate);
    var cols := CollectHourColumns(labels, dc, co.labelHour);
    hours := Hours(cols);
    if |cols| == 0 {
      return [], [];
    }
    hourly := Melt(station, kept, cols, co);
  }
}
