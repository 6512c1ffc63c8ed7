/** What `parse_sheet` promises about its output, proved of the model in module Sheet. */
module SheetProperties {
  import opened Wrappers
  import opened Strings
  import opened Ordering
  import opened Sheet
  import opened FilterMaps

  /** The header labels and the chosen date column, once the header row is known. */
  function Labels(g: Grid, hr: nat): seq<Cell>
    requires hr < |g|
  {
    RowCells(g[hr], Width(g))
  }

  /** A record of hour column `j` of grid row `i`: the row's date parsed and the cell has a level. */
  predicate RecordOfCell(g: Grid, hr: nat, station: string, co: Coercion, i: nat, j: nat, r: HourRecord)
    requires hr < |g|
  {
    var labels := Labels(g, hr);
    var dc := DateColumn(labels);
    && hr < i < |g| && j < |labels|
    && AcceptedHour(labels, dc, co.labelHour, j) == Some(r.hour)
    && co.toDate(CellAt(g[i], dc)) == Some(r.day)
    && Level(CellAt(g[i], j), co) == Some(r.level)
    && r.station == station
  }

  lemma {:induction false} MeltColumnExactly(station: string, kept: seq<DataRow>, col: HourColumn, co: Coercion, r: HourRecord)
    ensures r in MeltColumn(station, kept, col, co) <==> exists k :: 0 <= k < |kept| && MeltCell(station, kept[k], col, co) == Some(r)
  {
    if |kept| > 0 {
      MeltColumnExactly(station, kept[1..], col, co, r);
      if exists k :: 0 <= k < |kept| && MeltCell(station, kept[k], col, co) == Some(r) {
        var k :| 0 <= k < |kept| && MeltCell(station, kept[k], col, co) == Some(r);
        if k > 0 { assert kept[1..][k - 1] == kept[k]; }
      }
    }
  }

  /** Some kept row and hour column give record `r`. */
  predicate Emits(station: string, kept: seq<DataRow>, cols: seq<HourColumn>, co: Coercion, r: HourRecord) {
    exists k, c :: 0 <= k < |kept| && 0 <= c < |cols| && MeltCell(station, kept[k], cols[c], co) == Some(r)
  }

  /**
   * The records of the wide-to-long reshape are exactly the records of the (kept row, hour
   * column) cells that have a level; `MeltInOrder` adds that each such cell gives one record.
   */
  lemma {:induction false} MeltExactly(station: string, kept: seq<DataRow>, cols: seq<HourColumn>, co: Coercion, r: HourRecord)
    ensures r in Melt(station, kept, cols, co) <==> Emits(station, kept, cols, co, r)
  {
    if |cols| > 0 {
      var init := cols[..|cols| - 1];
      var last := cols[|cols| - 1];
      assert Melt(station, kept, cols, co) == Melt(station, kept, init, co) + MeltColumn(station, kept, last, co);
      MeltExactly(station, kept, init, co, r);
      MeltColumnExactly(station, kept, last, co, r);
      if r in Melt(station, kept, init, co) {
        var k, c :| 0 <= k < |kept| && 0 <= c < |init| && MeltCell(station, kept[k], init[c], co) == Some(r);
        assert cols[c] == init[c];
      } else if r in MeltColumn(station, kept, last, co) {
        var k :| 0 <= k < |kept| && MeltCell(station, kept[k], last, co) == Some(r);
        assert MeltCell(station, kept[k], cols[|cols| - 1], co) == Some(r);
      }
      if Emits(station, kept, cols, co, r) {
        var k, c :| 0 <= k < |kept| && 0 <= c < |cols| && MeltCell(station, kept[k], cols[c], co) == Some(r);
        if c < |cols| - 1 {
          assert init[c] == cols[c];
          assert Emits(station, kept, init, co, r);
        }
      }
    }
  }

  /** At most one record per (kept row, hour column) pair. */
  lemma {:induction false} MeltBound(station: string, kept: seq<DataRow>, cols: seq<HourColumn>, co: Coercion)
    ensures |Melt(station, kept, cols, co)| <= |kept| * |cols|
  {
    if |cols| > 0 {
      MeltBound(station, kept, cols[..|cols| - 1], co);
      assert |kept| * |cols| == |kept| * (|cols| - 1) + |kept|;
    }
  }

  /** One hour column's cell of a kept row, as a partial function of the row. */
  function CellOf(station: string, col: HourColumn, co: Coercion): DataRow -> Option<HourRecord> {
    row => MeltCell(station, row, col, co)
  }

  /** Melting one hour column is the filter-map of its cells over the kept rows. */
  lemma {:induction false} MeltColumnFilter(station: string, kept: seq<DataRow>, col: HourColumn, co: Coercion)
    ensures MeltColumn(station, kept, col, co) == FilterMap(kept, CellOf(station, col, co))
  {
    if |kept| > 0 {
      MeltColumnFilter(station, kept[1..], col, co);
    }
  }

  /** Record `q` is the record of kept row `pos[q].0` under hour column `pos[q].1`, for every `q`. */
  predicate MeltPicks(station: string, kept: seq<DataRow>, cols: seq<HourColumn>, co: Coercion, out: seq<HourRecord>, pos: seq<(nat, nat)>) {
    |pos| == |out| &&
    forall q :: 0 <= q < |pos| ==>
      (pos[q].0 < |kept| && pos[q].1 < |cols| && MeltCell(station, kept[pos[q].0], cols[pos[q].1], co) == Some(out[q]))
  }

  /** Column by column, and row by row within a column: the order `DataFrame.melt` stacks cells in. */
  predicate ColumnMajor(pos: seq<(nat, nat)>) {
    forall q, q' :: 0 <= q < q' < |pos| ==> pos[q].1 < pos[q'].1 || (pos[q].1 == pos[q'].1 && pos[q].0 < pos[q'].0)
  }

  /** Every (kept row, hour column) cell that has a level is listed. */
  predicate ListsLeveled(station: string, kept: seq<DataRow>, cols: seq<HourColumn>, co: Coercion, pos: seq<(nat, nat)>) {
    forall k, c :: 0 <= k < |kept| && 0 <= c < |cols| && MeltCell(station, kept[k], cols[c], co).Some? ==> (k, c) in pos
  }

  /**
   * `df.melt` followed by `dropna`: one record per (kept row, hour column) cell that has a
   * level, no cell twice (the positions strictly increase), stacked column by column.
   */
  lemma {:induction false} MeltInOrder(station: string, kept: seq<DataRow>, cols: seq<HourColumn>, co: Coercion) returns (pos: seq<(nat, nat)>)
    ensures MeltPicks(station, kept, cols, co, Melt(station, kept, cols, co), pos)
    ensures ColumnMajor(pos) && ListsLeveled(station, kept, cols, co, pos)
  {
    if |cols| == 0 {
      pos := [];
    } else {
      var last := |cols| - 1;
      var front := MeltInOrder(station, kept, cols[..last], co);
      MeltColumnFilter(station, kept, cols[last], co);
      var idx := FilterMapInOrder(kept, CellOf(station, cols[last], co));
      pos := front + Tag(idx, last);
      AppendPicks(station, kept, cols, co, front, idx);
      AppendOrder(front, idx, last);
      AppendLists(station, kept, cols, co, front, idx);
    }
  }

  /** Each row position paired with column `c`. */
  function Tag(idx: seq<nat>, c: nat): (r: seq<(nat, nat)>)
    ensures |r| == |idx| && forall p :: 0 <= p < |idx| ==> r[p] == (idx[p], c)
  {
    seq(|idx|, p requires 0 <= p < |idx| => (idx[p], c))
  }

  lemma AppendPicks(station: string, kept: seq<DataRow>, cols: seq<HourColumn>, co: Coercion, front: seq<(nat, nat)>, idx: seq<nat>)
    requires |cols| > 0
    requires MeltPicks(station, kept, cols[..|cols| - 1], co, Melt(station, kept, cols[..|cols| - 1], co), front)
    requires Picks(kept, CellOf(station, cols[|cols| - 1], co), MeltColumn(station, kept, cols[|cols| - 1], co), idx)
    ensures MeltPicks(station, kept, cols, co, Melt(station, kept, cols, co), front + Tag(idx, |cols| - 1))
  {
    var last := |cols| - 1;
    var head, tail := Melt(station, kept, cols[..last], co), MeltColumn(station, kept, cols[last], co);
    assert Melt(station, kept, cols, co) == head + tail;
    WidenPicks(station, kept, cols, co, head, front);
    ColumnPicks(station, kept, cols, co, tail, idx);
    ConcatPicks(station, kept, cols, co, head, front, tail, Tag(idx, last));
  }

  /** Positions into the leading columns are positions into all of them. */
  lemma WidenPicks(station: string, kept: seq<DataRow>, cols: seq<HourColumn>, co: Coercion, out: seq<HourRecord>, pos: seq<(nat, nat)>)
    requires |cols| > 0 && MeltPicks(station, kept, cols[..|cols| - 1], co, out, pos)
    ensures MeltPicks(station, kept, cols, co, out, pos)
  {
    assert forall c :: 0 <= c < |cols| - 1 ==> cols[..|cols| - 1][c] == cols[c];
  }

  /** Row positions in the last column, tagged with that column. */
  lemma ColumnPicks(station: string, kept: seq<DataRow>, cols: seq<HourColumn>, co: Coercion, out: seq<HourRecord>, idx: seq<nat>)
    requires |cols| > 0 && Picks(kept, CellOf(station, cols[|cols| - 1], co), out, idx)
    ensures MeltPicks(station, kept, cols, co, out, Tag(idx, |cols| - 1))
  {
    var f := CellOf(station, cols[|cols| - 1], co);
    assert forall p :: 0 <= p < |idx| ==> f(kept[idx[p]]) == MeltCell(station, kept[idx[p]], cols[|cols| - 1], co);
  }

  lemma ConcatPicks(station: string, kept: seq<DataRow>, cols: seq<HourColumn>, co: Coercion,
                    out1: seq<HourRecord>, pos1: seq<(nat, nat)>, out2: seq<HourRecord>, pos2: seq<(nat, nat)>)
    requires MeltPicks(station, kept, cols, co, out1, pos1) && MeltPicks(station, kept, cols, co, out2, pos2)
    ensures MeltPicks(station, kept, cols, co, out1 + out2, pos1 + pos2)
  {
    var out, pos := out1 + out2, pos1 + pos2;
    forall q | |pos1| <= q < |pos| ensures pos[q] == pos2[q - |pos1|] && out[q] == out2[q - |pos1|] {
    }
  }

  lemma AppendOrder(front: seq<(nat, nat)>, idx: seq<nat>, c: nat)
    requires ColumnMajor(front) && Increasing(idx)
    requires forall q :: 0 <= q < |front| ==> front[q].1 < c
    ensures ColumnMajor(front + Tag(idx, c))
  {
    var pos := front + Tag(idx, c);
    assert forall q :: |front| <= q < |pos| ==> pos[q] == (idx[q - |front|], c);
  }

  lemma AppendLists(station: string, kept: seq<DataRow>, cols: seq<HourColumn>, co: Coercion, front: seq<(nat, nat)>, idx: seq<nat>)
    requires |cols| > 0
    requires ListsLeveled(station, kept, cols[..|cols| - 1], co, front)
    requires ListsPresent(kept, CellOf(station, cols[|cols| - 1], co), idx)
    ensures ListsLeveled(station, kept, cols, co, front + Tag(idx, |cols| - 1))
  {
    var init, last := cols[..|cols| - 1], |cols| - 1;
    var pos := front + Tag(idx, last);
    forall k, c | 0 <= k < |kept| && 0 <= c < |cols| && MeltCell(station, kept[k], cols[c], co).Some?
      ensures (k, c) in pos
    {
      if c < last {
        assert init[c] == cols[c];
        assert (k, c) in front;
      } else {
        assert CellOf(station, cols[last], co)(kept[k]).Some?;
        var p :| 0 <= p < |idx| && idx[p] == k;
        assert pos[|front| + p] == (k, c);
      }
    }
  }

  /** How many (kept row, hour column) cells have a level, column by column. */
  function LeveledCells(station: string, kept: seq<DataRow>, cols: seq<HourColumn>, co: Coercion): nat {
    if |cols| == 0 then 0
    else LeveledCells(station, kept, cols[..|cols| - 1], co) + Present(kept, CellOf(station, cols[|cols| - 1], co))
  }

  /** The reshape has one record per cell that has a level. */
  lemma {:induction false} MeltCount(station: string, kept: seq<DataRow>, cols: seq<HourColumn>, co: Coercion)
    ensures |Melt(station, kept, cols, co)| == LeveledCells(station, kept, cols, co)
  {
    if |cols| > 0 {
      var last := cols[|cols| - 1];
      MeltCount(station, kept, cols[..|cols| - 1], co);
      MeltColumnFilter(station, kept, last, co);
      FilterMapCount(kept, CellOf(station, last, co));
    }
  }

  /** When every kept row has a level in column `col`, the column melts to one record per row. */
  lemma MeltColumnFull(station: string, kept: seq<DataRow>, col: HourColumn, co: Coercion)
    requires forall k :: 0 <= k < |kept| ==> MeltCell(station, kept[k], col, co).Some?
    ensures |MeltColumn(station, kept, col, co)| == |kept|
  {
    MeltColumnFilter(station, kept, col, co);
    FilterMapCount(kept, CellOf(station, col, co));
    assert forall k :: 0 <= k < |kept| ==> CellOf(station, col, co)(kept[k]).Some?;
    PresentAll(kept, CellOf(station, col, co));
  }

  /** When every cell has a level, the reshape has `|kept| * |cols|` records. */
  lemma {:induction false} MeltFull(station: string, kept: seq<DataRow>, cols: seq<HourColumn>, co: Coercion)
    requires forall k, c :: 0 <= k < |kept| && 0 <= c < |cols| ==> MeltCell(station, kept[k], cols[c], co).Some?
    ensures |Melt(station, kept, cols, co)| == |kept| * |cols|
  {
    if |cols| > 0 {
      var n := |cols| - 1;
      var init, last := cols[..n], cols[n];
      assert forall c :: 0 <= c < |init| ==> init[c] == cols[c];
      MeltFull(station, kept, init, co);
      assert forall k :: 0 <= k < |kept| ==> MeltCell(station, kept[k], cols[n], co).Some?;
      MeltColumnFull(station, kept, last, co);
      assert |Melt(station, kept, cols, co)| == |kept| * n + |kept|;
      MulSucc(|kept|, n);
    }
  }

  lemma MulSucc(a: nat, n: nat)
    ensures a * (n + 1) == a * n + a
  {
  }

  /** With no header marker in any cell of the first min(30, n) rows, every output is empty, in both variants. */
  lemma NoMarkerNoOutput(g: Grid, station: string, co: Coercion)
    requires forall i, j :: 0 <= i < ScanLimit(g) && 0 <= j < Width(g) ==> !Contains(co.show(CellAt(g[i], j)), HeaderMarker)
    ensures ParseSheetSpec(g, station, co) == Parsed([], [], [])
    ensures ParseSheetV1Spec(g, station, co) == ([], [])
  {
    forall i | 0 <= i < ScanLimit(g) ensures !IsHeaderRow(g[i], Width(g), co.show) {
      HeaderRowHasMarkerCell(g[i], Width(g), co.show);
    }
  }

  /** The header is the first scanned row holding a marker cell; the rows it and above it are not data. */
  lemma HeaderIsFirstMarkedRow(g: Grid, co: Coercion, hr: nat)
    requires HeaderRow(g, co.show) == Some(hr)
    ensures hr < |g| && hr < HeaderScanRows
    ensures exists j :: 0 <= j < Width(g) && Contains(co.show(CellAt(g[hr], j)), HeaderMarker)
    ensures forall i, j :: 0 <= i < hr && 0 <= j < Width(g) ==> !Contains(co.show(CellAt(g[i], j)), HeaderMarker)
  {
    HeaderRowHasMarkerCell(g[hr], Width(g), co.show);
    forall i, j | 0 <= i < hr && 0 <= j < Width(g) ensures !Contains(co.show(CellAt(g[i], j)), HeaderMarker) {
      HeaderRowHasMarkerCell(g[i], Width(g), co.show);
    }
  }

  /** The pieces `parse_sheet` builds once the header row is known. */
  function KeptBelow(g: Grid, hr: nat, co: Coercion): seq<DataRow>
    requires hr < |g|
  {
    KeptRows(g[hr + 1..], DateColumn(Labels(g, hr)), co.toDate)
  }

  function ColsOf(g: Grid, hr: nat, co: Coercion): seq<HourColumn>
    requires hr < |g|
  {
    HourColumns(Labels(g, hr), DateColumn(Labels(g, hr)), co.labelHour)
  }

  lemma Unfold(g: Grid, station: string, co: Coercion, hr: nat)
    requires HeaderRow(g, co.show) == Some(hr)
    ensures hr < |g|
    ensures ParseSheetSpec(g, station, co).hourly == Melt(station, KeptBelow(g, hr, co), ColsOf(g, hr, co), co)
    ensures ParseSheetSpec(g, station, co).hours == Hours(ColsOf(g, hr, co))
    ensures ParseSheetSpec(g, station, co).dayNight == DayNight(station, KeptBelow(g, hr, co), Labels(g, hr), DateColumn(Labels(g, hr)), co)
  {
  }

  /** A kept row is a grid row below the header whose date parsed. */
  lemma KeptRowOfGrid(g: Grid, hr: nat, co: Coercion, k: nat) returns (i: nat)
    requires hr < |g| && k < |KeptBelow(g, hr, co)|
    ensures hr < i < |g| && KeptBelow(g, hr, co)[k].cells == g[i]
    ensures co.toDate(CellAt(g[i], DateColumn(Labels(g, hr)))) == Some(KeptBelow(g, hr, co)[k].day)
  {
    var rows := g[hr + 1..];
    var idx := KeptRowsInOrder(rows, DateColumn(Labels(g, hr)), co.toDate);
    assert rows[idx[k]] == g[hr + 1 + idx[k]];
    i := hr + 1 + idx[k];
  }

  /** A grid row below the header whose date parses is kept. */
  lemma GridRowKept(g: Grid, hr: nat, co: Coercion, i: nat, day: int) returns (k: nat)
    requires hr < i < |g| && co.toDate(CellAt(g[i], DateColumn(Labels(g, hr)))) == Some(day)
    ensures k < |KeptBelow(g, hr, co)| && KeptBelow(g, hr, co)[k] == DataRow(g[i], day)
  {
    var rows := g[hr + 1..];
    var idx := KeptRowsInOrder(rows, DateColumn(Labels(g, hr)), co.toDate);
    assert rows[i - hr - 1] == g[i];
    assert i - hr - 1 in idx;
    k :| 0 <= k < |idx| && idx[k] == i - hr - 1;
  }

  /**
   * Every hourly record comes from a data row below the header whose date parsed and from an
   * accepted hour column whose cell has a level, and every such cell gives a record.
   */
  lemma HourlyRecordsExactly(g: Grid, station: string, co: Coercion, hr: nat, r: HourRecord)
    requires HeaderRow(g, co.show) == Some(hr)
    ensures hr < |g|
    ensures r in ParseSheetSpec(g, station, co).hourly <==> exists i, j :: RecordOfCell(g, hr, station, co, i, j, r)
  {
    Unfold(g, station, co, hr);
    MeltOfGrid(g, station, co, hr, r);
  }

  lemma MeltOfGrid(g: Grid, station: string, co: Coercion, hr: nat, r: HourRecord)
    requires hr < |g|
    ensures r in Melt(station, KeptBelow(g, hr, co), ColsOf(g, hr, co), co) <==> exists i, j :: RecordOfCell(g, hr, station, co, i, j, r)
  {
    MeltExactly(station, KeptBelow(g, hr, co), ColsOf(g, hr, co), co, r);
    if Emits(station, KeptBelow(g, hr, co), ColsOf(g, hr, co), co, r) {
      EmittedFromGrid(g, station, co, hr, r);
    }
    if exists i, j :: RecordOfCell(g, hr, station, co, i, j, r) {
      var i, j :| RecordOfCell(g, hr, station, co, i, j, r);
      GridCellEmitted(g, station, co, hr, r, i, j);
    }
  }

  /** An emitted record names a grid cell below the header. */
  lemma EmittedFromGrid(g: Grid, station: string, co: Coercion, hr: nat, r: HourRecord)
    requires hr < |g| && Emits(station, KeptBelow(g, hr, co), ColsOf(g, hr, co), co, r)
    ensures exists i, j :: RecordOfCell(g, hr, station, co, i, j, r)
  {
    var kept := KeptBelow(g, hr, co);
    var cols := ColsOf(g, hr, co);
    var k, c :| 0 <= k < |kept| && 0 <= c < |cols| && MeltCell(station, kept[k], cols[c], co) == Some(r);
    var i := KeptRowOfGrid(g, hr, co, k);
    var col := cols[c];
    var labels := Labels(g, hr);
    assert col.index < |labels| && AcceptedHour(labels, DateColumn(labels), co.labelHour, col.index) == Some(col.hour);
    assert Level(CellAt(g[i], col.index), co) == Some(r.level) && r == HourRecord(station, kept[k].day, col.hour, r.level);
    assert RecordOfCell(g, hr, station, co, i, col.index, r);
  }

  /** A grid cell below the header that gives a record is emitted. */
  lemma GridCellEmitted(g: Grid, station: string, co: Coercion, hr: nat, r: HourRecord, i: nat, j: nat)
    requires hr < |g| && RecordOfCell(g, hr, station, co, i, j, r)
    ensures Emits(station, KeptBelow(g, hr, co), ColsOf(g, hr, co), co, r)
  {
    var kept := KeptBelow(g, hr, co);
    var cols := ColsOf(g, hr, co);
    var k := GridRowKept(g, hr, co, i, r.day);
    assert HourColumn(j, r.hour) in cols;
    var c :| 0 <= c < |cols| && cols[c] == HourColumn(j, r.hour);
    assert MeltCell(station, kept[k], cols[c], co) == Some(r);
  }

  /** Every hourly record carries the station label given and an hour in 1..24. */
  lemma HourlyRecordShape(g: Grid, station: string, co: Coercion, r: HourRecord)
    requires r in ParseSheetSpec(g, station, co).hourly
    ensures r.station == station && 1 <= r.hour <= 24
  {
    var hr := HeaderRow(g, co.show).value;
    HourlyRecordsExactly(g, station, co, hr, r);
  }

  /** At most one hourly record per (data row, hour column) pair. */
  lemma HourlyCountBound(g: Grid, station: string, co: Coercion, hr: nat)
    requires HeaderRow(g, co.show) == Some(hr)
    ensures hr < |g|
    ensures |ParseSheetSpec(g, station, co).hourly| <= (|g| - hr - 1) * |ColsOf(g, hr, co)|
  {
    Unfold(g, station, co, hr);
    MeltBelowBound(g, station, co, hr);
  }

  /**
   * The hourly records are stacked hour column by hour column; each is the reading of one kept
   * row under one hour column, and every such cell that has a level gives exactly one record.
   */
  lemma HourlyInOrder(g: Grid, station: string, co: Coercion, hr: nat) returns (pos: seq<(nat, nat)>)
    requires HeaderRow(g, co.show) == Some(hr)
    ensures hr < |g|
    ensures MeltPicks(station, KeptBelow(g, hr, co), ColsOf(g, hr, co), co, ParseSheetSpec(g, station, co).hourly, pos)
    ensures ColumnMajor(pos) && ListsLeveled(station, KeptBelow(g, hr, co), ColsOf(g, hr, co), co, pos)
  {
    Unfold(g, station, co, hr);
    pos := MeltInOrder(station, KeptBelow(g, hr, co), ColsOf(g, hr, co), co);
  }

  /**
   * One hourly record per kept cell that has a level; a sheet whose kept rows all carry a level
   * in every hour column gives (kept rows) x (hour columns) records.
   */
  lemma HourlyCount(g: Grid, station: string, co: Coercion, hr: nat)
    requires HeaderRow(g, co.show) == Some(hr)
    ensures hr < |g|
    ensures |ParseSheetSpec(g, station, co).hourly| == LeveledCells(station, KeptBelow(g, hr, co), ColsOf(g, hr, co), co)
    ensures (forall k, c :: 0 <= k < |KeptBelow(g, hr, co)| && 0 <= c < |ColsOf(g, hr, co)| ==>
               MeltCell(station, KeptBelow(g, hr, co)[k], ColsOf(g, hr, co)[c], co).Some?)
            ==> |ParseSheetSpec(g, station, co).hourly| == |KeptBelow(g, hr, co)| * |ColsOf(g, hr, co)|
  {
    var kept, cols := KeptBelow(g, hr, co), ColsOf(g, hr, co);
    Unfold(g, station, co, hr);
    MeltCount(station, kept, cols, co);
    if forall k, c :: 0 <= k < |kept| && 0 <= c < |cols| ==> MeltCell(station, kept[k], cols[c], co).Some? {
      MeltFull(station, kept, cols, co);
    }
  }

  lemma MeltBelowBound(g: Grid, station: string, co: Coercion, hr: nat)
    requires hr < |g|
    ensures |Melt(station, KeptBelow(g, hr, co), ColsOf(g, hr, co), co)| <= (|g| - hr - 1) * |ColsOf(g, hr, co)|
  {
    var kept := KeptBelow(g, hr, co);
    var cols := ColsOf(g, hr, co);
    var melted := Melt(station, kept, cols, co);
    MeltBound(station, kept, cols, co);
    KeptBelowBound(g, hr, co);
    MulMonotone(|kept|, |g| - hr - 1, |cols|);
    assert |melted| <= |kept| * |cols| <= (|g| - hr - 1) * |cols|;
  }

  lemma MulMonotone(a: nat, b: nat, c: nat)
    requires a <= b
    ensures a * c <= b * c
  {
  }

  lemma KeptBelowBound(g: Grid, hr: nat, co: Coercion)
    requires hr < |g|
    ensures |KeptBelow(g, hr, co)| <= |g| - hr - 1
  {
    KeptRowsBound(g[hr + 1..], DateColumn(Labels(g, hr)), co.toDate);
  }

  lemma {:induction false} KeptRowsBound(rows: seq<seq<Cell>>, dc: nat, toDate: Cell -> Option<int>)
    ensures |KeptRows(rows, dc, toDate)| <= |rows|
  {
    if |rows| > 0 {
      KeptRowsBound(rows[1..], dc, toDate);
    }
  }

  /** The kept row a sheet row gives, when its date parses. */
  function KeepRow(dc: nat, toDate: Cell -> Option<int>): seq<Cell> -> Option<DataRow> {
    row => match toDate(CellAt(row, dc))
      case Some(d) => Some(DataRow(row, d))
      case None => None
  }

  /** Keeping the dated rows is the filter-map of `KeepRow` over the sheet rows. */
  lemma {:induction false} KeptRowsFilter(rows: seq<seq<Cell>>, dc: nat, toDate: Cell -> Option<int>)
    ensures KeptRows(rows, dc, toDate) == FilterMap(rows, KeepRow(dc, toDate))
  {
    if |rows| > 0 {
      KeptRowsFilter(rows[1..], dc, toDate);
    }
  }

  /**
   * `df[dts.notna()]`: the kept rows are the rows whose date parses, each once, in their order
   * in the sheet; `idx` gives the position of each kept row.
   */
  lemma KeptRowsInOrder(rows: seq<seq<Cell>>, dc: nat, toDate: Cell -> Option<int>) returns (idx: seq<nat>)
    ensures Picks(rows, KeepRow(dc, toDate), KeptRows(rows, dc, toDate), idx)
    ensures Increasing(idx) && ListsPresent(rows, KeepRow(dc, toDate), idx)
  {
    KeptRowsFilter(rows, dc, toDate);
    idx := FilterMapInOrder(rows, KeepRow(dc, toDate));
  }

  /** The hours of the hour columns are exactly the hours of the accepted labels, all in 1..24. */
  lemma HourColumnHours(labels: seq<Cell>, dc: nat, labelHour: Cell -> Option<int>)
    ensures var hours := Hours(HourColumns(labels, dc, labelHour));
      && StrictlySorted(hours, IntLess)
      && (forall h :: h in hours ==> 1 <= h <= 24)
      && (forall h :: h in hours <==> exists j :: 0 <= j < |labels| && AcceptedHour(labels, dc, labelHour, j) == Some(h))
  {
    var cols := HourColumns(labels, dc, labelHour);
    forall h ensures (exists k :: 0 <= k < |cols| && cols[k].hour == h) <==> exists j :: 0 <= j < |labels| && AcceptedHour(labels, dc, labelHour, j) == Some(h)
    {
      if exists j :: 0 <= j < |labels| && AcceptedHour(labels, dc, labelHour, j) == Some(h) {
        var j :| 0 <= j < |labels| && AcceptedHour(labels, dc, labelHour, j) == Some(h);
        assert HourColumn(j, h) in cols;
      }
    }
  }

  /**
   * The hour list is strictly increasing, lies in 1..24 and is exactly the set of hours of
   * accepted labels; the date column and a column labelled "date" are never hour columns.
   */
  lemma HoursExactly(g: Grid, station: string, co: Coercion, hr: nat)
    requires HeaderRow(g, co.show) == Some(hr)
    ensures hr < |g|
    ensures var hours := ParseSheetSpec(g, station, co).hours;
      var labels := Labels(g, hr);
      var dc := DateColumn(labels);
      && StrictlySorted(hours, IntLess)
      && (forall h :: h in hours ==> 1 <= h <= 24)
      && (forall h :: h in hours <==> exists j :: 0 <= j < |labels| && AcceptedHour(labels, dc, co.labelHour, j) == Some(h))
      && (dc < |labels| ==> AcceptedHour(labels, dc, co.labelHour, dc).None?)
      && (forall j :: 0 <= j < |labels| && labels[j] == DateLabel ==> AcceptedHour(labels, dc, co.labelHour, j).None?)
  {
    Unfold(g, station, co, hr);
    HourColumnHours(Labels(g, hr), DateColumn(Labels(g, hr)), co.labelHour);
  }

  /** Grid row `i`, below header `hr`, has a parsed date and gives day/night record `r`. */
  predicate DayNightOfRow(g: Grid, hr: nat, station: string, co: Coercion, dayCol: nat, nightCol: nat, i: nat, r: DayNightRecord)
    requires hr < |g|
  {
    var labels := Labels(g, hr);
    var dc := DateColumn(labels);
    && hr < i < |g|
    && co.toDate(CellAt(g[i], dc)).Some?
    && Level(CellAt(g[i], dayCol), co) == Some(r.laeqDay)
    && Level(CellAt(g[i], nightCol), co) == Some(r.laeqNight)
    && r.date == DayNightDate(labels, dc, DataRow(g[i], co.toDate(CellAt(g[i], dc)).value))
    && r.station == station
  }

  /**
   * Day/night records exist only when both a day and a night label are present; each comes
   * from a dated data row below the header and holds its first day and first night column's levels.
   */
  lemma DayNightRecordsFromLabelledColumns(g: Grid, station: string, co: Coercion, hr: nat, r: DayNightRecord)
    requires HeaderRow(g, co.show) == Some(hr)
    requires r in ParseSheetSpec(g, station, co).dayNight
    ensures hr < |g|
    ensures FirstLabelled(Labels(g, hr), DayLabels).Some? && FirstLabelled(Labels(g, hr), NightLabels).Some?
    ensures exists i :: DayNightOfRow(g, hr, station, co,
      FirstLabelled(Labels(g, hr), DayLabels).value, FirstLabelled(Labels(g, hr), NightLabels).value, i, r)
  {
    Unfold(g, station, co, hr);
    var labels := Labels(g, hr);
    var dc := DateColumn(labels);
    var kept := KeptBelow(g, hr, co);
    var dayCol := FirstLabelled(labels, DayLabels).value;
    var nightCol := FirstLabelled(labels, NightLabels).value;
    var k := DayNightRowsSound(station, kept, labels, dc, dayCol, nightCol, co, r);
    var i := KeptRowOfGrid(g, hr, co, k);
    assert DayNightOfRow(g, hr, station, co, dayCol, nightCol, i, r);
  }

  /** The kept row a day/night record comes from. */
  lemma {:induction false} DayNightRowsSound(station: string, kept: seq<DataRow>, labels: seq<Cell>, dc: nat, dayCol: nat, nightCol: nat, co: Coercion, r: DayNightRecord) returns (k: nat)
    requires r in DayNightRows(station, kept, labels, dc, dayCol, nightCol, co)
    ensures k < |kept|
    ensures Level(CellAt(kept[k].cells, dayCol), co) == Some(r.laeqDay)
    ensures Level(CellAt(kept[k].cells, nightCol), co) == Some(r.laeqNight)
    ensures r.date == DayNightDate(labels, dc, kept[k]) && r.station == station
  {
    var rest := DayNightRows(station, kept[1..], labels, dc, dayCol, nightCol, co);
    if r in rest {
      k := DayNightRowsSound(station, kept[1..], labels, dc, dayCol, nightCol, co, r);
      assert kept[1..][k] == kept[k + 1];
      k := k + 1;
    } else {
      k := 0;
    }
  }

  /** Every kept row whose day and night cells both have a level gives its record. */
  lemma {:induction false} DayNightRowsComplete(station: string, kept: seq<DataRow>, labels: seq<Cell>, dc: nat, dayCol: nat, nightCol: nat, co: Coercion, k: nat)
    requires k < |kept|
    requires Level(CellAt(kept[k].cells, dayCol), co).Some? && Level(CellAt(kept[k].cells, nightCol), co).Some?
    ensures DayNightRecord(station, DayNightDate(labels, dc, kept[k]), Level(CellAt(kept[k].cells, dayCol), co).value,
      Level(CellAt(kept[k].cells, nightCol), co).value) in DayNightRows(station, kept, labels, dc, dayCol, nightCol, co)
  {
    if k > 0 {
      assert kept[1..][k - 1] == kept[k];
      DayNightRowsComplete(station, kept[1..], labels, dc, dayCol, nightCol, co, k - 1);
    }
  }

  /** The day/night record a kept row gives, when both its day and its night cell have a level. */
  function PairOf(station: string, labels: seq<Cell>, dc: nat, dayCol: nat, nightCol: nat, co: Coercion): DataRow -> Option<DayNightRecord> {
    (row: DataRow) => match (Level(CellAt(row.cells, dayCol), co), Level(CellAt(row.cells, nightCol), co))
      case (Some(d), Some(n)) => Some(DayNightRecord(station, DayNightDate(labels, dc, row), d, n))
      case _ => None
  }

  /** Pairing the day and night levels is the filter-map of `PairOf` over the kept rows. */
  lemma {:induction false} DayNightRowsFilter(station: string, kept: seq<DataRow>, labels: seq<Cell>, dc: nat, dayCol: nat, nightCol: nat, co: Coercion)
    ensures DayNightRows(station, kept, labels, dc, dayCol, nightCol, co) == FilterMap(kept, PairOf(station, labels, dc, dayCol, nightCol, co))
  {
    if |kept| > 0 {
      DayNightRowsFilter(station, kept[1..], labels, dc, dayCol, nightCol, co);
    }
  }

  /**
   * `dropna` over the two level columns: one record per kept row whose day and night cells both
   * have a level, no row twice, in the order of the rows.
   */
  lemma DayNightRowsInOrder(station: string, kept: seq<DataRow>, labels: seq<Cell>, dc: nat, dayCol: nat, nightCol: nat, co: Coercion) returns (idx: seq<nat>)
    ensures Picks(kept, PairOf(station, labels, dc, dayCol, nightCol, co), DayNightRows(station, kept, labels, dc, dayCol, nightCol, co), idx)
    ensures Increasing(idx) && ListsPresent(kept, PairOf(station, labels, dc, dayCol, nightCol, co), idx)
  {
    DayNightRowsFilter(station, kept, labels, dc, dayCol, nightCol, co);
    idx := FilterMapInOrder(kept, PairOf(station, labels, dc, dayCol, nightCol, co));
  }

  /** One record per kept row with both levels; every kept row when all of them have both. */
  lemma DayNightRowsCount(station: string, kept: seq<DataRow>, labels: seq<Cell>, dc: nat, dayCol: nat, nightCol: nat, co: Coercion)
    ensures |DayNightRows(station, kept, labels, dc, dayCol, nightCol, co)| == Present(kept, PairOf(station, labels, dc, dayCol, nightCol, co))
    ensures (forall k :: 0 <= k < |kept| ==> Level(CellAt(kept[k].cells, dayCol), co).Some? && Level(CellAt(kept[k].cells, nightCol), co).Some?)
      ==> |DayNightRows(station, kept, labels, dc, dayCol, nightCol, co)| == |kept|
  {
    var f := PairOf(station, labels, dc, dayCol, nightCol, co);
    DayNightRowsFilter(station, kept, labels, dc, dayCol, nightCol, co);
    FilterMapCount(kept, f);
    if forall k :: 0 <= k < |kept| ==> Level(CellAt(kept[k].cells, dayCol), co).Some? && Level(CellAt(kept[k].cells, nightCol), co).Some? {
      assert forall k :: 0 <= k < |kept| ==> f(kept[k]).Some?;
      PresentAll(kept, f);
    }
  }

  /**
   * With both a day and a night label present, a day/night record is output exactly when it
   * comes from a dated data row below the header whose first day and first night cells have levels.
   */
  lemma DayNightRecordsExactly(g: Grid, station: string, co: Coercion, hr: nat, r: DayNightRecord)
    requires HeaderRow(g, co.show) == Some(hr)
    ensures hr < |g|
    ensures FirstLabelled(Labels(g, hr), DayLabels).Some? && FirstLabelled(Labels(g, hr), NightLabels).Some? ==>
      (r in ParseSheetSpec(g, station, co).dayNight <==> exists i :: DayNightOfRow(g, hr, station, co,
        FirstLabelled(Labels(g, hr), DayLabels).value, FirstLabelled(Labels(g, hr), NightLabels).value, i, r))
  {
    Unfold(g, station, co, hr);
    var labels := Labels(g, hr);
    if FirstLabelled(labels, DayLabels).Some? && FirstLabelled(labels, NightLabels).Some? {
      var dayCol := FirstLabelled(labels, DayLabels).value;
      var nightCol := FirstLabelled(labels, NightLabels).value;
      if r in ParseSheetSpec(g, station, co).dayNight {
        DayNightRecordsFromLabelledColumns(g, station, co, hr, r);
      }
      if exists i :: DayNightOfRow(g, hr, station, co, dayCol, nightCol, i, r) {
        var i :| DayNightOfRow(g, hr, station, co, dayCol, nightCol, i, r);
        DayNightRowOutput(g, station, co, hr, dayCol, nightCol, i, r);
      }
    }
  }

  /**
   * With both labels present, one day/night record per kept data row whose day and night cells
   * both have a level; without either label, none.
   */
  lemma DayNightCount(g: Grid, station: string, co: Coercion, hr: nat)
    requires HeaderRow(g, co.show) == Some(hr)
    ensures hr < |g|
    ensures var labels := Labels(g, hr);
      |ParseSheetSpec(g, station, co).dayNight| ==
        match (FirstLabelled(labels, DayLabels), FirstLabelled(labels, NightLabels))
        case (Some(dayCol), Some(nightCol)) => Present(KeptBelow(g, hr, co), PairOf(station, labels, DateColumn(labels), dayCol, nightCol, co))
        case _ => 0
  {
    Unfold(g, station, co, hr);
    var labels := Labels(g, hr);
    match (FirstLabelled(labels, DayLabels), FirstLabelled(labels, NightLabels))
    case (Some(dayCol), Some(nightCol)) =>
      DayNightRowsCount(station, KeptBelow(g, hr, co), labels, DateColumn(labels), dayCol, nightCol, co);
    case _ =>
  }

  /** A dated grid row whose day and night cells have levels gives its record. */
  lemma DayNightRowOutput(g: Grid, station: string, co: Coercion, hr: nat, dayCol: nat, nightCol: nat, i: nat, r: DayNightRecord)
    requires hr < |g| && DayNightOfRow(g, hr, station, co, dayCol, nightCol, i, r)
    ensures var labels := Labels(g, hr);
      r in DayNightRows(station, KeptBelow(g, hr, co), labels, DateColumn(labels), dayCol, nightCol, co)
  {
    var labels := Labels(g, hr);
    var kept := KeptBelow(g, hr, co);
    var day := co.toDate(CellAt(g[i], DateColumn(labels))).value;
    var k := GridRowKept(g, hr, co, i, day);
    DayNightRowsComplete(station, kept, labels, DateColumn(labels), dayCol, nightCol, co, k);
  }

  /** The older variant agrees with the newer one on the hourly records and the hour list. */
  lemma VariantsAgree(g: Grid, station: string, co: Coercion)
    ensures ParseSheetV1Spec(g, station, co) == (ParseSheetSpec(g, station, co).hourly, ParseSheetSpec(g, station, co).hours)
  {
    match HeaderRow(g, co.show)
    case None =>
    case Some(hr) =>
      var labels := Labels(g, hr);
      var cols := HourColumns(labels, DateColumn(labels), co.labelHour);
      if |cols| == 0 {
        IntLessIsStrictTotal();
        assert Hours(cols) == SortedUnique([], IntLess);
      }
  }

  /** The older variant returns nothing when the header has no label rounding to an hour in 1..24. */
  lemma V1EmptyWithoutHourLabels(g: Grid, station: string, co: Coercion, hr: nat)
    requires HeaderRow(g, co.show) == Some(hr)
    requires hr < |g| && forall j :: 0 <= j < |Labels(g, hr)| ==> AcceptedHour(Labels(g, hr), DateColumn(Labels(g, hr)), co.labelHour, j).None?
    ensures ParseSheetV1Spec(g, station, co) == ([], [])
  {
    NoAcceptedNoColumns(Labels(g, hr), DateColumn(Labels(g, hr)), co.labelHour, |Labels(g, hr)|);
  }

  lemma {:induction false} NoAcceptedNoColumns(labels: seq<Cell>, dc: nat, labelHour: Cell -> Option<int>, n: nat)
    requires n <= |labels|
    requires forall j :: 0 <= j < n ==> AcceptedHour(labels, dc, labelHour, j).None?
    ensures HourColumnsUpTo(labels, dc, labelHour, n) == []
  {
    if n > 0 {
      NoAcceptedNoColumns(labels, dc, labelHour, n - 1);
    }
  }
}
