/**
 * The four tables the pipeline writes, held in memory as maps keyed by their natural keys,
 * and the statements that write them: `upsert_stations`, `insert_measurements`,
 * `refresh_hours_from_readings`, `insert_day_night_levels` and `insert_hours_levels`.
 */
module NoiseStore {
  import opened Wrappers
  import opened Ordering
  import opened KstTime
  import opened Merge
  import Sheet

  /** A longitude/latitude point (`geometry(Point, 4326)`). */
  datatype Point = Point(lon: real, lat: real)

  /** Every station is inserted at this placeholder location (Seoul City Hall). */
  const Placeholder := Point(126.9780, 37.5665)

  /** A `stations` row: the `SERIAL` id and the location; the name is the map key. */
  datatype StationRow = StationRow(id: nat, geom: Point)

  /** `noise_reading`, unique on (station_id, ts_utc); ts_utc in seconds. */
  datatype ReadingKey = ReadingKey(station: nat, tsUtc: int)
  datatype ReadingRow = ReadingRow(level: real, part: PartOfDay)

  /** `noise_level_h`, keyed on (station_id, ts_hour_kst); the hour is a local hour number. */
  datatype HourKey = HourKey(station: nat, localHour: int)
  /** `n_samples` is None (SQL NULL) for rows only `insert_hours_levels` wrote. */
  datatype HourRow = HourRow(samples: Option<nat>, laeq: real)

  /** `noise_level_d`, keyed on (station_id, d_kst). */
  datatype DayKey = DayKey(station: nat, day: int)
  datatype DayRow = DayRow(laeqDay: real, laeqNight: real)

  /** A row of the frame `insert_hours_levels` receives. */
  datatype HourLevel = HourLevel(station: string, day: int, hour: int, laeq: real)

  /**
   * What a statement ended with: done, or the error the database raises, after which the
   * transaction is rolled back. `DuplicateKey` is the error `ON CONFLICT DO UPDATE` raises when one
   * statement proposes the same key twice; `BadDate` is a date cell the `DATE` column refuses.
   */
  datatype Outcome = Done | DuplicateKey | BadDate

  /** Some station has this id. */
  ghost predicate HasId(stations: map<string, StationRow>, id: nat) {
    exists n :: n in stations && stations[n].id == id
  }

  /** `after` keeps every row of `before`. */
  ghost predicate Extends(before: map<string, StationRow>, after: map<string, StationRow>) {
    forall n :: n in before ==> n in after && after[n] == before[n]
  }

  // ---------------------------------------------------------------- stations

  /**
   * The `stations` table and the id sequence after the single-row inserts of `names`, in
   * order: a new name gets the next id; a known name is left alone (`DO NOTHING`), but its
   * insert still draws a value from the `SERIAL` sequence.
   */
  function AddStations(stations: map<string, StationRow>, nextId: nat, names: seq<string>): (r: (map<string, StationRow>, nat))
    ensures r.1 == nextId + |names|
    ensures Extends(stations, r.0)
  {
    if |names| == 0 then (stations, nextId)
    else
      var (s, n) := AddStations(stations, nextId, names[..|names| - 1]);
      (AddOne(s, n, names[|names| - 1]), n + 1)
  }

  /**
   * Afterwards the table holds the old names and every inserted name; each new name sits at
   * the placeholder location with its own id drawn from the sequence during these inserts.
   */
  lemma {:induction false} AddStationsRows(stations: map<string, StationRow>, nextId: nat, names: seq<string>)
    ensures var r := AddStations(stations, nextId, names);
      && r.0.Keys == stations.Keys + (set n | n in names)
      && (forall n :: n in r.0 && n !in stations ==> nextId <= r.0[n].id < r.1 && r.0[n].geom == Placeholder)
      && (forall a, b :: a in r.0 && b in r.0 && a != b && a !in stations && b !in stations ==> r.0[a].id != r.0[b].id)
  {
    if |names| > 0 {
      var init := names[..|names| - 1];
      AddStationsRows(stations, nextId, init);
      assert forall x :: x in names <==> x in init || x == names[|names| - 1];
    }
  }

  lemma AddStationsStep(stations: map<string, StationRow>, nextId: nat, names: seq<string>, i: nat)
    requires i < |names|
    ensures var prev := AddStations(stations, nextId, names[..i]);
      AddStations(stations, nextId, names[..i + 1]) == (AddOne(prev.0, prev.1, names[i]), prev.1 + 1)
  {
    assert names[..i + 1][..i] == names[..i];
  }

  /** One single-row insert: `ON CONFLICT (name) DO NOTHING`. */
  function AddOne(stations: map<string, StationRow>, nextId: nat, name: string): map<string, StationRow> {
    if name in stations then stations else stations[name := StationRow(nextId, Placeholder)]
  }

  /** Ids below the sequence and distinct per station. */
  ghost predicate StationsValid(stations: map<string, StationRow>, nextId: nat) {
    && (forall n :: n in stations ==> 1 <= stations[n].id < nextId)
    && (forall a, b :: a in stations && b in stations && stations[a].id == stations[b].id ==> a == b)
  }

  /** The store's invariant on table values: valid ids, and every row refers to a station (the foreign keys). */
  ghost predicate TablesValid(stations: map<string, StationRow>, nextId: nat, readings: map<ReadingKey, ReadingRow>,
                              hourly: map<HourKey, HourRow>, daily: map<DayKey, DayRow>)
  {
    && StationsValid(stations, nextId)
    && 1 <= nextId
    && (forall k :: k in readings ==> HasId(stations, k.station))
    && (forall k :: k in hourly ==> HasId(stations, k.station))
    && (forall k :: k in daily ==> HasId(stations, k.station))
  }

  lemma MoreStationsKeepValid(stations: map<string, StationRow>, nextId: nat, readings: map<ReadingKey, ReadingRow>,
                              hourly: map<HourKey, HourRow>, daily: map<DayKey, DayRow>,
                              stations': map<string, StationRow>, nextId': nat)
    requires TablesValid(stations, nextId, readings, hourly, daily)
    requires StationsValid(stations', nextId') && 1 <= nextId' && Extends(stations, stations')
    ensures TablesValid(stations', nextId', readings, hourly, daily)
  {
    forall id | HasId(stations, id) ensures HasId(stations', id) {
      var n :| n in stations && stations[n].id == id;
      assert stations'[n].id == id;
    }
  }

  lemma AddOneKeepsValid(stations: map<string, StationRow>, nextId: nat, name: string)
    requires StationsValid(stations, nextId) && 1 <= nextId
    ensures StationsValid(AddOne(stations, nextId, name), nextId + 1)
  {
  }

  /** Inserting stations keeps the ids below the sequence and distinct, and keeps the foreign keys satisfied. */
  lemma {:induction false} AddStationsKeepsValid(stations: map<string, StationRow>, nextId: nat, readings: map<ReadingKey, ReadingRow>,
                                                 hourly: map<HourKey, HourRow>, daily: map<DayKey, DayRow>, names: seq<string>)
    requires TablesValid(stations, nextId, readings, hourly, daily)
    ensures var r := AddStations(stations, nextId, names);
      TablesValid(r.0, r.1, readings, hourly, daily)
  {
    if |names| > 0 {
      var init := names[..|names| - 1];
      AddStationsKeepsValid(stations, nextId, readings, hourly, daily, init);
      var (s, n) := AddStations(stations, nextId, init);
      AddOneKeepsValid(s, n, names[|names| - 1]);
      MoreStationsKeepValid(s, n, readings, hourly, daily, AddOne(s, n, names[|names| - 1]), n + 1);
    }
  }

  /** The loop of `upsert_stations`: one insert per name, each drawing an id. */
  method InsertNames(stations: map<string, StationRow>, nextId: nat, names: seq<string>)
    returns (table: map<string, StationRow>, next: nat)
    ensures (table, next) == AddStations(stations, nextId, names)
  {
    table, next := stations, nextId;
    for i := 0 to |names|
      invariant (table, next) == AddStations(stations, nextId, names[..i])
    {
      AddStationsStep(stations, nextId, names, i);
      table := AddOne(table, next, names[i]);
      next := next + 1;
    }
    assert names[..|names|] == names;
  }

  /** `sorted(set(names))`: the distinct names in ascending order. */
  function SortedNames(names: seq<string>): (r: seq<string>)
    ensures StrictlySorted(r, StrLess)
    ensures forall n :: n in r <==> n in names
  {
    StrLessIsStrictTotal();
    SortedUnique(names, StrLess)
  }

  /** Inserting names that are all known already changes no row; only the sequence advances. */
  lemma {:induction false} AddKnownStations(stations: map<string, StationRow>, nextId: nat, names: seq<string>)
    requires forall n :: n in names ==> n in stations
    ensures AddStations(stations, nextId, names).0 == stations
  {
    if |names| > 0 {
      AddKnownStations(stations, nextId, names[..|names| - 1]);
    }
  }

  /** Calling `upsert_stations` again with the same names changes no station row. */
  lemma UpsertStationsAgain(stations: map<string, StationRow>, nextId: nat, later: nat, names: seq<string>)
    ensures var once := AddStations(stations, nextId, names).0;
      AddStations(once, later, names).0 == once
  {
    AddStationsRows(stations, nextId, names);
    AddKnownStations(AddStations(stations, nextId, names).0, later, names);
  }

  /** With the names sorted and distinct, the i-th name, if new, gets id nextId + i: ids follow name order. */
  lemma {:induction false} NewIdsFollowOrder(stations: map<string, StationRow>, nextId: nat, names: seq<string>, i: nat)
    requires StrictlySorted(names, StrLess) && i < |names| && names[i] !in stations
    ensures var r := AddStations(stations, nextId, names).0;
      names[i] in r && r[names[i]].id == nextId + i
  {
    StrLessIsStrictTotal();
    SortedDistinct(names, StrLess);
    var init := names[..|names| - 1];
    AddStationsRows(stations, nextId, init);
    if i < |names| - 1 {
      assert StrictlySorted(init, StrLess);
      NewIdsFollowOrder(stations, nextId, init, i);
      assert init[i] == names[i];
    } else {
      assert names[i] !in init;
    }
  }

  // ---------------------------------------------------------------- readings

  /** The `noise_reading` row one parsed record gives, for a station the join finds. */
  function ReadingOf(stations: map<string, StationRow>, rec: Sheet.HourRecord): (ReadingKey, ReadingRow)
    requires rec.station in stations
  {
    (ReadingKey(stations[rec.station].id, ToUtc(rec.day, rec.hour)), ReadingRow(rec.level, PartOfDayOf(rec.hour)))
  }

  /** `FROM _noise_tmp t JOIN stations s ON s.name = t.station_name`: records of unknown stations drop out. */
  function MeasurementRows(stations: map<string, StationRow>, records: seq<Sheet.HourRecord>): (rows: seq<(ReadingKey, ReadingRow)>)
    ensures forall row :: row in rows <==> exists rec :: rec in records && rec.station in stations && row == ReadingOf(stations, rec)
  {
    if |records| == 0 then []
    else
      var rest := MeasurementRows(stations, records[1..]);
      assert forall rec :: rec in records <==> rec == records[0] || rec in records[1..];
      if records[0].station in stations then [ReadingOf(stations, records[0])] + rest else rest
  }

  // ---------------------------------------------------------------- hourly aggregation

  /** `(:from_utc IS NULL OR ts >= :from_utc) AND (:to_utc IS NULL OR ts < :to_utc)`. */
  predicate InWindow(tsUtc: int, from: Option<int>, to: Option<int>) {
    (from.None? || from.value <= tsUtc) && (to.None? || tsUtc < to.value)
  }

  /** The readings the aggregation reads (`db_level` is NOT NULL, so that filter keeps every row). */
  function Window(readings: map<ReadingKey, ReadingRow>, from: Option<int>, to: Option<int>): set<ReadingKey> {
    set k | k in readings && InWindow(k.tsUtc, from, to)
  }

  /** `GROUP BY station_id, date_trunc('hour', ts_utc AT TIME ZONE 'Asia/Seoul')`. */
  function BucketOf(k: ReadingKey): HourKey {
    HourKey(k.station, KstHourOf(k.tsUtc))
  }

  function Members(readings: map<ReadingKey, ReadingRow>, from: Option<int>, to: Option<int>, b: HourKey): set<ReadingKey> {
    set k | k in readings && InWindow(k.tsUtc, from, to) && BucketOf(k) == b
  }

  function Buckets(readings: map<ReadingKey, ReadingRow>, from: Option<int>, to: Option<int>): set<HourKey> {
    set k | k in readings && InWindow(k.tsUtc, from, to) :: BucketOf(k)
  }

  /** The levels of a bucket's readings, which the energy average is computed from. */
  function LevelsOf(readings: map<ReadingKey, ReadingRow>, members: set<ReadingKey>): map<ReadingKey, real> {
    map k | k in members && k in readings :: readings[k].level
  }

  /**
   * The rows the `WITH h AS (...)` query proposes: one per bucket holding a reading of the
   * window, with `COUNT(*)` and the energy average `laeqOf`, `10*LOG10(AVG(POWER(10, level/10)))`.
   */
  function RefreshBatch(readings: map<ReadingKey, ReadingRow>, from: Option<int>, to: Option<int>,
                        laeqOf: map<ReadingKey, real> -> real): map<HourKey, HourRow>
  {
    map b | b in Buckets(readings, from, to) ::
      HourRow(Some(|Members(readings, from, to, b)|), laeqOf(LevelsOf(readings, Members(readings, from, to, b))))
  }

  /** A bucket row exists exactly for the hours holding a reading of the window, and counts them. */
  lemma RefreshBatchCounts(readings: map<ReadingKey, ReadingRow>, from: Option<int>, to: Option<int>,
                           laeqOf: map<ReadingKey, real> -> real, b: HourKey)
    ensures b in RefreshBatch(readings, from, to, laeqOf) <==> Members(readings, from, to, b) != {}
    ensures b in RefreshBatch(readings, from, to, laeqOf) ==>
      RefreshBatch(readings, from, to, laeqOf)[b].samples == Some(|Members(readings, from, to, b)|)
  {
    if Members(readings, from, to, b) != {} {
      var k :| k in Members(readings, from, to, b);
      assert BucketOf(k) in Buckets(readings, from, to);
    }
    if b in Buckets(readings, from, to) {
      var k :| k in readings && InWindow(k.tsUtc, from, to) && BucketOf(k) == b;
      assert k in Members(readings, from, to, b);
    }
  }

  ghost function Pick<T>(s: set<T>): T
    requires s != {}
  {
    var x :| x in s; x
  }

  /** The sum of the sample counts of the buckets in `bs`. */
  ghost function CountIn(readings: map<ReadingKey, ReadingRow>, from: Option<int>, to: Option<int>, bs: set<HourKey>): nat
    decreases bs
  {
    if bs == {} then 0
    else
      var b := Pick(bs);
      |Members(readings, from, to, b)| + CountIn(readings, from, to, bs - {b})
  }

  /** The readings of the window that fall in one of the buckets `bs`. */
  function Covered(readings: map<ReadingKey, ReadingRow>, from: Option<int>, to: Option<int>, bs: set<HourKey>): set<ReadingKey> {
    set k | k in readings && InWindow(k.tsUtc, from, to) && BucketOf(k) in bs
  }

  lemma {:induction false} CountInIsCovered(readings: map<ReadingKey, ReadingRow>, from: Option<int>, to: Option<int>, bs: set<HourKey>)
    ensures CountIn(readings, from, to, bs) == |Covered(readings, from, to, bs)|
    decreases bs
  {
    if bs != {} {
      var b := Pick(bs);
      CountInIsCovered(readings, from, to, bs - {b});
      var rest := Covered(readings, from, to, bs - {b});
      var here := Members(readings, from, to, b);
      assert Covered(readings, from, to, bs) == rest + here;
      assert rest * here == {};
    } else {
      assert Covered(readings, from, to, bs) == {};
    }
  }

  /** The sample counts of all buckets add up to the number of readings in the window. */
  lemma CountsSumToWindow(readings: map<ReadingKey, ReadingRow>, from: Option<int>, to: Option<int>)
    ensures CountIn(readings, from, to, Buckets(readings, from, to)) == |Window(readings, from, to)|
  {
    CountInIsCovered(readings, from, to, Buckets(readings, from, to));
    assert Covered(readings, from, to, Buckets(readings, from, to)) == Window(readings, from, to);
  }

  /** A whole-hour reading is the only reading of its station in its bucket. */
  lemma OnTheHourAlone(k: ReadingKey, j: ReadingKey)
    requires OnTheHour(k.tsUtc) && OnTheHour(j.tsUtc) && BucketOf(k) == BucketOf(j)
    ensures k == j
  {
    assert k.tsUtc + KstOffsetHours * SecondsPerHour == KstHourOf(k.tsUtc) * SecondsPerHour;
    assert j.tsUtc + KstOffsetHours * SecondsPerHour == KstHourOf(j.tsUtc) * SecondsPerHour;
  }

  /** When every reading is on the hour, as `insert_measurements` writes them, every bucket counts one sample. */
  lemma OnTheHourReadingsCountOne(readings: map<ReadingKey, ReadingRow>, from: Option<int>, to: Option<int>,
                                  laeqOf: map<ReadingKey, real> -> real, b: HourKey)
    requires forall k :: k in readings ==> OnTheHour(k.tsUtc)
    requires b in RefreshBatch(readings, from, to, laeqOf)
    ensures RefreshBatch(readings, from, to, laeqOf)[b].samples == Some(1)
  {
    RefreshBatchCounts(readings, from, to, laeqOf, b);
    var m := Members(readings, from, to, b);
    var k :| k in m;
    forall j | j in m ensures j == k {
      OnTheHourAlone(k, j);
    }
    assert m == {k};
  }

  // ---------------------------------------------------------------- day/night and hour levels

  /** A row of the frame `insert_day_night_levels` receives, its date converted. */
  datatype DayLevel = DayLevel(station: string, day: int, laeqDay: real, laeqNight: real)

  /** Every date cell of the batch converts to a date. */
  predicate DatesConvert(records: seq<Sheet.DayNightRecord>, castDate: Sheet.Cell -> Option<int>) {
    forall i :: 0 <= i < |records| ==> castDate(records[i].date).Some?
  }

  /** The batch with its date cells converted by the `DATE` column. */
  function DayLevels(records: seq<Sheet.DayNightRecord>, castDate: Sheet.Cell -> Option<int>): (levels: seq<DayLevel>)
    requires DatesConvert(records, castDate)
    ensures |levels| == |records|
    ensures forall i :: 0 <= i < |records| ==>
      (levels[i].station == records[i].station && Some(levels[i].day) == castDate(records[i].date)
       && levels[i].laeqDay == records[i].laeqDay && levels[i].laeqNight == records[i].laeqNight)
  {
    seq(|records|, i requires 0 <= i < |records| && DatesConvert(records, castDate) =>
      DayLevel(records[i].station, castDate(records[i].date).value, records[i].laeqDay, records[i].laeqNight))
  }

  /** The `noise_level_d` row of one converted day/night record. */
  function DayRowOf(stations: map<string, StationRow>, d: DayLevel): (DayKey, DayRow)
    requires d.station in stations
  {
    (DayKey(stations[d.station].id, d.day), DayRow(d.laeqDay, d.laeqNight))
  }

  /** The join of the day/night batch with `stations`. */
  function DayRows(stations: map<string, StationRow>, levels: seq<DayLevel>): (rows: seq<(DayKey, DayRow)>)
    ensures forall row :: row in rows <==> exists d :: d in levels && d.station in stations && row == DayRowOf(stations, d)
  {
    if |levels| == 0 then []
    else
      var rest := DayRows(stations, levels[1..]);
      assert forall d :: d in levels <==> d == levels[0] || d in levels[1..];
      if levels[0].station in stations then [DayRowOf(stations, levels[0])] + rest else rest
  }

  /** The `noise_level_h` key and proposed row of one `insert_hours_levels` row. */
  function HourLevelRowOf(stations: map<string, StationRow>, h: HourLevel): (HourKey, HourRow)
    requires h.station in stations
  {
    (HourKey(stations[h.station].id, LocalHourStart(h.day, h.hour)), HourRow(None, h.laeq))
  }

  function HourLevelRows(stations: map<string, StationRow>, levels: seq<HourLevel>): (rows: seq<(HourKey, HourRow)>)
    ensures forall row :: row in rows <==> exists h :: h in levels && h.station in stations && row == HourLevelRowOf(stations, h)
  {
    if |levels| == 0 then []
    else
      var rest := HourLevelRows(stations, levels[1..]);
      assert forall h :: h in levels <==> h == levels[0] || h in levels[1..];
      if levels[0].station in stations then [HourLevelRowOf(stations, levels[0])] + rest else rest
  }

  /** `DO UPDATE SET laeq = EXCLUDED.laeq`: a stored row keeps its sample count; a new row has none. */
  function SetLaeq(stored: Option<HourRow>, proposed: HourRow): HourRow {
    match stored
    case Some(row) => row.(laeq := proposed.laeq)
    case None => HourRow(None, proposed.laeq)
  }

  lemma SetLaeqSettles()
    ensures Settles(SetLaeq)
  {
  }

  // ---------------------------------------------------------------- properties of the statements

  /** Every record of a known station is stored under its station id and UTC instant, with its level and part of day. */
  lemma MeasurementStored(stations: map<string, StationRow>, readings: map<ReadingKey, ReadingRow>,
                          records: seq<Sheet.HourRecord>, rec: Sheet.HourRecord)
    requires DistinctKeys(MeasurementRows(stations, records))
    requires rec in records && rec.station in stations
    ensures var r := Upsert(readings, BatchMap(MeasurementRows(stations, records)), Overwrite);
      ReadingKey(stations[rec.station].id, ToUtc(rec.day, rec.hour)) in r
      && r[ReadingKey(stations[rec.station].id, ToUtc(rec.day, rec.hour))] == ReadingRow(rec.level, PartOfDayOf(rec.hour))
  {
    var rows := MeasurementRows(stations, records);
    assert ReadingOf(stations, rec) in rows;
    var i :| 0 <= i < |rows| && rows[i] == ReadingOf(stations, rec);
    UpsertRow(readings, rows, Overwrite, i);
  }

  /** A record whose station is not in `stations` contributes no row. */
  lemma {:induction false} UnknownStationDropped(stations: map<string, StationRow>, before: seq<Sheet.HourRecord>,
                                                 rec: Sheet.HourRecord, after: seq<Sheet.HourRecord>)
    requires rec.station !in stations
    ensures MeasurementRows(stations, before + [rec] + after) == MeasurementRows(stations, before + after)
  {
    if |before| == 0 {
      assert [rec] + after == before + [rec] + after;
      assert ([rec] + after)[1..] == after;
      assert before + after == after;
    } else {
      UnknownStationDropped(stations, before[1..], rec, after);
      assert (before + [rec] + after)[1..] == before[1..] + [rec] + after;
      assert (before + after)[1..] == before[1..] + after;
    }
  }

  /** Station ids are distinct per station. */
  ghost predicate IdsDistinct(stations: map<string, StationRow>) {
    forall a, b :: a in stations && b in stations && stations[a].id == stations[b].id ==> a == b
  }

  /** The records name hours 1..24 and no two of them share station, day and hour. */
  predicate DistinctCells(records: seq<Sheet.HourRecord>) {
    && (forall i :: 0 <= i < |records| ==> 1 <= records[i].hour <= 24)
    && (forall i, j :: 0 <= i < j < |records| ==>
          (records[i].station, records[i].day, records[i].hour) != (records[j].station, records[j].day, records[j].hour))
  }

  /**
   * The duplicate-key error cannot happen unless two records share station, day and hour:
   * distinct cells give distinct (station id, UTC instant) keys.
   */
  lemma {:induction false} DistinctCellsDistinctKeys(stations: map<string, StationRow>, records: seq<Sheet.HourRecord>)
    requires IdsDistinct(stations) && DistinctCells(records)
    ensures DistinctKeys(MeasurementRows(stations, records))
  {
    if |records| > 0 {
      var tail := records[1..];
      assert DistinctCells(tail) by {
        forall i, j | 0 <= i < j < |tail| ensures (tail[i].station, tail[i].day, tail[i].hour) != (tail[j].station, tail[j].day, tail[j].hour) {
          assert tail[i] == records[i + 1] && tail[j] == records[j + 1];
        }
        forall i | 0 <= i < |tail| ensures 1 <= tail[i].hour <= 24 {
          assert tail[i] == records[i + 1];
        }
      }
      DistinctCellsDistinctKeys(stations, tail);
      var rest := MeasurementRows(stations, tail);
      var r0 := records[0];
      if r0.station in stations {
        forall j | 0 <= j < |rest| ensures rest[j].0 != ReadingOf(stations, r0).0 {
          assert rest[j] in rest;
          var other :| other in tail && other.station in stations && rest[j] == ReadingOf(stations, other);
          var m :| 0 <= m < |tail| && tail[m] == other;
          assert records[m + 1] == other;
          ToUtcInjective(r0.day, r0.hour, other.day, other.hour);
        }
        var rows := [ReadingOf(stations, r0)] + rest;
        forall i, j | 0 <= i < j < |rows| ensures rows[i].0 != rows[j].0 {
          if i > 0 {
            assert rows[i] == rest[i - 1] && rows[j] == rest[j - 1];
          } else {
            assert rows[j] == rest[j - 1];
          }
        }
      }
    }
  }

  /** Inserting the same batch of measurements twice leaves `noise_reading` as inserting it once. */
  lemma MeasurementsTwice(stations: map<string, StationRow>, readings: map<ReadingKey, ReadingRow>, records: seq<Sheet.HourRecord>)
    ensures var batch := BatchMap(MeasurementRows(stations, records));
      Upsert(Upsert(readings, batch, Overwrite), batch, Overwrite) == Upsert(readings, batch, Overwrite)
  {
    OverwriteSettles<ReadingRow>();
    UpsertIdempotent(readings, BatchMap(MeasurementRows(stations, records)), Overwrite);
  }

  /** Refreshing a window again without new readings leaves `noise_level_h` as refreshing it once. */
  lemma RefreshTwice(readings: map<ReadingKey, ReadingRow>, hourly: map<HourKey, HourRow>, from: Option<int>, to: Option<int>,
                     laeqOf: map<ReadingKey, real> -> real)
    ensures var batch := RefreshBatch(readings, from, to, laeqOf);
      Upsert(Upsert(hourly, batch, Overwrite), batch, Overwrite) == Upsert(hourly, batch, Overwrite)
  {
    OverwriteSettles<HourRow>();
    UpsertIdempotent(hourly, RefreshBatch(readings, from, to, laeqOf), Overwrite);
  }

  /** A stored measurement falls in the hour bucket that `insert_hours_levels` writes for the same day and hour. */
  lemma MeasurementBucketIsHourLevelKey(stations: map<string, StationRow>, rec: Sheet.HourRecord, laeq: real)
    requires rec.station in stations && 1 <= rec.hour <= 24
    ensures BucketOf(ReadingOf(stations, rec).0) == HourLevelRowOf(stations, HourLevel(rec.station, rec.day, rec.hour, laeq)).0
  {
    ToUtcRoundTrip(rec.day, rec.hour);
  }

  /** `insert_hours_levels` sets the level and keeps a stored sample count; a row it creates has no count. */
  lemma HoursLevelsKeepSamples(stations: map<string, StationRow>, hourly: map<HourKey, HourRow>, levels: seq<HourLevel>, h: HourLevel)
    requires DistinctKeys(HourLevelRows(stations, levels))
    requires h in levels && h.station in stations
    ensures var k := HourLevelRowOf(stations, h).0;
      var r := Upsert(hourly, BatchMap(HourLevelRows(stations, levels)), SetLaeq);
      k in r && r[k].laeq == h.laeq
      && r[k].samples == (if k in hourly then hourly[k].samples else None)
  {
    var rows := HourLevelRows(stations, levels);
    assert HourLevelRowOf(stations, h) in rows;
    var i :| 0 <= i < |rows| && rows[i] == HourLevelRowOf(stations, h);
    UpsertRow(hourly, rows, SetLaeq, i);
  }

  /** Inserting the same hour levels twice leaves `noise_level_h` as inserting them once. */
  lemma HoursLevelsTwice(stations: map<string, StationRow>, hourly: map<HourKey, HourRow>, levels: seq<HourLevel>)
    ensures var batch := BatchMap(HourLevelRows(stations, levels));
      Upsert(Upsert(hourly, batch, SetLaeq), batch, SetLaeq) == Upsert(hourly, batch, SetLaeq)
  {
    SetLaeqSettles();
    UpsertIdempotent(hourly, BatchMap(HourLevelRows(stations, levels)), SetLaeq);
  }

  /** Every day/night record of a known station is stored under its station id and date, with both levels. */
  lemma DayNightStored(stations: map<string, StationRow>, daily: map<DayKey, DayRow>, levels: seq<DayLevel>, d: DayLevel)
    requires DistinctKeys(DayRows(stations, levels))
    requires d in levels && d.station in stations
    ensures var r := Upsert(daily, BatchMap(DayRows(stations, levels)), Overwrite);
      DayKey(stations[d.station].id, d.day) in r && r[DayKey(stations[d.station].id, d.day)] == DayRow(d.laeqDay, d.laeqNight)
  {
    var rows := DayRows(stations, levels);
    assert DayRowOf(stations, d) in rows;
    var i :| 0 <= i < |rows| && rows[i] == DayRowOf(stations, d);
    UpsertRow(daily, rows, Overwrite, i);
  }

  /** Inserting the same day/night levels twice leaves `noise_level_d` as inserting them once. */
  lemma DayNightTwice(stations: map<string, StationRow>, daily: map<DayKey, DayRow>, levels: seq<DayLevel>)
    ensures var batch := BatchMap(DayRows(stations, levels));
      Upsert(Upsert(daily, batch, Overwrite), batch, Overwrite) == Upsert(daily, batch, Overwrite)
  {
    OverwriteSettles<DayRow>();
    UpsertIdempotent(daily, BatchMap(DayRows(stations, levels)), Overwrite);
  }

  // ---------------------------------------------------------------- the store

  class Store {
    var stations: map<string, StationRow>
    /** The next value of the `stations.station_id` sequence. */
    var nextId: nat
    var readings: map<ReadingKey, ReadingRow>
    var hourly: map<HourKey, HourRow>
    var daily: map<DayKey, DayRow>

    /** Ids are below the sequence and distinct; every row refers to a station (the foreign keys). */
    ghost predicate Valid()
      reads this
    {
      TablesValid(stations, nextId, readings, hourly, daily)
    }

    /** Empty tables after `ensure_tables`. */
    constructor ()
      ensures Valid()
      ensures stations == map[] && nextId == 1 && readings == map[] && hourly == map[] && daily == map[]
    {
      stations := map[];
      nextId := 1;
      readings := map[];
      hourly := map[];
      daily := map[];
    }

    /** `upsert_stations`: one insert per distinct name, in sorted order, doing nothing on a known name. */
    method UpsertStations(names: seq<string>)
      requires Valid()
      modifies this
      ensures Valid()
      ensures (stations, nextId) == AddStations(old(stations), old(nextId), SortedNames(names))
      ensures readings == old(readings) && hourly == old(hourly) && daily == old(daily)
    {
      var sorted := SortedNames(names);
      var table, next := InsertNames(stations, nextId, sorted);
      AddStationsKeepsValid(stations, nextId, readings, hourly, daily, sorted);
      stations, nextId := table, next;
    }

    /** `insert_measurements`: one statement upserting the joined rows, overwriting level and part of day. */
    method InsertMeasurements(records: seq<Sheet.HourRecord>) returns (outcome: Outcome)
      requires Valid()
      modifies this
      ensures Valid()
      ensures var rows := MeasurementRows(old(stations), records);
        if DistinctKeys(rows) then outcome == Done && readings == Upsert(old(readings), BatchMap(rows), Overwrite)
        else outcome == DuplicateKey && readings == old(readings)
      ensures stations == old(stations) && nextId == old(nextId) && hourly == old(hourly) && daily == old(daily)
    {
      var rows := MeasurementRows(stations, records);
      if !DistinctKeys(rows) {
        return DuplicateKey;
      }
      readings := Upsert(readings, BatchMap(rows), Overwrite);
      forall k: ReadingKey | k in BatchMap(rows) ensures HasId(stations, k.station) {
        var i :| 0 <= i < |rows| && rows[i].0 == k;
        assert rows[i] in rows;
      }
      return Done;
    }

    /** `refresh_hours_from_readings`: recount and re-average every bucket of the window, overwriting. */
    method RefreshHoursFromReadings(from: Option<int>, to: Option<int>, laeqOf: map<ReadingKey, real> -> real)
      requires Valid()
      modifies this
      ensures Valid()
      ensures hourly == Upsert(old(hourly), RefreshBatch(old(readings), from, to, laeqOf), Overwrite)
      ensures stations == old(stations) && nextId == old(nextId) && readings == old(readings) && daily == old(daily)
    {
      hourly := Upsert(hourly, RefreshBatch(readings, from, to, laeqOf), Overwrite);
    }

    /** `insert_day_night_levels`: one statement upserting the joined rows, overwriting both levels. */
    method InsertDayNightLevels(records: seq<Sheet.DayNightRecord>, castDate: Sheet.Cell -> Option<int>) returns (outcome: Outcome)
      requires Valid()
      modifies this
      ensures Valid()
      ensures !DatesConvert(records, castDate) ==> outcome == BadDate && daily == old(daily)
      ensures DatesConvert(records, castDate) ==>
        var rows := DayRows(old(stations), DayLevels(records, castDate));
        if DistinctKeys(rows) then outcome == Done && daily == Upsert(old(daily), BatchMap(rows), Overwrite)
        else outcome == DuplicateKey && daily == old(daily)
      ensures stations == old(stations) && nextId == old(nextId) && readings == old(readings) && hourly == old(hourly)
    {
      if !DatesConvert(records, castDate) {
        return BadDate;
      }
      var rows := DayRows(stations, DayLevels(records, castDate));
      if !DistinctKeys(rows) {
        return DuplicateKey;
      }
      daily := Upsert(daily, BatchMap(rows), Overwrite);
      forall k: DayKey | k in BatchMap(rows) ensures HasId(stations, k.station) {
        var i :| 0 <= i < |rows| && rows[i].0 == k;
        assert rows[i] in rows;
      }
      return Done;
    }

    /** `insert_hours_levels`: upserts hour levels, overwriting only `laeq`. */
    method InsertHoursLevels(levels: seq<HourLevel>) returns (outcome: Outcome)
      requires Valid()
      modifies this
      ensures Valid()
      ensures var rows := HourLevelRows(old(stations), levels);
        if DistinctKeys(rows) then outcome == Done && hourly == Upsert(old(hourly), BatchMap(rows), SetLaeq)
        else outcome == DuplicateKey && hourly == old(hourly)
      ensures stations == old(stations) && nextId == old(nextId) && readings == old(readings) && daily == old(daily)
    {
      var rows := HourLevelRows(stations, levels);
      if !DistinctKeys(rows) {
        return DuplicateKey;
      }
      hourly := Upsert(hourly, BatchMap(rows), SetLaeq);
      forall k: HourKey | k in BatchMap(rows) ensures HasId(stations, k.station) {
        var i :| 0 <= i < |rows| && rows[i].0 == k;
        assert rows[i] in rows;
      }
      return Done;
    }
  }
}
