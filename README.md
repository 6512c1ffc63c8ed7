# Noise-monitoring ingestion core, modelled in Dafny

This project models the ingestion-and-aggregation core of a pipeline that loads spreadsheet
exports from environmental noise-monitoring stations into PostgreSQL. The model covers these parts:

- **The sheet parser** (`parse_sheet`, in both variants). It finds the `측정일` header row among
  the first 30 rows, picks the date column and keeps the rows whose date parses. It then
  recognises the hour columns (labels that round to 1..24), melts the table to one record per
  (row, hour column) and extracts day/night level pairs.
- **The helpers around it.** `find_year_month` is a first match of `YYYY년 M월` with month 1..12,
  scanned column by column. Station-name cleaning removes `(시간별)` and trims. `load_db_config`
  is a line-based `key=value` reader.
- **Time normalisation.** A local date and an hour 1..24 become the instant
  `date + (hour-1) h` in Asia/Seoul (fixed UTC+9), in UTC seconds. Hours 7..21 are `day`.
- **The store.** `stations`, `noise_reading`, `noise_level_h` and `noise_level_d` are maps keyed by
  their natural keys, held in the class `NoiseStore.Store`. Its methods are the SQL statements
  that write the tables: `upsert_stations`, `insert_measurements`, `refresh_hours_from_readings`,
  `insert_day_night_levels` and `insert_hours_levels`.
- **The peak query** (`fetch_peak_times`). It returns the loudest hour per (station, date) and per
  station, with ties going to the earlier date and then the earlier hour.

The two source files, `app/main_file.py` and the older `app/main.py`, have textually identical
`upsert_stations`, `insert_measurements`, `find_year_month` and `load_db_config` loops. The
rows below cite `app/main_file.py` for them. `app/main.py`'s `parse_sheet` has no day/night output.
It is modelled separately as `Sheet.ParseSheetV1`, and `SheetProperties.VariantsAgree` relates it
to the newer parser.

Modelling choices:

- **Cells** are `Blank | Num | Text | Date`. The pandas conversions are the fields of a
  `Sheet.Coercion` value: `str()`, `pd.to_datetime`, `int(round(float(label)))`, and `pd.to_numeric`
  after `,`→`.` with `.round(2)`. They are modelled as arbitrary partial functions, so every parser
  property holds whatever they do.
- **Row filters.** `df[dts.notna()]`, one hour column's `melt` followed by `dropna`, and the
  day/night `dropna` each keep the rows for which a partial function has a result, in row order.
  `FilterMaps.FilterMapInOrder` proves once what such a filter keeps: one output per row that has a
  result, no row twice, in order. The sheet lemmas reuse it for each of the three.
- **A merge-on-conflict statement** is `Merge.Upsert`. A proposed key gets `merge(stored, proposed)`
  and every other key keeps its row. PostgreSQL refuses an `ON CONFLICT DO UPDATE` statement that
  proposes one key twice. That case is the `DuplicateKey` outcome, and it leaves the table unchanged.
- **Ids.** A `SERIAL` id is drawn even when `DO NOTHING` skips the insert, so `Store.nextId`
  advances on every insert.
- **Time.** Timestamps are integers (UTC seconds), and `noise_level_h` is keyed by local hour numbers.
- **Day boundaries.** Hour 1 of 2024-03-01 is `2024-03-01 00:00` KST, which is 2024-02-29 15:00Z
  (`KstTime.DayBoundariesInUtc`).
- **Peak hours** are `EXTRACT(HOUR FROM ts_hour_kst)`, which is 0..23. An input hour `h` is
  therefore reported as `h - 1` (`KstTime.ToUtcRoundTrip`). `global_peak` rows carry their date,
  as the query selects `d_kst` for them too.

## Model

| member | source | states |
|---|---|---|
| Strings.TrimLeftShape | app/main_file.py:23 | the result is a suffix of the input; every dropped character satisfies the predicate and the first kept one does not (`lstrip`) |
| Strings.TrimRightShape | app/main_file.py:26-27 | the result is a prefix; every dropped character satisfies the predicate and the last kept one does not (`rstrip`) |
| Strings.ReplaceChar | app/main_file.py:161 | same length, and the replaced character no longer occurs (`str.replace(",", ".")`) |
| Strings.IndexOf | app/main_file.py:175-176 | the first position holding the element, or absence exactly when it does not occur |
| Strings.ContainsAroundSpace | app/main_file.py:117 | a marker without a space occurs in `a + " " + b` exactly when it occurs in `a` or in `b` |
| Strings.ContainsInJoin | app/main_file.py:117 | a space-free marker occurs in the space-joined row text iff it occurs in one of the cells |
| Ordering.SortedUnique | app/main_file.py:263 | `sorted(set(names))`: strictly increasing, and exactly the elements of the input |
| Ordering.SortedIsUnique | app/main_file.py:152 | two strictly sorted sequences with the same elements are equal, so `sorted(set(...))` is determined |
| Ordering.StrLessIsStrictTotal | app/main_file.py:263 | string order is irreflexive, transitive and total |
| KstTime.ToUtcRoundTrip | app/main_file.py:295-296 | the stored instant is on the hour; its KST hour is `date + (hour-1)`, whose date is the input date and whose hour of day is `hour - 1` |
| KstTime.ToUtcInjective | app/main_file.py:295-296 | for hours 1..24, two (date, hour) pairs give the same instant iff they are equal |
| KstTime.ToUtcOnto | app/main_file.py:295-296 | every on-the-hour instant is the image of exactly one local date and hour 1..24 |
| KstTime.PartOfDayMatchesInstant | app/main_file.py:298 | `day` iff the hour is 7..21, i.e. iff the stored instant's KST hour of day is 6..20 |
| KstTime.DayBoundariesInUtc | app/main_file.py:295-296 | hour 1 of a date is 15:00Z of the previous day; hour 24 is 14:00Z of the date |
| Sheet.Width | app/main_file.py:112 | the frame's width is the length of its longest row: every row fits, some row has exactly that length, and an empty sheet has width 0 |
| Sheet.RowCells | app/main_file.py:117 | a row read at the frame's width has that width and reads blank past its end |
| Sheet.HeaderRowHasMarkerCell | app/main_file.py:117 | the joined-text test for `측정일` holds iff some cell's text contains it |
| Sheet.HeaderRowFrom | app/main_file.py:116-119 | the first row at or after `i` and below `min(30, n)` that holds the marker, or None when none does |
| Sheet.FindHeaderRow | app/main_file.py:115-119 | the header scan loop with `break` returns the first marked row, below 30 and below the row count |
| Sheet.DateColumn | app/main_file.py:132-133 | the first label that is a string containing `측정` or `시간`, else column 0 with no such label |
| SheetProperties.KeptRowsInOrder | app/main_file.py:136-137 | `df[dts.notna()]`: the kept rows are exactly the rows whose date cell parses, each once and in sheet order, each with its parsed date |
| Sheet.HourColumnsUpTo | app/main_file.py:142-151 | the accepted columns among the first `n`, in increasing column order, each with its hour; every accepted column is listed |
| Sheet.CollectHourColumns | app/main_file.py:141-151 | the append loop builds exactly the accepted hour columns |
| Sheet.Hours | app/main_file.py:152 | strictly increasing and exactly the hours of the accepted columns |
| Sheet.MeltColumn | app/main_file.py:155-163 | one column melts to at most one record per kept row |
| Sheet.FirstLabelled | app/main_file.py:175-176 | the first candidate name present among the labels, or None when no candidate is present |
| Sheet.DayNightRows | app/main_file.py:179-186 | at most one day/night record per kept row |
| SheetProperties.DayNightRowsComplete | app/main_file.py:179-188 | every kept row whose day and night cells both convert yields its record |
| SheetProperties.DayNightRowsInOrder | app/main_file.py:179-188 | record `p` is the pair of the kept row at position `p`; every kept row whose two cells convert has a position, none has two, and the positions follow the row order |
| SheetProperties.DayNightRowsCount | app/main_file.py:179-188 | one record per kept row whose day and night cells both convert; one per kept row when all do |
| SheetProperties.DayNightCount | app/main_file.py:172-191 | with both labels present, the parser's day/night output has one record per dated row whose two cells convert; otherwise it is empty |
| Sheet.ParseSheet | app/main_file.py:104-193 | the imperative parser returns the parse its specification defines |
| Sheet.ParseSheetV1 | app/main.py:61-133 | the older parser returns the hourly records and hour list its specification defines |
| SheetProperties.NoMarkerNoOutput | app/main_file.py:120-125 | no `측정일` in the first `min(30, n)` rows gives empty records, hours and day/night output in both variants |
| SheetProperties.HeaderIsFirstMarkedRow | app/main_file.py:115-119 | the header is below 30, holds the marker, and no row above it does |
| SheetProperties.HourlyRecordsExactly | app/main_file.py:154-166 | a record is output iff it comes from a grid row below the header whose date parses and an accepted hour column whose cell coerces to the level |
| SheetProperties.MeltExactly | app/main_file.py:155-163 | as a set: every melted record is the record of some (kept row, hour column) cell that coerces, and every such cell's record is melted |
| SheetProperties.MeltInOrder | app/main_file.py:155-163 | `melt` then `dropna`: record `q` is the reading of the kept row and hour column at position `q`; every cell that coerces has a position, no cell has two, and the positions run hour column by hour column, row by row within a column |
| SheetProperties.MeltCount | app/main_file.py:155-163 | the number of melted records is the number of (kept row, hour column) cells that coerce |
| SheetProperties.MeltFull | app/main_file.py:155-163 | when every cell coerces, exactly (kept rows × hour columns) records |
| SheetProperties.HourlyInOrder | app/main_file.py:154-166 | the parser's hourly records, position by position, are the readings of the dated rows below the header under the hour columns, each cell with a level exactly once, stacked column by column |
| SheetProperties.HourlyCount | app/main_file.py:154-166 | one hourly record per dated row and hour column whose cell coerces; (dated rows × hour columns) when all do |
| SheetProperties.MeltBound | app/main_file.py:155-163 | at most (kept rows × hour columns) records |
| SheetProperties.HourlyRecordShape | app/main_file.py:164-165 | every record carries the given station label and an hour in 1..24 |
| SheetProperties.HourlyCountBound | app/main_file.py:154-166 | at most (data rows below the header × hour columns) records |
| SheetProperties.KeptRowOfGrid | app/main_file.py:128-137 | every kept row is a grid row below the header whose date cell parses to the kept date |
| SheetProperties.GridRowKept | app/main_file.py:128-137 | every grid row below the header whose date parses is kept |
| SheetProperties.HoursExactly | app/main_file.py:141-152 | hours are strictly increasing, within 1..24, exactly the accepted labels' hours; the date column and `date` never count |
| SheetProperties.DayNightRecordsFromLabelledColumns | app/main_file.py:172-191 | a day/night record exists only if a day label and a night label are both present, and comes from a kept row whose two cells coerce |
| SheetProperties.DayNightRowsSound | app/main_file.py:179-188 | every day/night record has the station label, the row's date cell, and the coerced day and night levels |
| SheetProperties.DayNightRecordsExactly | app/main_file.py:170-188 | with both a day and a night label present, a record is output iff it comes from a dated row below the header whose first day and first night cells both convert |
| SheetProperties.VariantsAgree | app/main.py:61-133 | the older parser's hourly records and hours equal the newer parser's |
| SheetProperties.V1EmptyWithoutHourLabels | app/main.py:98-114 | with a header but no label rounding to 1..24, the older parser returns no records and no hours |
| YearMonth.RunEnd | app/main_file.py:91 | the end of the run from `i`: at the end of the text or at the first character that does not match |
| YearMonth.RunEndRun | app/main_file.py:91 | every character of the run matches, so the run is maximal |
| YearMonth.MatchAtIsPattern | app/main_file.py:91 | a match at `i` is exactly a split into 4 digits, spaces, `년`, spaces, 1–2 digits, spaces, `월`, with the year and month values |
| YearMonth.SplitIsGreedy | app/main_file.py:91 | any split of a match uses maximal space and digit runs, so the match is unique |
| YearMonth.SearchFrom | app/main_file.py:94 | the leftmost match at or after `i`, or None when no position matches |
| YearMonth.FindYearMonthIsFirstStamp | app/main_file.py:89-99 | the result is the valid stamp of the first cell, column by column then row by row, whose first match has month 1..12; None when no cell has one |
| StationName.TaggedAndPaddedNamesAgree | app/main.py:239-245 | for a name without `(시간별)`, `X(시간별)`, ` X ` and `X` clean to the same station name |
| StationName.RemoveAllTagged | app/main.py:243 | removing the tag from `X(시간별)` gives back `X` when `X` holds no tag |
| StationName.RemoveAllAbsent | app/main.py:243 | a string without the tag is left unchanged |
| StationName.StripPadded | app/main.py:244 | surrounding spaces do not change the stripped name |
| StationName.CleanNameMayLeaveTag | app/main.py:243-244 | a single removal pass can leave a tag formed by the removal |
| DbConfig.Classify | app/main_file.py:23-27 | a line is skipped iff it has no `=` or starts with `#` after leading spaces |
| DbConfig.Classified | app/main_file.py:22 | one classification per line, in order |
| DbConfig.DropUnderscores | app/main_file.py:28 | removing underscores from a valid integer body leaves only digits |
| DbConfig.Finish | app/main_file.py:31-34 | success iff host, user, password and database are all present and non-empty; otherwise the first missing field is reported |
| DbConfig.LoadDbConfig | app/main_file.py:15-34 | the line loop returns the configuration or error its specification defines |
| DbConfig.ScanFailureSticks | app/main_file.py:28 | a bad port aborts the read: later lines change nothing |
| DbConfig.SkippedLinesIgnored | app/main_file.py:23-24 | inserting a skipped line anywhere does not change the result |
| DbConfig.AssignOthersUnchanged | app/main_file.py:27-28 | assigning one key leaves every other field unchanged |
| DbConfig.LastLineWins | app/main_file.py:22-28 | the last line assigning a key determines its value; for `port`, its parsed integer |
| DbConfig.PortDefaultsTo5432 | app/main_file.py:17 | with no `port` line the port is 5432 |
| DbConfig.MissingFieldRefused | app/main_file.py:31-33 | a required key never assigned makes the read fail |
| DbConfig.DecimalTextValue | app/main_file.py:28 | decimal digits read back to the number they print |
| DbConfig.ParseIntText | app/main_file.py:28 | `int()` reads back any printed integer |
| DbConfig.PlainIsKept | app/main_file.py:26 | a value without surrounding spaces or quotes survives `strip().strip("'\"")` |
| DbConfig.SettingLineReads | app/main_file.py:25-27 | `key=value` with a lower-case key and a plain value classifies as that assignment |
| DbConfig.RenderClassified | app/main_file.py:22-27 | the five written `key=value` lines classify as the five assignments in dictionary order |
| DbConfig.RenderRoundTrip | app/main_file.py:15-34 | reading the five `key=value` lines of a configuration gives that configuration back |
| Merge.Proposed | app/main_file.py:301 | the value proposed for a key comes from a batch row with that key |
| Merge.ProposedOfRow | app/main_file.py:301 | with distinct keys, the proposed value of a row's key is that row's value |
| Merge.BatchMap | app/main_file.py:292-300 | the batch as a map has exactly the batch's keys |
| Merge.Upsert | app/main_file.py:301-303 | afterwards the table holds the old keys and the batch's keys |
| Merge.UpsertRow | app/main_file.py:301-303 | each proposed row is merged with what was stored under its key |
| Merge.UpsertFrame | app/main_file.py:301-303 | keys outside the batch keep their rows, and no key disappears |
| Merge.UpsertIdempotent | app/main_file.py:301-303 | applying a batch twice gives the table applying it once gives, for a merge that settles |
| NoiseStore.AddStations | app/main_file.py:263-268 | the sequence advances once per insert, and every existing station keeps its row |
| NoiseStore.AddStationsRows | app/main_file.py:263-268 | afterwards there are the old names plus the inserted ones; each new name has its own fresh id at the placeholder location |
| NoiseStore.AddStationsKeepsValid | app/main_file.py:263-268 | inserts keep ids distinct and below the sequence, and keep every foreign key satisfied |
| NoiseStore.InsertNames | app/main_file.py:263-268 | the insert loop computes the table and sequence that `AddStations` defines |
| NoiseStore.SortedNames | app/main_file.py:263 | `sorted(set(names))`: strictly increasing and exactly the input names |
| NoiseStore.UpsertStationsAgain | app/main.py:163-169 | calling `upsert_stations` again with the same names changes no station row |
| NoiseStore.NewIdsFollowOrder | app/main_file.py:263-268 | with sorted distinct names, the i-th name, if new, gets id `nextId + i`: ids follow name order |
| NoiseStore.MeasurementRows | app/main_file.py:292-300 | the joined rows are exactly the records of known stations, keyed by station id and UTC instant, with the level and part of day |
| NoiseStore.MeasurementStored | app/main_file.py:292-303 | after the insert, every record of a known station is stored under (id, UTC instant) with its level and part of day |
| NoiseStore.UnknownStationDropped | app/main_file.py:300 | a record whose station has no `stations` row contributes nothing |
| NoiseStore.DistinctCellsDistinctKeys | app/main_file.py:292-303 | if no two records share station, date and hour, the statement cannot hit the duplicate-key error |
| NoiseStore.MeasurementsTwice | app/main_file.py:301-303 | inserting the same measurements twice leaves `noise_reading` as inserting them once |
| NoiseStore.RefreshBatchCounts | app/main_file.py:311-321 | a bucket row exists exactly for the KST hours holding a reading in the window, and counts those readings |
| NoiseStore.CountsSumToWindow | app/main_file.py:315-321 | the sample counts over all buckets add up to the number of readings in the window |
| NoiseStore.OnTheHourReadingsCountOne | app/main_file.py:314-315 | when every reading is on the hour, as `insert_measurements` stores them, every bucket counts one sample |
| NoiseStore.RefreshTwice | app/main_file.py:326-329 | refreshing again without new readings leaves `noise_level_h` unchanged |
| NoiseStore.MeasurementBucketIsHourLevelKey | app/main_file.py:389 | a stored measurement's KST bucket is the key `insert_hours_levels` writes for the same date and hour |
| NoiseStore.DayRows | app/main_file.py:352-356 | the joined rows are exactly the day/night records of known stations, keyed by station id and date |
| NoiseStore.DayNightStored | app/main_file.py:352-360 | after the insert, every record of a known station is stored with both levels |
| NoiseStore.DayNightTwice | app/main_file.py:357-360 | inserting the same day/night levels twice equals inserting them once |
| NoiseStore.HourLevelRows | app/main_file.py:385-393 | the joined rows are exactly the hour levels of known stations, keyed by station id and local hour |
| NoiseStore.HoursLevelsKeepSamples | app/main_file.py:394-396 | the level is set, a stored sample count is kept, and a row created here has no count |
| NoiseStore.HoursLevelsTwice | app/main_file.py:394-396 | inserting the same hour levels twice equals inserting them once |
| NoiseStore.Store.constructor | app/main_file.py:204-258 | empty tables, sequence at 1 |
| NoiseStore.Store.UpsertStations | app/main_file.py:262-268 | the table and sequence become `AddStations` of the sorted distinct names; other tables unchanged; invariant kept |
| NoiseStore.Store.InsertMeasurements | app/main_file.py:273-304 | a duplicate-key error and no change, or `noise_reading` overwritten with the joined batch; nothing else changes |
| NoiseStore.Store.RefreshHoursFromReadings | app/main_file.py:309-331 | `noise_level_h` is overwritten with the recounted buckets of the window; nothing else changes |
| NoiseStore.Store.InsertDayNightLevels | app/main_file.py:336-361 | an unconvertible date or a duplicate key changes nothing; otherwise `noise_level_d` is overwritten with the joined batch |
| NoiseStore.Store.InsertHoursLevels | app/main_file.py:366-397 | a duplicate-key error and no change, or `noise_level_h` upserted so that only `laeq` changes on a conflict |
| Peaks.Best | app/main_file.py:416-419 | the row `DISTINCT ON` keeps is a row of its group |
| Peaks.BestIsFirst | app/main_file.py:419 | the kept row precedes every other row of its group in `laeq DESC, d_kst, h_kst` order |
| Peaks.BestUnique | app/main_file.py:416-419 | the only row that precedes all others is the kept one |
| Peaks.CandidatesExactly | app/main_file.py:411-413 | an hourly row is considered iff it matches the station filter and its date lies in `[dfrom, dto)` |
| Peaks.DayPeakPerGroup | app/main_file.py:416-419 | every (station, date) with a row has exactly one day peak |
| Peaks.DayPeakIsLoudest | app/main_file.py:416-419 | a day peak has the greatest level of its day, and the earliest hour among equally loud rows |
| Peaks.GlobalPeakPerStation | app/main_file.py:422-425 | every station with a row has exactly one global peak |
| Peaks.GlobalPeakIsLoudest | app/main_file.py:422-425 | a global peak has the station's greatest level, then the earliest date, then the earliest hour |
| Peaks.GlobalPeakIsADayPeak | app/main_file.py:416-425 | a station's global peak is also a day peak, and it precedes the station's other day peaks |

## Left out

- Database plumbing is not modelled: `connect_engine`, `db_conn`, `run_sql`, `ensure_database`,
  the DDL of `ensure_tables`, temporary tables and `to_sql` uploads. The tables are in-memory maps.
- The energy average `10*LOG10(AVG(POWER(10, level/10)))` is the parameter `laeqOf` of
  `RefreshHoursFromReadings`, an arbitrary function of a bucket's levels. Floating point and
  logarithms are outside the model.
- The pandas conversions are not modelled: `pd.to_datetime`, `pd.to_numeric`, `.round(2)`,
  `str()` of a cell and `int(round(float(...)))`. They are abstract partial functions.
- NUMERIC(5,2)/NUMERIC(6,2) rounding and overflow are not modelled; levels are exact reals.
- Asia/Seoul is the fixed offset UTC+9; historical offsets in the time-zone database are not modelled.
- Only ASCII digits are accepted by `\d` in `find_year_month` and by `int()` in `load_db_config`.
  Python also accepts other Unicode decimal digits.
- `load_db_config` lower-cases keys with ASCII case folding. Python's `str.lower` is wider, but the
  result is the same for the five keys the reader looks for.
- Reading the files is not modelled. This covers file I/O, line splitting, `errors="replace"` decoding,
  and the Excel reading, prints and per-file `try/except` of `main()`. `LoadDbConfig` receives the lines.
- Transactions are not modelled. Each statement's error leaves its own table unchanged, but the
  rollback of the earlier statements of `main()`'s `engine.begin()` block is not.
- The driver sequence in `main()` (`upsert_stations`, then `insert_measurements`, refresh and day/night
  insert) is not modelled as one operation; each statement is.
- `created_at`/`updated_at` stamps from `now()`, the generated `src_month` column and the geometry
  type are not modelled.
- The database's conversion of a day/night date cell to `DATE` is the parameter `castDate` of
  `InsertDayNightLevels`. A cell it refuses is the `BadDate` outcome.
- Sheet.ParseSheet: for a repeated column label, the date column, the day column and the night
  column are each the first column carrying the label, whereas pandas would select all of them.
  Hour columns are taken by position, so columns with the same hour label are each melted.
- Sheet.ParseSheet: `pd.to_numeric(hour_raw).round()` on the melted hour labels is assumed to agree
  with the `int(round(float(label)))` that accepted the column, so both use `labelHour`.
- The `fetch_peak_times` output is modelled as two sets of rows. The final `ORDER BY` and the pandas
  frame split are left out.
- `app/forms_tables.py` (report writing) and `app/noise_map.py` (map rendering) are not part of this model.
