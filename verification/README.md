# Drone log database: a Dafny model of the backend core

The backend of the drone log database keeps pilots, drones, battery packs,
flight locations, settings and flights in one SQL database. It serves them
through a FastAPI application and imports flight logs, written by DJI
aircraft and EdgeTX radios, from the directory `/app/DroneLogImport`. This
project models the core of `backend/main.py` and proves properties of the
model. The core has five parts:

- **The robust duration of a flight** (`Duration`).
  - The telemetry timestamps are sorted.
  - With four or more of them, an inter-quartile-range filter with factor
    2.5 drops outliers before the span is taken.
- **The flight listing** (`FlightQuery`).
  - The flights table is filtered and counted.
  - It is then ordered by non-increasing date and cut to the
    `skip`/`limit` window.
  - Each listed flight carries its robust duration.
- **The endpoints that change the database** (`Store`, class
  `Store.Database`).
  - Updating a pilot and making a pilot the default.
  - Reading and writing settings.
  - Battery pack usage.
  - Deleting a flight location.
  - Creating and updating a flight, with the battery-pack links and cycle
    counts these move.
  - The tables are maps from primary key to row, which the methods
    reassign.
  - `Database.Valid` states the table constraints that every method keeps.
- **The bulk log import** (`LogImport`).
  - The first line of a file picks the DJI or the EdgeTX reader.
  - Each reader makes its checks in the source's order:
    - the file has rows;
    - the pilot exists;
    - the drone is named;
    - the date parses;
    - the log was not imported before;
    - there are samples;
    - the sample times can be compared with each other;
    - the samples span at least 30 seconds.
  - A file that passes is stored as a new valid flight. Its location is
    the first known location within 300 m of its start, or a new one at
    the start.
  - A log counts as imported when a stored flight came from it. The
    model also counts a file processed earlier in the same import. The
    session does not flush before it queries, so the source sees such a
    flight only after a later flush. Both readings agree, because the
    files of one directory have distinct names.
  - A file that raises rolls the whole import back.
- **The Python string operations the import relies on** (`Text`).
  - `in`, `startswith`, `split`, `strip`, `replace`, `os.path.basename`
    and the path normalisation into the import directory.

An EdgeTX log whose pilot does not exist fails with an error, and the
whole import is rolled back. The source means to skip such a file, but its
skip result refers to an undefined name (`file_id`), so the model does
what the code does.

The haversine distance, clocks, the file system and the text parsers are
parameters:

- `Store.Distance` is the distance function;
- `today` is the current date as text;
- `dirExists` says whether the import directory exists, and `files` is its
  list of CSV files;
- `LogImport.Parsers` holds the parsers `fromisoformat`, `strptime`,
  `float` and `int`. Each gives `None` where Python raises `ValueError`.
  A parsed date-time records whether it carries a UTC offset.

## Model

| member | source | states |
|---|---|---|
| Duration.MinOf | backend/main.py:1612 | `min(timestamps)`: an element of the sequence that is at most every element |
| Duration.MaxOf | backend/main.py:1612 | `max(timestamps)`: an element of the sequence that is at least every element |
| Duration.Insert | backend/main.py:57 | inserting into a sorted sequence keeps it sorted and adds exactly that element to its multiset |
| Duration.SortAsc | backend/main.py:57 | `sorted(...)`: the result is ascending and a permutation of the input |
| Duration.TimestampsOf | backend/main.py:57 | every sample's timestamp is collected, and every collected timestamp belongs to some sample |
| Duration.Within | backend/main.py:80 | the filter keeps exactly the values between the two bounds, inclusive |
| Duration.WithinSorted | backend/main.py:80 | filtering a sorted sequence leaves it sorted |
| Duration.WithinKeepsTwo | backend/main.py:80-82 | two distinct positions inside the bounds leave at least two survivors |
| Duration.SortedEnds | backend/main.py:57 | the sorted timestamps start at the minimum and end at the maximum |
| Duration.SortedPermutationEnds | backend/main.py:57-66 | any ascending permutation of the timestamps starts at their minimum and ends at their maximum |
| Duration.SortedDuration | backend/main.py:64-86 | the duration computed from sorted timestamps is never negative |
| Duration.RobustDuration | backend/main.py:52-86 | the robust duration is never negative |
| Duration.ShortInputIsZero | backend/main.py:54-60 | fewer than two samples, or fewer than two timestamps, give 0 |
| Duration.FewTimestampsSpan | backend/main.py:62-66 | two or three timestamps give the plain span, latest minus earliest |
| Duration.FallbackUnreachable | backend/main.py:69-84 | with four or more sorted timestamps, q1 and q3 always survive the filter, so the fallback of lines 82-84 is never taken |
| Duration.SurvivorBounds | backend/main.py:69-80 | the survivors start at or before q1 and end at or after q3, and lie within the first and last timestamp |
| Duration.SortedEndsBound | backend/main.py:80 | in a sorted sequence the first element bounds every member from below and the last from above |
| Duration.SortedPieceEnds | backend/main.py:80 | a non-empty sequence drawn from a sorted one starts no earlier and ends no later than it |
| Duration.SortedDurationWithin | backend/main.py:69-86 | with four or more sorted timestamps the duration is at least q3 - q1 and at most the full span |
| Duration.SortedDurationBounds | backend/main.py:57-86 | the same bounds, for a sorted permutation of the raw timestamps, with the full span as max minus min |
| Duration.LargeInputBounds | backend/main.py:52-86 | with four or more timestamps the robust duration lies between the inter-quartile span and the full span |
| FlightQuery.Filter | backend/main.py:1310-1322 | a row is kept exactly when it is a table row that passes every active filter; None or 0 ids and an absent date filter nothing, invalid flights only with `include_invalid` |
| FlightQuery.InsertByDate | backend/main.py:1332 | inserting into a date-ordered sequence keeps it in non-increasing date order and adds exactly that row |
| FlightQuery.SortByDateDesc | backend/main.py:1332 | `ORDER BY flight_date DESC`: non-increasing dates, a permutation of the input |
| FlightQuery.Window | backend/main.py:1332 | `OFFSET skip LIMIT limit`: the window has the SQLite length and is the slice from the offset |
| FlightQuery.ListAll | backend/main.py:1334-1336 | each listed flight is its row with its robust duration, in the same order |
| FlightQuery.ListedRows | backend/main.py:1334-1336 | listing matching rows in date order gives matching table rows with their robust durations, still in date order |
| FlightQuery.WindowOfOrdered | backend/main.py:1332 | a window of a date-ordered sequence holds rows of it, in date order |
| FlightQuery.ReadFlights | backend/main.py:1299-1338 | the page holds as many flights as the window leaves of the matching total |
| FlightQuery.ListedFlightsMatch | backend/main.py:1310-1338 | every listed flight is a table row that passes the filters and carries its robust duration, and the page is in non-increasing date order |
| FlightQuery.ListedWindow | backend/main.py:1310-1336 | the same facts for the listing of the window of the ordered matching rows |
| FlightQuery.TotalIgnoresWindow | backend/main.py:1324 | `total_flights` is counted before the window and does not depend on skip or limit |
| FlightQuery.DistinctFilter | backend/main.py:1310-1322 | filtering rows of distinct ids leaves rows of distinct ids |
| FlightQuery.DistinctCount | backend/main.py:1324 | rows of distinct ids are as many as the distinct rows among them |
| FlightQuery.TotalCountsMatchingFlights | backend/main.py:1324 | with distinct ids, the total is the number of table rows that pass the filters |
| FlightQuery.WindowsTile | backend/main.py:1332 | consecutive windows join into the window that spans both |
| FlightQuery.PagesTile | backend/main.py:1299-1338 | the page of `a` flights followed by the page of `b` flights from offset `skip + a` is the page of `a + b` flights |
| FlightQuery.ListingsTile | backend/main.py:1332-1336 | the listings of consecutive windows join into the listing of the window spanning both |
| FlightQuery.ListAllAppend | backend/main.py:1335-1336 | listing a concatenation is concatenating the listings |
| FlightQuery.UnlimitedListsAll | backend/main.py:1310-1338 | with no offset and no limit, every table row that passes the filters is listed |
| Store.LookupSetting | backend/main.py:624-632 | the only error is not found |
| Store.ReadAfterUpsert | backend/main.py:624-644 | after a write, a read of that key returns the value written and reads of other keys are unchanged |
| Store.SettingNotFoundIff | backend/main.py:624-632 | not found exactly when the key is missing and is not `show_dipul_map_link`; that key reads its stored value, else "true" |
| Store.LinkedOnCreate | backend/main.py:1288-1292 | the flight links exactly the requested ids that name a pack |
| Store.CyclesAfterCreate | backend/main.py:1288-1293 | each existing pack gains one cycle per occurrence of its id in the request; the other packs are unchanged |
| Store.CreateStep | backend/main.py:1289-1293 | one more requested id adds a cycle and the link for an existing pack, and nothing otherwise |
| Store.RepeatsIffCountedTwice | backend/main.py:1288-1293 | an id repeats in the request exactly when it occurs at least twice; otherwise it occurs once or not at all |
| Store.CreateKeepsCycleBalance | backend/main.py:1288-1295 | when the commit succeeds (no stored pack is requested twice), creating a flight adds one cycle to exactly the packs it links |
| Store.LinkAfterUpdate | backend/main.py:1368-1382 | a pack is linked afterwards exactly when it stays linked (still requested, or has no pack row) or is requested and exists |
| Store.CyclesAfterUpdate | backend/main.py:1368-1382 | unlinked packs lose a cycle, newly linked packs gain one, every other pack keeps its count |
| Store.LinkBecomesRequested | backend/main.py:1368-1382 | when every linked pack exists, the flight ends up linked to exactly the requested packs that exist |
| Store.UpdateIdempotent | backend/main.py:1356-1386 | repeating an update with the same pack ids changes neither the links nor the cycle counts |
| Store.UpdateKeepsCycleBalance | backend/main.py:1368-1382 | a pack's cycle count minus its link to the flight is the same before and after the update |
| Store.UsingFlights | backend/main.py:652-659 | the flights counted for a pack are table rows among those looked at |
| Store.SumDurations | backend/main.py:656-667 | a sum of robust durations is never negative |
| Store.SumDurationsRemove | backend/main.py:656-667 | the sum does not depend on the order in which the flights are added |
| Store.UsageStep | backend/main.py:656-667 | one more valid flight of the drone adds one to the count and its duration to the total of each pack it links, and changes nothing else |
| Store.PacksUsedAdd | backend/main.py:656-665 | one more flight adds its packs to the reported packs exactly when it is a valid flight of the drone |
| Store.CountFlight | backend/main.py:659-667 | the inner loop: after it, the usage map is the usage over the flights looked at plus this one |
| Store.StartOf | backend/main.py:1258-1260 | a start point exists exactly when the first sample has both coordinates, and it is that sample's position |
| Store.Scan | backend/main.py:1310 | the table scan holds exactly the stored flights in the id range, in ascending id order |
| Store.Database.Rollback | backend/main.py:1872 | drones, locations and flights return to the state taken before the import |
| Store.Database.UpdatePilot | backend/main.py:493-510 | unknown id is not found and changes nothing; otherwise the name is set, an explicit flag is stored, setting it clears at most one other pilot's flag, the other pilots keep their names, and at most one default pilot remains |
| Store.Database.SetDefaultPilot | backend/main.py:512-527 | unknown id is not found and changes nothing; otherwise this pilot becomes the default, at most one other pilot loses the flag, names are kept, and then this pilot is the only default |
| Store.Database.ClearDefault | backend/main.py:503-505 | a default pilot, if any, loses the flag; nothing else changes, and with at most one default none remains |
| Store.Database.FindOrCreateDrone | backend/main.py:1516-1523 | returns a drone of that name: the existing one without change, or a new row under a fresh id |
| Store.Database.GetSetting | backend/main.py:624-632 | reads the current settings table and fails exactly for a missing key other than `show_dipul_map_link` |
| Store.Database.UpsertSetting | backend/main.py:634-644 | the table maps the key to the value, the rest is unchanged, and a read returns the value |
| Store.Database.BatteryPackUsage | backend/main.py:646-669 | an unknown drone is not found; a known drone succeeds, reporting exactly the packs of its valid flights, each with the number of those flights and their summed robust duration, and the count is positive |
| Store.Database.FlightsAt | backend/main.py:812-815 | exactly the valid flights at the location |
| Store.Database.DeleteFlightLocation | backend/main.py:805-821 | 404 exactly for an unknown id; 400 with the count exactly when valid flights use it, changing nothing; otherwise it succeeds, only that location goes, and flights pointing at it lose the reference |
| Store.Database.NearestStoredLocation | backend/main.py:1263-1268 | the first location in id order within 300 m of the start, or none when no location is |
| Store.Database.AddLocation | backend/main.py:1272-1277 | a new location at the start point under a fresh id; the others are unchanged |
| Store.Database.AddFlight | backend/main.py:1279-1294 | the flight is stored under a fresh id; the others are unchanged |
| Store.Database.CreateFlight | backend/main.py:1254-1297 | fails exactly when a stored pack is requested twice, with the flights and cycles unchanged; otherwise a new valid flight with the requested fields and the existing requested packs linked and cycled. Either way the flight's start is placed at the first stored location within 300 m of the first sample, or at a new location there, or nowhere without a start point |
| Store.Database.LinkPacks | backend/main.py:1288-1293 | the loop links the existing requested packs and adds their cycles |
| Store.Database.UpdateFlight | backend/main.py:1356-1386 | unknown id is not found and changes nothing; a known id succeeds: pilot, drone, date and notes are overwritten. Unless the pack ids are an explicit `null`, the flight links exactly the requested existing packs, with the cycles moved; a body without the field requests none |
| Store.Database.RelinkPacks | backend/main.py:1368-1382 | the two loops leave the links and cycle counts of `LinkAfterUpdate` and `CyclesAfterUpdate` |
| Store.Database.FlightTable | backend/main.py:1310 | the table in id order: rows of distinct ids, holding exactly the stored flights |
| Store.Database.ReadFlights | backend/main.py:1299-1338 | the total counts the stored flights that pass the filters, and every listed flight is a stored flight that passes them |
| Text.Contains | backend/main.py:1485-1487 | Python's `sub in s`: true exactly when `sub` occurs at some position |
| Text.SplitOn | backend/main.py:1514 | `split(sep)`: one more field than separators, none holding the separator |
| Text.SplitJoin | backend/main.py:1514 | joining the fields with the separator gives back the text |
| Text.FirstFieldIsPrefix | backend/main.py:1514 | the first field is the text before the first separator |
| Text.SplitTwo | backend/main.py:1761 | two fields without the separator, joined by it, split back into exactly those two fields |
| Text.Replace | backend/main.py:1531 | `replace`: the text is unchanged without the character, and the character is gone when the replacement lacks it |
| Text.StripLeft | backend/main.py:1479 | the result is no longer and does not start with white space |
| Text.StripLeftShape | backend/main.py:1479 | only white space is dropped, from the front |
| Text.StripRight | backend/main.py:1479 | the result is no longer and does not end with white space |
| Text.StripRightShape | backend/main.py:1479 | only white space is dropped, from the back |
| Text.Strip | backend/main.py:1479 | `strip()`: the result neither starts nor ends with white space |
| Text.StripShape | backend/main.py:1514 | the stripped text occurs in the text, and is empty exactly when the text is all white space |
| Text.Basename | backend/main.py:1476 | `os.path.basename`: no '/' in the result |
| Text.BasenameIsSuffix | backend/main.py:1476 | the basename is the end of the path, preceded by '/' unless it is the whole path |
| Text.NormalizedLogPath | backend/main.py:1476 | the normalised path lies in the import directory |
| Text.NormalizedIffSameBasename | backend/main.py:1552-1555 | two paths normalise alike exactly when their basenames agree |
| Text.BasenameOfJoin | backend/main.py:1476 | the basename of a name joined onto a directory is that name |
| Text.NormalizedKeepsBasename | backend/main.py:1541 | normalising keeps the basename |
| Text.NormalizeIdempotent | backend/main.py:1553 | normalising a normalised path changes nothing |
| Text.SameBasenameEndsWith | backend/main.py:1545-1547 | the SQL pre-filter on the path suffix never drops a stored path with the same basename |
| LogImport.FormatNeedsMarker | backend/main.py:1479-1488 | DJI only when the header names `CUSTOM.dateTime`; EdgeTX only when it does not, and names `1RSS(dB)` or `TxBat(V)` |
| LogImport.StrippedContains | backend/main.py:1479-1485 | text found in the stripped header is in the header |
| LogImport.AircraftRow | backend/main.py:1509-1512 | the first row naming the aircraft: all rows before it name none |
| LogImport.FileDroneNameShape | backend/main.py:1692 | the name from the file name has no '-' and no surrounding white space, and occurs before the first '-' |
| LogImport.FindAircraftRow | backend/main.py:1509-1512 | the loop stops at the first row naming the aircraft |
| LogImport.FindDjiDroneName | backend/main.py:1508-1514 | the drone name is the first aircraft name in the rows, else the one from the file name |
| LogImport.FirstIsUnique | backend/main.py:1509-1512 | a position before which no row names the aircraft, and at which one does, is the first such row |
| LogImport.DatedRow | backend/main.py:1527-1534 | the first row with a usable date: rows before it have none |
| LogImport.FirstDatedIsUnique | backend/main.py:1527-1534 | a position before which no row has a usable date, and at which one does, is the first such row |
| LogImport.FindDatedRow | backend/main.py:1527-1534 | the loop stops at the first dated row |
| LogImport.FindDjiDate | backend/main.py:1526-1538 | the flight date is that of the first dated row, else none |
| LogImport.DjiPoint | backend/main.py:1569-1604 | a DJI row gives a sample exactly when it has a real time and both coordinates and its other cells convert (a speed column the file lacks reads as 0, a speed cell a short row does not reach drops the row); the sample holds that time and those coordinates |
| LogImport.EdgeTxPoint | backend/main.py:1746-1779 | an EdgeTX row gives a sample exactly when `Date` and `Time` are non-empty, their join parses and every telemetry cell present parses; the sample holds that time and the coordinates of the `GPS` cell |
| LogImport.EdgeTxGpsSplit | backend/main.py:1756-1765 | a `GPS` cell of two space-free fields around one space gives both coordinates, the latitude alone when the longitude does not parse, none when the latitude does not |
| LogImport.EdgeTxGpsNotTwoFields | backend/main.py:1756-1765 | a missing or empty `GPS` cell, or one without exactly one space, gives no coordinates |
| LogImport.EdgeTxPointWithoutGps | backend/main.py:1746-1776 | unlike a DJI row, a timed EdgeTX row without a `GPS` cell still gives a sample, without coordinates |
| LogImport.DjiPointsComplete | backend/main.py:1569-1600 | every DJI sample has a time and both coordinates |
| LogImport.EdgeTxPointsTimed | backend/main.py:1746-1776 | every EdgeTX sample has a time |
| LogImport.DjiPointsFromRows | backend/main.py:1569-1600 | each DJI sample is the one some row gives |
| LogImport.ExtractDjiPoints | backend/main.py:1566-1604 | the loop collects the samples of the rows, in order |
| LogImport.ExtractEdgeTxPoints | backend/main.py:1745-1779 | the loop collects the samples of the rows, in order |
| LogImport.ImportSpan | backend/main.py:1611-1612 | the checked duration, latest minus earliest sample time, is never negative |
| LogImport.RobustDurationWithinSpan | backend/main.py:1785-1786 | the robust duration later listed never exceeds the span the import checked |
| LogImport.FixIndex | backend/main.py:1794-1798 | the first sample with both coordinates: none before it has them |
| LogImport.FirstFixIsUnique | backend/main.py:1794-1798 | a position before which no sample has both coordinates, and at which one does, is the first such sample |
| LogImport.FindStartFix | backend/main.py:1792-1798 | the loop finds the start at the first sample with both coordinates |
| LogImport.DjiStartIndex | backend/main.py:1569-1581 | the first row with a real time and both coordinates: no row before it has them |
| LogImport.FirstDjiFixIsUnique | backend/main.py:1569-1581 | a position before which no row has a real time and both coordinates, and at which one does, is the first such row |
| LogImport.FindDjiStart | backend/main.py:1566-1581 | the loop sets the start once, from the first row with a real time and both coordinates, before that row's other cells are converted |
| LogImport.DjiSamplesHaveStart | backend/main.py:1569-1581 | a DJI log with samples has a start, set by a row no later than the row of any sample |
| LogImport.NoFixNoPoints | backend/main.py:1569-1581 | rows without a real time and both coordinates give no sample |
| LogImport.DjiStartIsFirstSample | backend/main.py:1569-1604 | when the start row's other cells convert, the DJI start is the position of the first sample |
| LogImport.ImportedIffSameBasename | backend/main.py:1541-1557 | a log counts as imported exactly when a stored log path has the same basename |
| LogImport.FindImported | backend/main.py:1540-1557 | the query and loop find a match exactly when a stored flight has the same normalised log path |
| LogImport.ScanForBasename | backend/main.py:1545-1557 | the scan finds a match exactly when a stored log path has the basename |
| LogImport.TailVerdictIff | backend/main.py:1559-1616 | the common checks pass exactly for a new log with comparable sample times spanning at least 30 s, and raise exactly for a new log with samples whose times mix UTC offsets and none |
| LogImport.DjiProcessedIff | backend/main.py:1494-1675 | a DJI log becomes a flight exactly when it has rows, the pilot exists, a row is dated, it is new, and its samples have comparable times spanning at least 30 s; it raises exactly when it gets past the new-log check with samples whose times cannot be compared |
| LogImport.EdgeTxProcessedIff | backend/main.py:1677-1854 | an EdgeTX log becomes a flight exactly when it has rows, the pilot exists, the file name gives a drone, the first row reaches the date column, the date parses, it is new, and its samples span at least 30 s; it raises exactly when it has rows and the pilot is missing, or the drone is named and the first row does not reach the date column |
| LogImport.ImportedIsNotProcessedAgain | backend/main.py:1738-1741 | a log already imported is never imported again, in either format |
| LogImport.CachedIndex | backend/main.py:1622-1626 | the first cached location within 300 m: none before it is |
| LogImport.FirstCachedIsUnique | backend/main.py:1622-1626 | a position before which no cached location is near, and at which one is, is the first such location |
| LogImport.FindCached | backend/main.py:1622-1626 | the loop over the cache stops at the first near location |
| LogImport.ResolveLocation | backend/main.py:1619-1650 | the location is the first cached one within 300 m; else the first stored one within 300 m in id order; else a new location at the start, the only case that adds one; the cache keeps its order and holds the result |
| LogImport.ImportPoints | backend/main.py:1540-1673 | the outcome is the common verdict; on success exactly one new valid flight with the pilot, drone, date, normalised path and samples, placed for the start given: no location without a start, else as `ResolveLocation` chooses; otherwise flights and locations are unchanged |
| LogImport.ImportDjiRows | backend/main.py:1525-1675 | an undated log is skipped; otherwise the common verdict, with the DJI date and samples stored on success at the location chosen for the DJI start row |
| LogImport.ProcessDjiLog | backend/main.py:1494-1675 | the outcome is the DJI verdict; from a known pilot on, the drone named in the rows or the file name exists; on success one new flight of that drone, at the location chosen for the DJI start row |
| LogImport.ImportEdgeTxRows | backend/main.py:1708-1854 | a first row that does not reach the date column raises; an unparsable date is skipped; otherwise the common verdict, with the EdgeTX date and samples stored on success and the location chosen for the first sample with coordinates |
| LogImport.ProcessEdgeTxLog | backend/main.py:1677-1854 | the outcome is the EdgeTX verdict; from a named drone on, the drone of the file name exists; on success one new flight of that drone, at the location chosen for its first sample with coordinates, or none |
| LogImport.FileVerdictFacts | backend/main.py:1474-1492 | with an unknown pilot a file raises exactly when it is an EdgeTX log with rows; only a recognised log with rows and a known pilot is stored; an imported log is never stored again |
| LogImport.ProcessCsvFile | backend/main.py:1474-1492 | the result carries the basename and the verdict of the format the header names; only a processed file adds a flight, with the normalised path; an unknown pilot changes nothing |
| LogImport.VerdictOfFacts | backend/main.py:1474-1492 | the bulk import's verdicts never store a log already imported; with an unknown pilot they store nothing and fail exactly on the EdgeTX logs with rows |
| LogImport.OutcomesFailLast | backend/main.py:1863-1870 | a file that raises ends the outcomes: no earlier outcome is a failure |
| LogImport.OutcomesComplete | backend/main.py:1863-1870 | without a failure every file has an outcome |
| LogImport.OutcomesFresh | backend/main.py:1540-1563 | a processed file's log was neither stored before the import nor processed earlier in it |
| LogImport.OutcomesNoReimport | backend/main.py:1540-1563 | no log is stored twice: two processed files come from different logs |
| LogImport.OutcomesUnknownPilot | backend/main.py:1863-1876 | with an unknown pilot nothing is stored, and the import fails exactly when some EdgeTX log has rows |
| LogImport.ImportedAdd | backend/main.py:1540-1557 | storing a flight from a log makes exactly that log newly imported |
| LogImport.OutcomesOfDistinctNames | backend/main.py:1545-1563 | with distinct file names, each outcome is the file's verdict against the flights stored before the import alone, flushed or not |
| LogImport.HandledGrows | backend/main.py:1863-1869 | one more file that does not raise keeps the loop's results equal to the outcomes so far, and the imported logs equal to those before plus the processed ones |
| LogImport.HandledFails | backend/main.py:1863-1870 | a file that raises ends the outcomes after the results so far |
| LogImport.ImportFiles | backend/main.py:1863-1870 | the results, each with its file's basename, followed by a failure if one raised, are exactly the outcomes of the files; without a failure the imported logs are those before plus the processed ones; an unknown pilot changes nothing |
| LogImport.ImportAllCsvs | backend/main.py:1857-1878 | 404 without the directory; otherwise 500, with every change rolled back, exactly when some file raises; else one result per file, its basename with its outcome, and the imported logs are those before plus the processed ones |

## Left out

- The web framework, the ORM and the SQL engine are left out. Each endpoint is a method on maps that stand for the tables. A table scan is in ascending id order. Ids come from per-table counters, so SQLite's reuse of the largest deleted rowid is not modelled.
- The haversine formula (`backend/main.py:38-50`) is not modelled; it is the parameter `Store.Distance`. The threshold of 300 m is inclusive, as in the source.
- Floating-point arithmetic is not modelled. Timestamps and coordinates are reals, so the quartile indices `int(n * 0.25)` and `int(n * 0.75)` are `n / 4` and `3 * n / 4`. Rounding in `timestamp()` and in the factor 2.5 is not modelled. A speed cell beyond about 1.3e154 makes `xSpeed**2` or `ySpeed**2` (`backend/main.py:1587`) raise an OverflowError, which the row's handler does not catch, so the whole import fails. That raise is not modelled, and the "raises exactly when" rows leave it out.
- Reading the files and the CSV dialect are left out. A file is its path, its first line and its rows. A row maps each column the file has, among those the import reads, to its cell text. A cell that a short row does not reach holds None, as `csv.DictReader` fills it. The other columns do not affect any modelled behaviour. The directory listing `glob` is the parameter `files`, in the order given.
- A file that is not valid UTF-8 raises when it is read (`backend/main.py:1477-1482`) and so fails the whole import. File contents are text here, so that raise is not modelled, and the "raises exactly when" rows leave it out.
- The parsing of dates, numbers and date-times is left out. Each parser is a parameter in `LogImport.Parsers`.
- The samples keep only a timestamp and the two coordinates. Altitude, speed, signal values and the distance from start are not stored. Whether each of those cells parses is still modelled, because a cell that does not parse drops its row.
- The location names (`"Location (lat, lon)"`) are left out. The per-import location cache is keyed by location id, not by name, in insertion order.
- The name of a location is unique (`backend/main.py:110`). A new location whose formatted name equals a stored one's raises an integrity error at the flush (`backend/main.py:1648`, `backend/main.py:1829`) or at the commit (`backend/main.py:1275`). That gives a 500 and a rollback. The model does not capture this raise, because it keeps no names. The members below state their raising conditions without it.
- LogImport.ResolveLocation: always adds the new location; the name clash above is not modelled.
- LogImport.DjiProcessedIff: its "raises exactly when" leaves out the name clash above.
- LogImport.EdgeTxProcessedIff: its "raises exactly when" leaves out the name clash above.
- LogImport.FileVerdictFacts: its "raises exactly when" leaves out the name clash above.
- LogImport.ImportFiles: a file whose new location clashes by name does not raise here.
- LogImport.ImportAllCsvs: a file whose new location clashes by name does not make the import fail here.
- Store.Database.CreateFlight: a new location whose name clashes does not fail here.
- Store.Database.CreateFlight, Store.Database.UpdateFlight, Store.Database.LinkPacks, Store.Database.RelinkPacks: a pack's cycle count is always an integer here. In the source it may be NULL (`cycles: Optional[int]`, `backend/main.py:354`, stored as given by `update_battery_pack` at `backend/main.py:712-713`). Linking such a pack (`backend/main.py:1293`, `backend/main.py:1382`) or unlinking it (`backend/main.py:1375`) then raises a TypeError and the request fails with a 500. So "fails exactly when a stored pack is requested twice" and "a known id succeeds" hold only for packs whose count is set.
- LogImport.ImportPoints, LogImport.ImportDjiRows, LogImport.ProcessDjiLog, LogImport.ImportEdgeTxRows, LogImport.ProcessEdgeTxLog, LogImport.ProcessCsvFile: a new location whose name clashes gives Processed here, where the source raises.
- `LogImport.ProcessDjiLog`, `LogImport.ProcessEdgeTxLog`: the per-import drone cache is not a separate structure. The model looks the drone up by name in the table, which holds every drone the cache holds.
- `LogImport.ProcessDjiLog`, `LogImport.ProcessEdgeTxLog`: the result field `"type": "dji"` and the printed messages are left out.
- `LogImport.ImportPoints` receives samples that its callers extract before the already-imported check. The source extracts them after that check. The extraction catches its own errors and changes nothing, so the order does not matter.
- `Store.Database.Rollback` restores only drones, locations and flights. These are the only tables the import writes.
- `Store.Database.CreateFlight` does not store the request's samples, because the source does not either. A failed commit of the flight is the only failure modelled; the location committed before it stays, as in the source.
- `Store.Database.UpdatePilot` does not model a name clash with another pilot, which is a database error in the source.
- `Store.Database.BatteryPackUsage` returns a map from pack id to usage. The order of the source's result list and its embedded pack rows are left out.
- `Store.Database.DeleteFlightLocation` clears the location of the invalid flights that still point at the deleted location, as the ORM does for a loaded relationship.
- `FlightQuery.ReadFlights` uses SQLite's reading of the window: a negative offset counts as 0 and a negative limit means no limit. Flights with the same date stay in table order. The source leaves that order unspecified.
- `FlightQuery.ReadFlights` lists flights without their joined pilot, drone, location and pack rows.
- `upload_csv` (`backend/main.py:1881`) is not part of this model. It calls `process_csv_file` with the wrong arguments.
- The GPX and KML exports, images, statistics and the other CRUD endpoints of `backend/main.py` are not part of this model.
