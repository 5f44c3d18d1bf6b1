/** The bulk import of flight logs from the import directory: each CSV file
    is recognised as a DJI or an EdgeTX log by its header, checked step by
    step, and either stored as a new valid flight with its telemetry or
    skipped with a reason. One failing file rolls the whole import back. */
module LogImport {
  import opened Types
  import Text
  import Duration
  import Store

  /** The columns the import reads, DJI ones first. */
  datatype Column =
    | CustomDateTime | RecoverAircraftName | DetailsAircraftName
    | OsdLatitude | OsdLongitude | OsdXSpeed | OsdYSpeed | OsdHeight
    | RcDownlinkSignal | RcUplinkSignal
    | Date | Time | Gps | AltM | GSpdKmh | RxBtV | Rss1Db | RQly

  /** The header text of each column. */
  function ColumnName(c: Column): string {
    match c
    case CustomDateTime => "CUSTOM.dateTime"
    case RecoverAircraftName => "RECOVER.aircraftName"
    case DetailsAircraftName => "DETAILS.aircraftName"
    case OsdLatitude => "OSD.latitude"
    case OsdLongitude => "OSD.longitude"
    case OsdXSpeed => "OSD.xSpeed"
    case OsdYSpeed => "OSD.ySpeed"
    case OsdHeight => "OSD.height"
    case RcDownlinkSignal => "RC.downlinkSignal"
    case RcUplinkSignal => "RC.uplinkSignal"
    case Date => "Date"
    case Time => "Time"
    case Gps => "GPS"
    case AltM => "Alt(m)"
    case GSpdKmh => "GSpd(kmh)"
    case RxBtV => "RxBt(V)"
    case Rss1Db => "1RSS(dB)"
    case RQly => "RQly(%)"
  }

  /** A CSV row read by `csv.DictReader`, restricted to the columns the
      import reads. A column the file does not have is absent; a column the
      file has but a short row does not reach holds None. */
  type Row = map<Column, Option<string>>

  /** A parsed date-time: its day number, its seconds since the epoch and
      whether it carries a UTC offset. */
  datatype Moment = Moment(day: int, seconds: real, aware: bool)

  /** The text parsers the import calls; each gives None where Python raises
      ValueError. */
  datatype Parsers = Parsers(
    isoDateTime: string -> Option<Moment>,  // datetime.fromisoformat
    date: string -> Option<int>,            // strptime "%Y-%m-%d", as a day number
    dateTime: string -> Option<Moment>,     // strptime "%Y-%m-%d %H:%M:%S.%f"
    toFloat: string -> Option<real>,        // float
    toInt: string -> Option<int>)           // int

  /** A file of the import directory: its path, its first line and its rows. */
  datatype CsvFile = CsvFile(path: string, header: string, rows: seq<Row>)

  datatype SkipReason =
    | EmptyOrMalformed
    | PilotNotFound
    | NoDroneName
    | InvalidDate
    | AlreadyImported
    | NoValidData
    | ShortDuration
    | UnknownFormat

  /** What processing one file leads to; Failed is the exception that ends
      the whole import. */
  datatype Outcome = Processed | Skipped(reason: SkipReason) | Failed

  datatype FileResult = FileResult(fileName: string, outcome: Outcome)

  datatype LogFormat = Dji | EdgeTx | Unknown

  /** Flights shorter than this many seconds are not imported. */
  const MinDuration: real := 30.0

  /** DJI rows dated on this day carry no real time. */
  const PlaceholderDay: string := "1970-01-01"

  /** `row.get(column)`. */
  function Get(row: Row, column: Column): Option<string> {
    if column in row then row[column] else None
  }

  /** `row.get(column)` is a non-empty string. */
  predicate Truthy(row: Row, column: Column) {
    Get(row, column).Some? && Get(row, column).value != ""
  }

  /** The text of a cell, "" when there is none. */
  function Cell(row: Row, column: Column): string {
    if Get(row, column).Some? then Get(row, column).value else ""
  }

  // ---------------------------------------------------------------------
  // The format of a file

  /** `process_csv_file`: the stripped first line decides the format, DJI
      before EdgeTX. */
  function FormatOf(header: string): LogFormat {
    var h := Text.Strip(header);
    if Text.Contains(h, ColumnName(CustomDateTime)) then Dji
    else if Text.Contains(h, ColumnName(Rss1Db)) || Text.Contains(h, "TxBat(V)") then EdgeTx
    else Unknown
  }

  /** A text found in the stripped header is found in the header. */
  lemma StrippedContains(header: string, sub: string)
    requires Text.Contains(Text.Strip(header), sub)
    ensures Text.Contains(header, sub)
  {
    var h := Text.Strip(header);
    Text.StripShape(header);
    var i :| Text.OccursAt(header, h, i);
    var j :| Text.OccursAt(h, sub, j);
    assert header[i..i + |h|] == h;
    assert forall k :: 0 <= k < |sub| ==> header[i + j + k] == h[j + k] == sub[k];
    assert Text.OccursAt(header, sub, i + j);
  }

  /** A file is taken for a DJI or EdgeTX log only when the first line
      holds one of the format's column names. */
  lemma FormatNeedsMarker(header: string)
    ensures FormatOf(header) == Dji ==> Text.Contains(header, ColumnName(CustomDateTime))
    ensures FormatOf(header) == EdgeTx ==>
              !Text.Contains(Text.Strip(header), ColumnName(CustomDateTime))
              && (Text.Contains(header, ColumnName(Rss1Db)) || Text.Contains(header, "TxBat(V)"))
  {
    var h := Text.Strip(header);
    if Text.Contains(h, ColumnName(CustomDateTime)) {
      StrippedContains(header, ColumnName(CustomDateTime));
    } else if Text.Contains(h, ColumnName(Rss1Db)) {
      StrippedContains(header, ColumnName(Rss1Db));
    } else if Text.Contains(h, "TxBat(V)") {
      StrippedContains(header, "TxBat(V)");
    }
  }

  // ---------------------------------------------------------------------
  // Drone names

  /** `row.get('RECOVER.aircraftName') or row.get('DETAILS.aircraftName')`. */
  function AircraftName(row: Row): string {
    if Truthy(row, RecoverAircraftName) then Cell(row, RecoverAircraftName)
    else Cell(row, DetailsAircraftName)
  }

  /** The index of the first row that names the aircraft, |rows| if none. */
  function AircraftRow(rows: seq<Row>): (i: nat)
    ensures i <= |rows|
    ensures forall j :: 0 <= j < i ==> AircraftName(rows[j]) == ""
    ensures i < |rows| ==> AircraftName(rows[i]) != ""
  {
    if rows == [] || AircraftName(rows[0]) != "" then 0 else 1 + AircraftRow(rows[1..])
  }

  /** The drone name a file name gives: the text before the first '-',
      stripped. */
  function FileDroneName(fileName: string): string {
    Text.Strip(Text.SplitOn(fileName, '-')[0])
  }

  /** The name from the file name holds no '-', has no surrounding white
      space and occurs in the file name before its first '-'. */
  lemma FileDroneNameShape(fileName: string)
    ensures '-' !in FileDroneName(fileName)
    ensures var n := FileDroneName(fileName);
            n != [] ==> !Text.IsSpace(n[0]) && !Text.IsSpace(n[|n| - 1])
    ensures var field := Text.SplitOn(fileName, '-')[0];
            Text.StartsWith(fileName, field) && exists i :: Text.OccursAt(field, FileDroneName(fileName), i)
  {
    var field := Text.SplitOn(fileName, '-')[0];
    Text.FirstFieldIsPrefix(fileName, '-');
    var n := FileDroneName(fileName);
    Text.StripShape(field);
    var i :| Text.OccursAt(field, n, i);
    assert forall k :: 0 <= k < |n| ==> n[k] == field[i + k];
  }

  /** The drone of a DJI log: the first aircraft name in the rows, else
      the name from the file name. */
  function DjiDroneName(fileName: string, rows: seq<Row>): string {
    var i := AircraftRow(rows);
    if i < |rows| then AircraftName(rows[i]) else FileDroneName(fileName)
  }

  /** The loop over the rows that looks for the aircraft name. */
  method FindAircraftRow(rows: seq<Row>) returns (i: nat)
    ensures i == AircraftRow(rows)
  {
    i := 0;
    while i < |rows| && AircraftName(rows[i]) == ""
      invariant i <= |rows|
      invariant forall j :: 0 <= j < i ==> AircraftName(rows[j]) == ""
    {
      i := i + 1;
    }
    FirstIsUnique(rows, i);
  }

  /** The drone name of a DJI log, found by the loop over its rows. */
  method FindDjiDroneName(fileName: string, rows: seq<Row>) returns (name: string)
    ensures name == DjiDroneName(fileName, rows)
  {
    var named := FindAircraftRow(rows);
    name := if named < |rows| then AircraftName(rows[named]) else FileDroneName(fileName);
  }

  lemma {:induction false} FirstIsUnique(rows: seq<Row>, i: nat)
    requires i <= |rows|
    requires forall j :: 0 <= j < i ==> AircraftName(rows[j]) == ""
    requires i < |rows| ==> AircraftName(rows[i]) != ""
    ensures i == AircraftRow(rows)
  {
    if rows != [] && i > 0 {
      FirstIsUnique(rows[1..], i - 1);
    }
  }

  // ---------------------------------------------------------------------
  // Flight dates

  /** The time of a DJI row: a `CUSTOM.dateTime` that is present, not on
      the placeholder day and parses once 'Z' is read as "+00:00". */
  function DjiMoment(row: Row, p: Parsers): Option<Moment> {
    var text := Cell(row, CustomDateTime);
    if !Truthy(row, CustomDateTime) || Text.StartsWith(text, PlaceholderDay) then None
    else p.isoDateTime(Text.Replace(text, 'Z', "+00:00"))
  }

  /** The date of a DJI row: the day of its time. */
  function DjiRowDate(row: Row, p: Parsers): Option<int> {
    match DjiMoment(row, p)
    case Some(m) => Some(m.day)
    case None => None
  }

  /** The index of the first row with a date, |rows| if none. */
  function DatedRow(rows: seq<Row>, p: Parsers): (i: nat)
    ensures i <= |rows|
    ensures forall j :: 0 <= j < i ==> DjiRowDate(rows[j], p).None?
    ensures i < |rows| ==> DjiRowDate(rows[i], p).Some?
  {
    if rows == [] || DjiRowDate(rows[0], p).Some? then 0 else 1 + DatedRow(rows[1..], p)
  }

  /** The date of a DJI flight: that of its first dated row. */
  function DjiDate(rows: seq<Row>, p: Parsers): Option<int> {
    var i := DatedRow(rows, p);
    if i < |rows| then DjiRowDate(rows[i], p) else None
  }

  lemma {:induction false} FirstDatedIsUnique(rows: seq<Row>, p: Parsers, i: nat)
    requires i <= |rows|
    requires forall j :: 0 <= j < i ==> DjiRowDate(rows[j], p).None?
    requires i < |rows| ==> DjiRowDate(rows[i], p).Some?
    ensures i == DatedRow(rows, p)
  {
    if rows != [] && i > 0 {
      FirstDatedIsUnique(rows[1..], p, i - 1);
    }
  }

  /** The loop over the rows that looks for the flight date. */
  method FindDatedRow(rows: seq<Row>, p: Parsers) returns (i: nat)
    ensures i == DatedRow(rows, p)
  {
    i := 0;
    while i < |rows| && DjiRowDate(rows[i], p).None?
      invariant i <= |rows|
      invariant forall j :: 0 <= j < i ==> DjiRowDate(rows[j], p).None?
    {
      i := i + 1;
    }
    FirstDatedIsUnique(rows, p, i);
  }

  /** The date of a DJI log, found by the loop over its rows. */
  method FindDjiDate(rows: seq<Row>, p: Parsers) returns (date: Option<int>)
    ensures date == DjiDate(rows, p)
  {
    var dated := FindDatedRow(rows, p);
    date := if dated < |rows| then DjiRowDate(rows[dated], p) else None;
  }

  /** The first EdgeTX row reaches no `Date` cell of a file that has the
      column: `strptime` is handed None and raises TypeError. */
  predicate EdgeTxDateCellMissing(first: Row) {
    Date in first && first[Date].None?
  }

  /** The date of an EdgeTX flight: the first row's `Date`, or today's
      date when the file has no such column. */
  function EdgeTxDate(first: Row, today: string, p: Parsers): Option<int> {
    if Date !in first then p.date(today)
    else if first[Date].None? then None
    else p.date(first[Date].value)
  }

  // ---------------------------------------------------------------------
  // Telemetry samples

  /** A numeric cell: absent, a number, or present but not a number. */
  datatype Number = NoValue | Value(x: real) | Malformed

  /** `float(row[c]) if row.get(c) and row[c] != '0.0' else None`. */
  function DjiCoordinate(row: Row, column: Column, p: Parsers): Number {
    if Truthy(row, column) && Cell(row, column) != "0.0" then
      match p.toFloat(Cell(row, column)) {
        case Some(x) => Value(x)
        case None => Malformed
      }
    else NoValue
  }

  /** A DJI row with a real time and both coordinates: the row that gives
      the flight its start, whatever its other cells hold. */
  predicate DjiFix(row: Row, p: Parsers) {
    && DjiMoment(row, p).Some?
    && DjiCoordinate(row, OsdLatitude, p).Value?
    && DjiCoordinate(row, OsdLongitude, p).Value?
  }

  /** The float conversion of a speed cell: `float(row.get(c, 0))` reads a
      column the file lacks as 0 and raises on a cell the row does not
      reach. */
  predicate SpeedParses(row: Row, column: Column, p: Parsers) {
    column in row ==> row[column].Some? && p.toFloat(row[column].value).Some?
  }

  /** The other DJI cells of a sample: the speeds as above, height and
      signal cells whenever they are non-empty. */
  predicate DjiExtrasParse(row: Row, p: Parsers) {
    && SpeedParses(row, OsdXSpeed, p)
    && SpeedParses(row, OsdYSpeed, p)
    && (Truthy(row, OsdHeight) ==> p.toFloat(Cell(row, OsdHeight)).Some?)
    && (Truthy(row, RcDownlinkSignal) ==> p.toInt(Cell(row, RcDownlinkSignal)).Some?)
    && (Truthy(row, RcUplinkSignal) ==> p.toInt(Cell(row, RcUplinkSignal)).Some?)
  }

  /** The sample a DJI row gives: only rows with a real time and both
      coordinates give one; a cell that does not parse drops the row. */
  function DjiPoint(row: Row, p: Parsers): (r: Option<DataPoint>)
    ensures r.Some? <==> DjiFix(row, p) && DjiExtrasParse(row, p)
    ensures r.Some? ==>
              && r.value.timestamp == Some(DjiMoment(row, p).value.seconds)
              && r.value.latitude == Some(DjiCoordinate(row, OsdLatitude, p).x)
              && r.value.longitude == Some(DjiCoordinate(row, OsdLongitude, p).x)
  {
    if DjiFix(row, p) && DjiExtrasParse(row, p) then
      Some(DataPoint(Some(DjiMoment(row, p).value.seconds),
                     Some(DjiCoordinate(row, OsdLatitude, p).x),
                     Some(DjiCoordinate(row, OsdLongitude, p).x)))
    else None
  }

  /** The coordinates of an EdgeTX `GPS` cell, "lat lon": a latitude that
      does not parse leaves both out, a longitude that does not parse
      leaves only the longitude out. */
  function EdgeTxCoordinates(row: Row, p: Parsers): (Option<real>, Option<real>) {
    if !Truthy(row, Gps) then (None, None)
    else
      var parts := Text.SplitOn(Cell(row, Gps), ' ');
      if |parts| != 2 then (None, None)
      else match p.toFloat(parts[0]) {
        case None => (None, None)
        case Some(lat) => (Some(lat), p.toFloat(parts[1]))
      }
  }

  predicate EdgeTxExtrasParse(row: Row, p: Parsers) {
    && (Truthy(row, AltM) ==> p.toFloat(Cell(row, AltM)).Some?)
    && (Truthy(row, GSpdKmh) ==> p.toFloat(Cell(row, GSpdKmh)).Some?)
    && (Truthy(row, RxBtV) ==> p.toFloat(Cell(row, RxBtV)).Some?)
    && (Truthy(row, Rss1Db) ==> p.toInt(Cell(row, Rss1Db)).Some?)
    && (Truthy(row, RQly) ==> p.toInt(Cell(row, RQly)).Some?)
  }

  /** The sample an EdgeTX row gives: every row whose `Date` and `Time`
      parse together gives one, with or without coordinates, unless a
      telemetry cell does not parse. */
  function EdgeTxPoint(row: Row, p: Parsers): (r: Option<DataPoint>)
    ensures r.Some? <==>
              && Truthy(row, Date) && Truthy(row, Time)
              && p.dateTime(Cell(row, Date) + " " + Cell(row, Time)).Some?
              && EdgeTxExtrasParse(row, p)
    ensures r.Some? ==>
              && r.value.timestamp == Some(p.dateTime(Cell(row, Date) + " " + Cell(row, Time)).value.seconds)
              && (r.value.latitude, r.value.longitude) == EdgeTxCoordinates(row, p)
  {
    if !Truthy(row, Date) || !Truthy(row, Time) then None
    else match p.dateTime(Cell(row, Date) + " " + Cell(row, Time)) {
      case None => None
      case Some(m) =>
        var (lat, lon) := EdgeTxCoordinates(row, p);
        if EdgeTxExtrasParse(row, p) then Some(DataPoint(Some(m.seconds), lat, lon)) else None
    }
  }

  /** A `GPS` cell "lat lon" of two fields around one space splits into
      them: both coordinates when the latitude parses, the latitude alone
      when only the longitude does not, and none when the latitude does
      not. */
  lemma EdgeTxGpsSplit(row: Row, p: Parsers, lat: string, lon: string)
    requires Gps in row && row[Gps] == Some(lat + " " + lon)
    requires ' ' !in lat && ' ' !in lon
    ensures EdgeTxCoordinates(row, p) ==
              if p.toFloat(lat).Some? then (p.toFloat(lat), p.toFloat(lon)) else (None, None)
  {
    Text.SplitTwo(lat, lon, ' ');
  }

  /** A `GPS` cell that is missing, empty, or holds other than exactly one
      space gives no coordinates. */
  lemma EdgeTxGpsNotTwoFields(row: Row, p: Parsers)
    requires !Truthy(row, Gps) || Text.Occurrences(Cell(row, Gps), ' ') != 1
    ensures EdgeTxCoordinates(row, p) == (None, None)
  {
  }

  /** Unlike a DJI row, an EdgeTX row needs no position: a timed row
      without a usable `GPS` cell still gives a sample, without
      coordinates. */
  lemma EdgeTxPointWithoutGps(row: Row, p: Parsers)
    requires Truthy(row, Date) && Truthy(row, Time)
    requires p.dateTime(Cell(row, Date) + " " + Cell(row, Time)).Some?
    requires EdgeTxExtrasParse(row, p)
    requires !Truthy(row, Gps)
    ensures var r := EdgeTxPoint(row, p);
            r.Some? && r.value.latitude.None? && r.value.longitude.None?
  {
  }

  function Keep(o: Option<DataPoint>): seq<DataPoint> {
    if o.Some? then [o.value] else []
  }

  /** The samples of a DJI log, in row order. */
  function DjiPoints(rows: seq<Row>, p: Parsers): (pts: seq<DataPoint>)
    ensures |pts| <= |rows|
    decreases |rows|
  {
    if rows == [] then [] else DjiPoints(rows[..|rows| - 1], p) + Keep(DjiPoint(rows[|rows| - 1], p))
  }

  /** The samples of an EdgeTX log, in row order. */
  function EdgeTxPoints(rows: seq<Row>, p: Parsers): (pts: seq<DataPoint>)
    ensures |pts| <= |rows|
    decreases |rows|
  {
    if rows == [] then [] else EdgeTxPoints(rows[..|rows| - 1], p) + Keep(EdgeTxPoint(rows[|rows| - 1], p))
  }

  predicate HasFix(dp: DataPoint) {
    dp.latitude.Some? && dp.longitude.Some?
  }

  /** Every DJI sample has a time and both coordinates. */
  lemma {:induction false} DjiPointsComplete(rows: seq<Row>, p: Parsers)
    ensures forall k :: 0 <= k < |DjiPoints(rows, p)| ==>
              DjiPoints(rows, p)[k].timestamp.Some? && HasFix(DjiPoints(rows, p)[k])
    decreases |rows|
  {
    if rows != [] {
      var init := rows[..|rows| - 1];
      DjiPointsComplete(init, p);
      var last := DjiPoint(rows[|rows| - 1], p);
      var pts := DjiPoints(rows, p);
      assert pts == DjiPoints(init, p) + Keep(last);
      forall k | 0 <= k < |pts| ensures pts[k].timestamp.Some? && HasFix(pts[k]) {
        if k < |DjiPoints(init, p)| {
          assert pts[k] == DjiPoints(init, p)[k];
        } else {
          assert pts[k] == last.value;
        }
      }
    }
  }

  /** Every EdgeTX sample has a time. */
  lemma {:induction false} EdgeTxPointsTimed(rows: seq<Row>, p: Parsers)
    ensures forall k :: 0 <= k < |EdgeTxPoints(rows, p)| ==> EdgeTxPoints(rows, p)[k].timestamp.Some?
    decreases |rows|
  {
    if rows != [] {
      EdgeTxPointsTimed(rows[..|rows| - 1], p);
    }
  }

  /** Some row of rows gives the DJI sample dp. */
  predicate DjiSampleOf(rows: seq<Row>, p: Parsers, dp: DataPoint) {
    exists i :: 0 <= i < |rows| && DjiPoint(rows[i], p) == Some(dp)
  }

  /** Each DJI sample comes from a row of the log. */
  lemma {:induction false} DjiPointsFromRows(rows: seq<Row>, p: Parsers)
    ensures forall k :: 0 <= k < |DjiPoints(rows, p)| ==> DjiSampleOf(rows, p, DjiPoints(rows, p)[k])
    decreases |rows|
  {
    if rows != [] {
      var init := rows[..|rows| - 1];
      DjiPointsFromRows(init, p);
      var pts := DjiPoints(rows, p);
      var last := DjiPoint(rows[|rows| - 1], p);
      assert pts == DjiPoints(init, p) + Keep(last);
      forall k | 0 <= k < |pts| ensures DjiSampleOf(rows, p, pts[k]) {
        if k < |DjiPoints(init, p)| {
          assert DjiSampleOf(init, p, DjiPoints(init, p)[k]);
          var i :| 0 <= i < |init| && DjiPoint(init[i], p) == Some(DjiPoints(init, p)[k]);
          assert rows[i] == init[i] && pts[k] == DjiPoints(init, p)[k];
        } else {
          assert DjiPoint(rows[|rows| - 1], p) == Some(pts[k]);
        }
      }
    }
  }

  /** The loop that turns DJI rows into samples. */
  method ExtractDjiPoints(rows: seq<Row>, p: Parsers) returns (pts: seq<DataPoint>)
    ensures pts == DjiPoints(rows, p)
  {
    pts := [];
    var i := 0;
    while i < |rows|
      invariant i <= |rows|
      invariant pts == DjiPoints(rows[..i], p)
    {
      assert rows[..i + 1][..i] == rows[..i];
      var point := DjiPoint(rows[i], p);
      if point.Some? {
        pts := pts + [point.value];
      }
      i := i + 1;
    }
    assert rows[..i] == rows;
  }

  /** The loop that turns EdgeTX rows into samples. */
  method ExtractEdgeTxPoints(rows: seq<Row>, p: Parsers) returns (pts: seq<DataPoint>)
    ensures pts == EdgeTxPoints(rows, p)
  {
    pts := [];
    var i := 0;
    while i < |rows|
      invariant i <= |rows|
      invariant pts == EdgeTxPoints(rows[..i], p)
    {
      assert rows[..i + 1][..i] == rows[..i];
      var point := EdgeTxPoint(rows[i], p);
      if point.Some? {
        pts := pts + [point.value];
      }
      i := i + 1;
    }
    assert rows[..i] == rows;
  }

  /** The duration the import checks: latest minus earliest sample time. */
  function ImportSpan(points: seq<DataPoint>): (d: real)
    ensures d >= 0.0
  {
    var ts := Duration.Timestamps(points);
    if ts == [] then 0.0 else Duration.MaxOf(ts) - Duration.MinOf(ts)
  }

  /** The robust duration later shown for a flight never exceeds the span
      the import measured. */
  lemma RobustDurationWithinSpan(points: seq<DataPoint>)
    ensures Duration.RobustDuration(points) <= ImportSpan(points)
  {
    var ts := Duration.Timestamps(points);
    if |points| < 2 || |ts| < 2 {
      Duration.ShortInputIsZero(points);
    } else if |ts| <= 3 {
      Duration.FewTimestampsSpan(points);
    } else {
      Duration.LargeInputBounds(points);
    }
  }

  /** The index of the first sample with both coordinates. */
  function FixIndex(points: seq<DataPoint>): (i: nat)
    ensures i <= |points|
    ensures forall j :: 0 <= j < i ==> !HasFix(points[j])
    ensures i < |points| ==> HasFix(points[i])
  {
    if points == [] || HasFix(points[0]) then 0 else 1 + FixIndex(points[1..])
  }

  /** The start of a flight: the first sample with both coordinates. */
  function StartFix(points: seq<DataPoint>): Option<Coord> {
    var i := FixIndex(points);
    if i < |points| then Some(Coord(points[i].latitude.value, points[i].longitude.value)) else None
  }

  lemma {:induction false} FirstFixIsUnique(points: seq<DataPoint>, i: nat)
    requires i <= |points|
    requires forall j :: 0 <= j < i ==> !HasFix(points[j])
    requires i < |points| ==> HasFix(points[i])
    ensures i == FixIndex(points)
  {
    if points != [] && i > 0 {
      FirstFixIsUnique(points[1..], i - 1);
    }
  }

  /** The loop that looks for the start coordinates. */
  method FindStartFix(points: seq<DataPoint>) returns (start: Option<Coord>)
    ensures start == StartFix(points)
  {
    var i := 0;
    while i < |points| && !HasFix(points[i])
      invariant i <= |points|
      invariant forall j :: 0 <= j < i ==> !HasFix(points[j])
    {
      i := i + 1;
    }
    FirstFixIsUnique(points, i);
    if i < |points| {
      start := Some(Coord(points[i].latitude.value, points[i].longitude.value));
    } else {
      start := None;
    }
  }

  /** The index of the first DJI row that fixes the start, |rows| if none. */
  function DjiStartIndex(rows: seq<Row>, p: Parsers): (i: nat)
    ensures i <= |rows|
    ensures forall j :: 0 <= j < i ==> !DjiFix(rows[j], p)
    ensures i < |rows| ==> DjiFix(rows[i], p)
  {
    if rows == [] || DjiFix(rows[0], p) then 0 else 1 + DjiStartIndex(rows[1..], p)
  }

  /** The start of a DJI flight: the coordinates of its first row with a
      real time and both coordinates, taken before the other cells of that
      row are converted. */
  function DjiStart(rows: seq<Row>, p: Parsers): Option<Coord> {
    var i := DjiStartIndex(rows, p);
    if i < |rows| then
      Some(Coord(DjiCoordinate(rows[i], OsdLatitude, p).x, DjiCoordinate(rows[i], OsdLongitude, p).x))
    else None
  }

  lemma {:induction false} FirstDjiFixIsUnique(rows: seq<Row>, p: Parsers, i: nat)
    requires i <= |rows|
    requires forall j :: 0 <= j < i ==> !DjiFix(rows[j], p)
    requires i < |rows| ==> DjiFix(rows[i], p)
    ensures i == DjiStartIndex(rows, p)
  {
    if rows != [] && i > 0 {
      FirstDjiFixIsUnique(rows[1..], p, i - 1);
    }
  }

  /** The loop over the DJI rows that sets the start coordinates once. */
  method FindDjiStart(rows: seq<Row>, p: Parsers) returns (start: Option<Coord>)
    ensures start == DjiStart(rows, p)
  {
    var i := 0;
    while i < |rows| && !DjiFix(rows[i], p)
      invariant i <= |rows|
      invariant forall j :: 0 <= j < i ==> !DjiFix(rows[j], p)
    {
      i := i + 1;
    }
    FirstDjiFixIsUnique(rows, p, i);
    if i < |rows| {
      start := Some(Coord(DjiCoordinate(rows[i], OsdLatitude, p).x, DjiCoordinate(rows[i], OsdLongitude, p).x));
    } else {
      start := None;
    }
  }

  /** A DJI log with samples has a start, set by a row no later than the
      row of any sample. */
  lemma DjiSamplesHaveStart(rows: seq<Row>, p: Parsers)
    requires DjiPoints(rows, p) != []
    ensures DjiStart(rows, p).Some?
    ensures forall i :: 0 <= i < |rows| && DjiPoint(rows[i], p).Some? ==> DjiStartIndex(rows, p) <= i
  {
    DjiPointsFromRows(rows, p);
    assert DjiSampleOf(rows, p, DjiPoints(rows, p)[0]);
  }

  /** Rows before the first start row give no DJI sample. */
  lemma {:induction false} NoFixNoPoints(rows: seq<Row>, p: Parsers)
    requires forall j :: 0 <= j < |rows| ==> !DjiFix(rows[j], p)
    ensures DjiPoints(rows, p) == []
    decreases |rows|
  {
    if rows != [] {
      NoFixNoPoints(rows[..|rows| - 1], p);
    }
  }

  /** The samples of a prefix of the rows begin the samples of the rows. */
  lemma {:induction false} DjiPointsPrefix(rows: seq<Row>, p: Parsers, m: nat)
    requires m <= |rows|
    ensures DjiPoints(rows[..m], p) <= DjiPoints(rows, p)
    decreases |rows| - m
  {
    if m < |rows| {
      DjiPointsPrefix(rows, p, m + 1);
      assert rows[..m + 1][..m] == rows[..m];
    } else {
      assert rows[..m] == rows;
    }
  }

  /** The rows up to the first start row give exactly that row's sample
      when its other cells convert. */
  lemma DjiPointsToStart(rows: seq<Row>, p: Parsers)
    requires DjiStartIndex(rows, p) < |rows|
    requires DjiExtrasParse(rows[DjiStartIndex(rows, p)], p)
    ensures var i := DjiStartIndex(rows, p);
            DjiPoints(rows[..i + 1], p) == [DjiPoint(rows[i], p).value]
  {
    var i := DjiStartIndex(rows, p);
    NoFixNoPoints(rows[..i], p);
    assert rows[..i + 1][..i] == rows[..i];
  }

  /** When the start row's other cells convert, the DJI start is the
      position of the first sample; otherwise that row gives no sample and
      the start is a position no sample records. */
  lemma DjiStartIsFirstSample(rows: seq<Row>, p: Parsers)
    requires DjiStartIndex(rows, p) < |rows|
    requires DjiExtrasParse(rows[DjiStartIndex(rows, p)], p)
    ensures DjiPoints(rows, p) != [] && StartFix(DjiPoints(rows, p)) == DjiStart(rows, p)
  {
    var i := DjiStartIndex(rows, p);
    DjiPointsToStart(rows, p);
    DjiPointsPrefix(rows, p, i + 1);
    var pts := DjiPoints(rows, p);
    assert pts[0] == DjiPoint(rows[i], p).value;
    assert HasFix(pts[0]);
    FirstFixIsUnique(pts, 0);
  }

  // ---------------------------------------------------------------------
  // Logs already imported

  /** A stored flight came from the log at the normalised path norm. */
  predicate SameLog(f: Flight, norm: string) {
    f.csvLogPath.Some? && Text.NormalizedLogPath(f.csvLogPath.value) == norm
  }

  predicate Imported(flights: map<int, Flight>, norm: string) {
    exists id :: id in flights && SameLog(flights[id], norm)
  }

  /** The SQL pre-filter: the stored path ends with the basename. */
  predicate EndsWithBase(f: Flight, base: string) {
    f.csvLogPath.Some? && |base| <= |f.csvLogPath.value|
    && f.csvLogPath.value[|f.csvLogPath.value| - |base|..] == base
  }

  /** A log counts as imported exactly when a stored log path has the same
      basename. */
  lemma ImportedIffSameBasename(flights: map<int, Flight>, path: string)
    ensures Imported(flights, Text.NormalizedLogPath(path)) <==>
              exists id :: id in flights && HasBasename(flights[id], Text.Basename(path))
  {
    forall id | id in flights && flights[id].csvLogPath.Some?
      ensures SameLog(flights[id], Text.NormalizedLogPath(path)) <==>
                Text.Basename(flights[id].csvLogPath.value) == Text.Basename(path)
    {
      Text.NormalizedIffSameBasename(flights[id].csvLogPath.value, path);
    }
  }

  /** The stored log of f has the given basename. */
  predicate HasBasename(f: Flight, base: string) {
    f.csvLogPath.Some? && Text.Basename(f.csvLogPath.value) == base
  }

  /** The already-imported query and the loop over its candidates: the
      SQL pre-filter keeps the stored paths that end with the basename,
      and the loop compares normalised paths, which agree exactly when
      the basenames do. */
  method FindImported(db: Store.Database, path: string) returns (found: bool)
    requires db.Valid()
    ensures found == Imported(db.flights, Text.NormalizedLogPath(path))
  {
    var base := Text.Basename(path);
    var flights, next := db.flights, db.nextFlightId;
    found := ScanForBasename(flights, next, base);
    ImportedIffSameBasename(flights, path);
  }

  method ScanForBasename(flights: map<int, Flight>, next: int, base: string) returns (found: bool)
    requires forall f :: f in flights ==> 1 <= f < next
    ensures found <==> exists f :: f in flights && HasBasename(flights[f], base)
  {
    var id := 1;
    while id < next
      invariant forall f :: f in flights && f < id ==> !HasBasename(flights[f], base)
      decreases next - id
    {
      if id in flights && EndsWithBase(flights[id], base) && HasBasename(flights[id], base) {
        return true;
      }
      if id in flights && HasBasename(flights[id], base) {
        Text.SameBasenameEndsWith(flights[id].csvLogPath.value, base);
      }
      id := id + 1;
    }
    return false;
  }

  // ---------------------------------------------------------------------
  // Verdicts: which files become flights

  /** The kept DJI samples mix times with and without a UTC offset, which
      `max` and `min` cannot compare: computing the duration raises
      TypeError. */
  predicate MixedOffsets(rows: seq<Row>, p: Parsers) {
    exists i, j :: 0 <= i < |rows| && 0 <= j < |rows| && DjiPoint(rows[i], p).Some? && DjiPoint(rows[j], p).Some?
                   && DjiMoment(rows[i], p).Some? && DjiMoment(rows[j], p).Some?
                   && DjiMoment(rows[i], p).value.aware != DjiMoment(rows[j], p).value.aware
  }

  /** The checks after the date, common to both formats; mixed says
      whether the sample times cannot be compared. */
  function TailVerdict(imported: bool, points: seq<DataPoint>, mixed: bool): Outcome {
    if imported then Skipped(AlreadyImported)
    else if points == [] then Skipped(NoValidData)
    else if mixed then Failed
    else if ImportSpan(points) < MinDuration then Skipped(ShortDuration)
    else Processed
  }

  /** The common checks pass exactly for a new log with comparable sample
      times spanning at least 30 seconds, and raise exactly for a new log
      with samples whose times cannot be compared. */
  lemma TailVerdictIff(imported: bool, points: seq<DataPoint>, mixed: bool)
    ensures TailVerdict(imported, points, mixed) == Processed <==>
              !imported && points != [] && !mixed && ImportSpan(points) >= MinDuration
    ensures TailVerdict(imported, points, mixed) == Failed <==> !imported && points != [] && mixed
  {
  }

  /** `process_dji_log`'s checks, in order. */
  function DjiVerdict(rows: seq<Row>, pilotKnown: bool, imported: bool, p: Parsers): Outcome {
    if rows == [] then Skipped(EmptyOrMalformed)
    else if !pilotKnown then Skipped(PilotNotFound)
    else if DjiDate(rows, p).None? then Skipped(InvalidDate)
    else TailVerdict(imported, DjiPoints(rows, p), MixedOffsets(rows, p))
  }

  /** `process_edgetx_log`'s checks, in order. A missing pilot raises, and
      so does a first row that does not reach the `Date` column. */
  function EdgeTxVerdict(fileName: string, rows: seq<Row>, pilotKnown: bool, imported: bool,
                         p: Parsers, today: string): Outcome {
    if rows == [] then Skipped(EmptyOrMalformed)
    else if !pilotKnown then Failed
    else if FileDroneName(fileName) == "" then Skipped(NoDroneName)
    else if EdgeTxDateCellMissing(rows[0]) then Failed
    else if EdgeTxDate(rows[0], today, p).None? then Skipped(InvalidDate)
    else TailVerdict(imported, EdgeTxPoints(rows, p), false)
  }

  /** A DJI log becomes a flight exactly when it has rows, the pilot
      exists, a row is dated, it was not imported before, and it has
      samples with comparable times spanning at least 30 seconds; it raises
      exactly when it would otherwise reach the duration with sample times
      that cannot be compared. */
  lemma DjiProcessedIff(rows: seq<Row>, pilotKnown: bool, imported: bool, p: Parsers)
    ensures DjiVerdict(rows, pilotKnown, imported, p) == Processed <==>
              rows != [] && pilotKnown && DjiDate(rows, p).Some? && !imported
              && DjiPoints(rows, p) != [] && !MixedOffsets(rows, p)
              && ImportSpan(DjiPoints(rows, p)) >= MinDuration
    ensures DjiVerdict(rows, pilotKnown, imported, p) == Failed <==>
              rows != [] && pilotKnown && DjiDate(rows, p).Some? && !imported
              && DjiPoints(rows, p) != [] && MixedOffsets(rows, p)
  {
    if rows != [] && pilotKnown && DjiDate(rows, p).Some? {
      TailVerdictIff(imported, DjiPoints(rows, p), MixedOffsets(rows, p));
    }
  }

  /** An EdgeTX log becomes a flight exactly when it has rows, the pilot
      exists, the file name gives a drone name, the date parses, it was not
      imported before, and it has samples spanning at least 30 seconds; it
      raises exactly when it has rows and either the pilot is missing or,
      past the drone name, the first row does not reach the `Date` column. */
  lemma EdgeTxProcessedIff(fileName: string, rows: seq<Row>, pilotKnown: bool, imported: bool,
                           p: Parsers, today: string)
    ensures EdgeTxVerdict(fileName, rows, pilotKnown, imported, p, today) == Processed <==>
              rows != [] && pilotKnown && FileDroneName(fileName) != ""
              && !EdgeTxDateCellMissing(rows[0])
              && EdgeTxDate(rows[0], today, p).Some? && !imported
              && EdgeTxPoints(rows, p) != [] && ImportSpan(EdgeTxPoints(rows, p)) >= MinDuration
    ensures EdgeTxVerdict(fileName, rows, pilotKnown, imported, p, today) == Failed <==>
              rows != [] && (!pilotKnown || (FileDroneName(fileName) != "" && EdgeTxDateCellMissing(rows[0])))
  {
    if rows != [] && pilotKnown && FileDroneName(fileName) != "" && !EdgeTxDateCellMissing(rows[0])
       && EdgeTxDate(rows[0], today, p).Some? {
      TailVerdictIff(imported, EdgeTxPoints(rows, p), false);
    }
  }

  /** A log already imported is never imported again. */
  lemma ImportedIsNotProcessedAgain(fileName: string, rows: seq<Row>, pilotKnown: bool, p: Parsers, today: string)
    ensures DjiVerdict(rows, pilotKnown, true, p) != Processed
    ensures EdgeTxVerdict(fileName, rows, pilotKnown, true, p, today) != Processed
  {
  }

  // ---------------------------------------------------------------------
  // Location cache

  /** Every cached location id names a stored location. */
  ghost predicate CacheValid(cache: seq<int>, locations: map<int, Location>) {
    forall i :: 0 <= i < |cache| ==> cache[i] in locations
  }

  ghost predicate Extends<V>(before: map<int, V>, after: map<int, V>) {
    forall k :: k in before ==> k in after && after[k] == before[k]
  }

  /** The index of the first cached location near start, |cache| if none. */
  function CachedIndex(cache: seq<int>, locations: map<int, Location>, start: Coord, dist: Store.Distance): (i: nat)
    requires forall k :: 0 <= k < |cache| ==> cache[k] in locations
    ensures i <= |cache|
    ensures forall j :: 0 <= j < i ==> !Store.Near(dist, start, locations[cache[j]].coord)
    ensures i < |cache| ==> Store.Near(dist, start, locations[cache[i]].coord)
  {
    if cache == [] || Store.Near(dist, start, locations[cache[0]].coord) then 0
    else 1 + CachedIndex(cache[1..], locations, start, dist)
  }

  lemma {:induction false} FirstCachedIsUnique(cache: seq<int>, locations: map<int, Location>, start: Coord,
                                               dist: Store.Distance, i: nat)
    requires forall k :: 0 <= k < |cache| ==> cache[k] in locations
    requires i <= |cache|
    requires forall j :: 0 <= j < i ==> !Store.Near(dist, start, locations[cache[j]].coord)
    requires i < |cache| ==> Store.Near(dist, start, locations[cache[i]].coord)
    ensures i == CachedIndex(cache, locations, start, dist)
  {
    if cache != [] && i > 0 {
      FirstCachedIsUnique(cache[1..], locations, start, dist, i - 1);
    }
  }

  /** The loop over the location cache. */
  method FindCached(db: Store.Database, cache: seq<int>, start: Coord, dist: Store.Distance) returns (i: nat)
    requires CacheValid(cache, db.locations)
    ensures i == CachedIndex(cache, db.locations, start, dist)
  {
    i := 0;
    while i < |cache| && !Store.Near(dist, start, db.locations[cache[i]].coord)
      invariant i <= |cache|
      invariant forall j :: 0 <= j < i ==> !Store.Near(dist, start, db.locations[cache[j]].coord)
    {
      i := i + 1;
    }
    FirstCachedIsUnique(cache, db.locations, start, dist, i);
  }

  /** Where a flight starting at start is placed, given the cache: at the
      first cached location near the start; else, when a stored location
      is near, at the first such one in id order; else at a new location
      at the start. Only the last case changes the stored locations. */
  ghost predicate PlacedAt(cache: seq<int>, before: map<int, Location>, after: map<int, Location>,
                           start: Coord, dist: Store.Distance, id: int) {
    && CacheValid(cache, before)
    && var c := CachedIndex(cache, before, start, dist);
       if c < |cache| then id == cache[c] && after == before
       else if exists l :: l in before && Store.Near(dist, start, before[l].coord) then
         && after == before && id in before && Store.Near(dist, start, before[id].coord)
         && forall l :: l in before && l < id ==> !Store.Near(dist, start, before[l].coord)
       else id !in before && after == before[id := Location(start, true)]
  }

  /** The location link of a stored flight: none without a start, else
      the location PlacedAt chooses. */
  ghost predicate Placed(loc: Option<int>, start: Option<Coord>, cache: seq<int>,
                         before: map<int, Location>, after: map<int, Location>, dist: Store.Distance) {
    if start.None? then loc.None? && after == before
    else loc.Some? && PlacedAt(cache, before, after, start.value, dist, loc.value)
  }

  /** The location of an imported flight, as PlacedAt says; the cache
      then holds it. */
  method ResolveLocation(db: Store.Database, start: Coord, cache: seq<int>, dist: Store.Distance)
    returns (id: int, newCache: seq<int>)
    requires db.Valid() && CacheValid(cache, db.locations)
    modifies db`locations, db`nextLocationId
    ensures db.Valid() && CacheValid(newCache, db.locations)
    ensures PlacedAt(cache, old(db.locations), db.locations, start, dist, id)
    ensures Extends(old(db.locations), db.locations)
    ensures id in db.locations && id in newCache
    ensures |cache| <= |newCache| <= |cache| + 1 && newCache[..|cache|] == cache
  {
    var c := FindCached(db, cache, start, dist);
    if c < |cache| {
      return cache[c], cache;
    }
    var found := db.NearestStoredLocation(start, dist);
    if found.Some? {
      id := found.value;
      newCache := if id in cache then cache else cache + [id];
    } else {
      id := db.AddLocation(start);
      newCache := cache + [id];
    }
  }

  // ---------------------------------------------------------------------
  // Processing one file

  /** A flight stored by the import: valid, without notes or packs, with
      its normalised log path and its samples. */
  predicate IsImportOf(f: Flight, pilotId: int, date: int, norm: string, points: seq<DataPoint>) {
    f.pilotId == pilotId && f.flightDate == date && f.csvLogPath == Some(norm)
    && f.notes.None? && f.isValid && f.packs == {} && f.data == points
  }

  /** after is before with one new flight f under id. */
  predicate AddsFlight(before: map<int, Flight>, after: map<int, Flight>, id: int, f: Flight) {
    id !in before && after == before[id := f]
  }

  /** The steps from the already-imported check on, common to both
      formats: a new log with comparable sample times spanning at least 30
      seconds is stored as a new valid flight, placed as Placed says for
      the given start. */
  method ImportPoints(db: Store.Database, pilotId: int, droneId: int, date: int, path: string,
                      points: seq<DataPoint>, start: Option<Coord>, mixed: bool,
                      cache: seq<int>, dist: Store.Distance)
    returns (outcome: Outcome, newCache: seq<int>, flightId: int)
    requires db.Valid() && CacheValid(cache, db.locations)
    modifies db`locations, db`nextLocationId, db`flights, db`nextFlightId
    ensures db.Valid() && CacheValid(newCache, db.locations)
    ensures outcome == TailVerdict(Imported(old(db.flights), Text.NormalizedLogPath(path)), points, mixed)
    ensures Extends(old(db.locations), db.locations)
    ensures outcome != Processed ==>
              db.locations == old(db.locations) && db.flights == old(db.flights) && newCache == cache
    ensures outcome == Processed ==> flightId in db.flights
    ensures outcome == Processed ==> AddsFlight(old(db.flights), db.flights, flightId, db.flights[flightId])
    ensures outcome == Processed ==>
              IsImportOf(db.flights[flightId], pilotId, date, Text.NormalizedLogPath(path), points)
    ensures outcome == Processed ==> db.flights[flightId].droneId == droneId
    ensures outcome == Processed ==>
              Placed(db.flights[flightId].locationId, start, cache, old(db.locations), db.locations, dist)
  {
    flightId := 0;
    var imported := FindImported(db, path);
    if imported {
      return Skipped(AlreadyImported), cache, flightId;
    }
    if points == [] {
      return Skipped(NoValidData), cache, flightId;
    }
    if mixed {
      return Failed, cache, flightId;
    }
    if ImportSpan(points) < MinDuration {
      return Skipped(ShortDuration), cache, flightId;
    }
    var locationId: Option<int> := None;
    newCache := cache;
    if start.Some? {
      var l;
      l, newCache := ResolveLocation(db, start.value, cache, dist);
      locationId := Some(l);
    }
    var norm := Text.NormalizedLogPath(path);
    flightId := db.AddFlight(Flight(pilotId, droneId, locationId, date, Some(norm), None, true, {}, points));
    outcome := Processed;
  }

  /** The steps of `process_dji_log` after the drone is found or created:
      the date, the samples, the start and the shared tail. */
  method ImportDjiRows(db: Store.Database, file: CsvFile, pilotId: int, droneId: int, cache: seq<int>,
                       p: Parsers, dist: Store.Distance)
    returns (outcome: Outcome, newCache: seq<int>, flightId: int)
    requires db.Valid() && CacheValid(cache, db.locations)
    modifies db`locations, db`nextLocationId, db`flights, db`nextFlightId
    ensures db.Valid() && CacheValid(newCache, db.locations)
    ensures outcome == if DjiDate(file.rows, p).None? then Skipped(InvalidDate)
                       else TailVerdict(Imported(old(db.flights), Text.NormalizedLogPath(file.path)),
                                        DjiPoints(file.rows, p), MixedOffsets(file.rows, p))
    ensures Extends(old(db.locations), db.locations)
    ensures outcome != Processed ==> db.locations == old(db.locations) && db.flights == old(db.flights)
    ensures outcome == Processed ==> flightId in db.flights
    ensures outcome == Processed ==> AddsFlight(old(db.flights), db.flights, flightId, db.flights[flightId])
    ensures outcome == Processed ==>
              IsImportOf(db.flights[flightId], pilotId, DjiDate(file.rows, p).value,
                         Text.NormalizedLogPath(file.path), DjiPoints(file.rows, p))
    ensures outcome == Processed ==> db.flights[flightId].droneId == droneId
    ensures outcome == Processed ==>
              db.flights[flightId].locationId.Some?
              && Placed(db.flights[flightId].locationId, DjiStart(file.rows, p), cache,
                        old(db.locations), db.locations, dist)
  {
    flightId := 0;
    var date := FindDjiDate(file.rows, p);
    if date.None? {
      return Skipped(InvalidDate), cache, flightId;
    }
    var points := ExtractDjiPoints(file.rows, p);
    var start := FindDjiStart(file.rows, p);
    if points != [] {
      DjiSamplesHaveStart(file.rows, p);
    }
    var mixed := MixedOffsets(file.rows, p);
    outcome, newCache, flightId :=
      ImportPoints(db, pilotId, droneId, date.value, file.path, points, start, mixed, cache, dist);
  }

  /** `process_dji_log`: an empty file and an unknown pilot are skipped;
      otherwise the drone named in the rows or the file name is found or
      created before the remaining checks. */
  method ProcessDjiLog(db: Store.Database, file: CsvFile, pilotId: int, cache: seq<int>,
                       p: Parsers, dist: Store.Distance)
    returns (outcome: Outcome, newCache: seq<int>, flightId: int)
    requires db.Valid() && CacheValid(cache, db.locations)
    modifies db`drones, db`nextDroneId, db`locations, db`nextLocationId, db`flights, db`nextFlightId
    ensures db.Valid() && CacheValid(newCache, db.locations)
    ensures outcome == DjiVerdict(file.rows, pilotId in db.pilots,
                                  Imported(old(db.flights), Text.NormalizedLogPath(file.path)), p)
    ensures Extends(old(db.drones), db.drones) && Extends(old(db.locations), db.locations)
    ensures file.rows == [] || pilotId !in db.pilots ==> db.drones == old(db.drones)
    ensures file.rows != [] && pilotId in db.pilots ==>
              exists d :: d in db.drones && db.drones[d] == DjiDroneName(Text.Basename(file.path), file.rows)
    ensures outcome != Processed ==> db.locations == old(db.locations) && db.flights == old(db.flights)
    ensures outcome == Processed ==> flightId in db.flights
    ensures outcome == Processed ==> AddsFlight(old(db.flights), db.flights, flightId, db.flights[flightId])
    ensures outcome == Processed ==>
              IsImportOf(db.flights[flightId], pilotId, DjiDate(file.rows, p).value,
                         Text.NormalizedLogPath(file.path), DjiPoints(file.rows, p))
    ensures outcome == Processed ==>
              db.flights[flightId].droneId in db.drones
              && db.drones[db.flights[flightId].droneId] == DjiDroneName(Text.Basename(file.path), file.rows)
    ensures outcome == Processed ==>
              db.flights[flightId].locationId.Some?
              && Placed(db.flights[flightId].locationId, DjiStart(file.rows, p), cache,
                        old(db.locations), db.locations, dist)
  {
    flightId := 0;
    if file.rows == [] {
      return Skipped(EmptyOrMalformed), cache, flightId;
    }
    if pilotId !in db.pilots {
      return Skipped(PilotNotFound), cache, flightId;
    }
    var name := FindDjiDroneName(Text.Basename(file.path), file.rows);
    var droneId := db.FindOrCreateDrone(name);
    outcome, newCache, flightId := ImportDjiRows(db, file, pilotId, droneId, cache, p, dist);
  }

  /** The steps of `process_edgetx_log` after the drone is found or
      created: the date, the samples and the shared tail. */
  method ImportEdgeTxRows(db: Store.Database, file: CsvFile, pilotId: int, droneId: int, cache: seq<int>,
                          p: Parsers, today: string, dist: Store.Distance)
    returns (outcome: Outcome, newCache: seq<int>, flightId: int)
    requires file.rows != []
    requires db.Valid() && CacheValid(cache, db.locations)
    modifies db`locations, db`nextLocationId, db`flights, db`nextFlightId
    ensures db.Valid() && CacheValid(newCache, db.locations)
    ensures outcome == if EdgeTxDateCellMissing(file.rows[0]) then Failed
                       else if EdgeTxDate(file.rows[0], today, p).None? then Skipped(InvalidDate)
                       else TailVerdict(Imported(old(db.flights), Text.NormalizedLogPath(file.path)),
                                        EdgeTxPoints(file.rows, p), false)
    ensures Extends(old(db.locations), db.locations)
    ensures outcome != Processed ==> db.locations == old(db.locations) && db.flights == old(db.flights)
    ensures outcome == Processed ==> flightId in db.flights
    ensures outcome == Processed ==> AddsFlight(old(db.flights), db.flights, flightId, db.flights[flightId])
    ensures outcome == Processed ==>
              IsImportOf(db.flights[flightId], pilotId, EdgeTxDate(file.rows[0], today, p).value,
                         Text.NormalizedLogPath(file.path), EdgeTxPoints(file.rows, p))
    ensures outcome == Processed ==> db.flights[flightId].droneId == droneId
    ensures outcome == Processed ==>
              Placed(db.flights[flightId].locationId, StartFix(EdgeTxPoints(file.rows, p)), cache,
                     old(db.locations), db.locations, dist)
  {
    flightId := 0;
    if EdgeTxDateCellMissing(file.rows[0]) {
      return Failed, cache, flightId;
    }
    var date := EdgeTxDate(file.rows[0], today, p);
    if date.None? {
      return Skipped(InvalidDate), cache, flightId;
    }
    var points := ExtractEdgeTxPoints(file.rows, p);
    var start := FindStartFix(points);
    outcome, newCache, flightId :=
      ImportPoints(db, pilotId, droneId, date.value, file.path, points, start, false, cache, dist);
  }

  /** `process_edgetx_log`: an empty file is skipped, an unknown pilot
      raises, a file name without a drone name is skipped; otherwise the
      drone is found or created before the remaining checks. */
  method ProcessEdgeTxLog(db: Store.Database, file: CsvFile, pilotId: int, cache: seq<int>,
                          p: Parsers, today: string, dist: Store.Distance)
    returns (outcome: Outcome, newCache: seq<int>, flightId: int)
    requires db.Valid() && CacheValid(cache, db.locations)
    modifies db`drones, db`nextDroneId, db`locations, db`nextLocationId, db`flights, db`nextFlightId
    ensures db.Valid() && CacheValid(newCache, db.locations)
    ensures outcome == EdgeTxVerdict(Text.Basename(file.path), file.rows, pilotId in db.pilots,
                                     Imported(old(db.flights), Text.NormalizedLogPath(file.path)), p, today)
    ensures Extends(old(db.drones), db.drones) && Extends(old(db.locations), db.locations)
    ensures file.rows == [] || pilotId !in db.pilots || FileDroneName(Text.Basename(file.path)) == "" ==>
              db.drones == old(db.drones)
    ensures file.rows != [] && pilotId in db.pilots && FileDroneName(Text.Basename(file.path)) != "" ==>
              exists d :: d in db.drones && db.drones[d] == FileDroneName(Text.Basename(file.path))
    ensures outcome != Processed ==> db.locations == old(db.locations) && db.flights == old(db.flights)
    ensures outcome == Processed ==> flightId in db.flights
    ensures outcome == Processed ==> AddsFlight(old(db.flights), db.flights, flightId, db.flights[flightId])
    ensures outcome == Processed ==>
              IsImportOf(db.flights[flightId], pilotId, EdgeTxDate(file.rows[0], today, p).value,
                         Text.NormalizedLogPath(file.path), EdgeTxPoints(file.rows, p))
    ensures outcome == Processed ==>
              db.flights[flightId].droneId in db.drones
              && db.drones[db.flights[flightId].droneId] == FileDroneName(Text.Basename(file.path))
    ensures outcome == Processed ==>
              Placed(db.flights[flightId].locationId, StartFix(EdgeTxPoints(file.rows, p)), cache,
                     old(db.locations), db.locations, dist)
  {
    flightId := 0;
    if file.rows == [] {
      return Skipped(EmptyOrMalformed), cache, flightId;
    }
    if pilotId !in db.pilots {
      return Failed, cache, flightId;
    }
    var name := FileDroneName(Text.Basename(file.path));
    if name == "" {
      return Skipped(NoDroneName), cache, flightId;
    }
    var droneId := db.FindOrCreateDrone(name);
    outcome, newCache, flightId := ImportEdgeTxRows(db, file, pilotId, droneId, cache, p, today, dist);
  }

  /** What `process_csv_file` makes of a file, by the format its first
      line names. */
  function FileVerdict(file: CsvFile, pilotKnown: bool, imported: bool, p: Parsers, today: string): Outcome {
    match FormatOf(file.header)
    case Dji => DjiVerdict(file.rows, pilotKnown, imported, p)
    case EdgeTx => EdgeTxVerdict(Text.Basename(file.path), file.rows, pilotKnown, imported, p, today)
    case Unknown => Skipped(UnknownFormat)
  }

  /** With an unknown pilot, exactly the EdgeTX logs with rows raise; only
      a recognised log with rows and a known pilot is stored; and a log
      already imported is never imported again, whatever its format. */
  lemma FileVerdictFacts(file: CsvFile, pilotKnown: bool, imported: bool, p: Parsers, today: string)
    ensures !pilotKnown ==>
              (FileVerdict(file, pilotKnown, imported, p, today) == Failed <==>
                 FormatOf(file.header) == EdgeTx && file.rows != [])
    ensures FileVerdict(file, pilotKnown, imported, p, today) == Processed ==>
              pilotKnown && file.rows != [] && FormatOf(file.header) != Unknown
    ensures imported ==> FileVerdict(file, pilotKnown, imported, p, today) != Processed
  {
    DjiProcessedIff(file.rows, pilotKnown, imported, p);
    EdgeTxProcessedIff(Text.Basename(file.path), file.rows, pilotKnown, imported, p, today);
  }

  /** `process_csv_file`: dispatch on the first line. */
  method ProcessCsvFile(db: Store.Database, file: CsvFile, pilotId: int, cache: seq<int>,
                        p: Parsers, today: string, dist: Store.Distance)
    returns (result: FileResult, newCache: seq<int>, flightId: int)
    requires db.Valid() && CacheValid(cache, db.locations)
    modifies db`drones, db`nextDroneId, db`locations, db`nextLocationId, db`flights, db`nextFlightId
    ensures db.Valid() && CacheValid(newCache, db.locations)
    ensures result.fileName == Text.Basename(file.path)
    ensures result.outcome == FileVerdict(file, pilotId in db.pilots,
                                          Imported(old(db.flights), Text.NormalizedLogPath(file.path)), p, today)
    ensures Extends(old(db.drones), db.drones) && Extends(old(db.locations), db.locations)
    ensures result.outcome != Processed ==> db.flights == old(db.flights)
    ensures result.outcome == Processed ==> flightId in db.flights
    ensures result.outcome == Processed ==> AddsFlight(old(db.flights), db.flights, flightId, db.flights[flightId])
    ensures result.outcome == Processed ==> SameLog(db.flights[flightId], Text.NormalizedLogPath(file.path))
    ensures pilotId !in db.pilots ==>
              db.drones == old(db.drones) && db.locations == old(db.locations) && db.flights == old(db.flights)
  {
    var outcome;
    flightId := 0;
    match FormatOf(file.header) {
      case Dji =>
        outcome, newCache, flightId := ProcessDjiLog(db, file, pilotId, cache, p, dist);
      case EdgeTx =>
        outcome, newCache, flightId := ProcessEdgeTxLog(db, file, pilotId, cache, p, today, dist);
      case Unknown =>
        outcome, newCache := Skipped(UnknownFormat), cache;
    }
    if outcome == Processed {
      Text.NormalizeIdempotent(file.path);
    }
    result := FileResult(Text.Basename(file.path), outcome);
  }

  // ---------------------------------------------------------------------
  // The bulk import

  /** A verdict for each file, given whether its log counts as imported. */
  type Verdicts = (CsvFile, bool) -> Outcome

  /** `process_csv_file`'s verdicts for a pilot that is or is not known. */
  function VerdictOf(pilotKnown: bool, p: Parsers, today: string): Verdicts {
    (file: CsvFile, imported: bool) => FileVerdict(file, pilotKnown, imported, p, today)
  }

  /** The bulk import's verdicts never store a log already imported, and
      with an unknown pilot they store nothing and fail exactly on the
      EdgeTX logs with rows. */
  lemma VerdictOfFacts(pilotKnown: bool, p: Parsers, today: string)
    ensures forall file, imported :: imported ==> VerdictOf(pilotKnown, p, today)(file, imported) != Processed
    ensures !pilotKnown ==> forall file, imported ::
              VerdictOf(pilotKnown, p, today)(file, imported) != Processed
              && (VerdictOf(pilotKnown, p, today)(file, imported) == Failed <==>
                    FormatOf(file.header) == EdgeTx && file.rows != [])
  {
    forall file, imported {
      FileVerdictFacts(file, pilotKnown, imported, p, today);
    }
  }

  /** What the bulk import makes of the files, in order: each file's
      verdict, where a log counts as imported when a flight stored before
      the import or a file processed earlier in it came from that log; the
      first file that raises ends the list. The session does not flush
      before it queries, so the source sees an earlier file's flight only
      after a later flush; the files of one directory have distinct names,
      though, so the two readings agree (`OutcomesOfDistinctNames`). */
  ghost function Outcomes(files: seq<CsvFile>, verdict: Verdicts, original: map<int, Flight>,
                          done: set<string>): (o: seq<Outcome>)
    ensures |o| <= |files|
    decreases |files|
  {
    if files == [] then []
    else
      var norm := Text.NormalizedLogPath(files[0].path);
      var v := verdict(files[0], Imported(original, norm) || norm in done);
      if v == Failed then [Failed]
      else [v] + Outcomes(files[1..], verdict, original, if v == Processed then done + {norm} else done)
  }

  /** The outcomes a list of file results reports. */
  function OutcomesOf(results: seq<FileResult>): seq<Outcome> {
    seq(|results|, k requires 0 <= k < |results| => results[k].outcome)
  }

  /** The normalised paths of the files reported as processed. */
  ghost function ProcessedLogs(files: seq<CsvFile>, results: seq<FileResult>): set<string>
    requires |results| <= |files|
  {
    set k | 0 <= k < |results| && results[k].outcome == Processed :: Text.NormalizedLogPath(files[k].path)
  }

  /** The outcomes of a non-empty list of files: the first file's verdict,
      followed, unless it raises, by the outcomes of the rest. */
  lemma OutcomesCons(files: seq<CsvFile>, verdict: Verdicts, original: map<int, Flight>, done: set<string>)
    requires files != []
    ensures var norm := Text.NormalizedLogPath(files[0].path);
            var v := verdict(files[0], Imported(original, norm) || norm in done);
            v != Failed ==>
              Outcomes(files, verdict, original, done)
                == [v] + Outcomes(files[1..], verdict, original, if v == Processed then done + {norm} else done)
  {
  }

  /** A failure can only be the last outcome. */
  lemma {:induction false} OutcomesFailLast(files: seq<CsvFile>, verdict: Verdicts, original: map<int, Flight>,
                                            done: set<string>)
    ensures var o := Outcomes(files, verdict, original, done);
            forall k :: 0 <= k < |o| - 1 ==> o[k] != Failed
    decreases |files|
  {
    if files != [] {
      var norm := Text.NormalizedLogPath(files[0].path);
      var v := verdict(files[0], Imported(original, norm) || norm in done);
      if v != Failed {
        var done' := if v == Processed then done + {norm} else done;
        OutcomesFailLast(files[1..], verdict, original, done');
        OutcomesCons(files, verdict, original, done);
      }
    }
  }

  /** Without a failure every file has an outcome. */
  lemma {:induction false} OutcomesComplete(files: seq<CsvFile>, verdict: Verdicts, original: map<int, Flight>,
                                            done: set<string>)
    ensures Failed !in Outcomes(files, verdict, original, done) ==>
              |Outcomes(files, verdict, original, done)| == |files|
    decreases |files|
  {
    if files != [] {
      var norm := Text.NormalizedLogPath(files[0].path);
      var v := verdict(files[0], Imported(original, norm) || norm in done);
      if v != Failed {
        var done' := if v == Processed then done + {norm} else done;
        OutcomesComplete(files[1..], verdict, original, done');
        OutcomesCons(files, verdict, original, done);
        var tail := Outcomes(files[1..], verdict, original, done');
        assert Failed in tail ==> Failed in [v] + tail;
      }
    }
  }

  /** When the verdicts never store a log that counts as imported, a
      processed file's log was neither stored before the import nor
      processed earlier in it. */
  lemma {:induction false} OutcomesFresh(files: seq<CsvFile>, verdict: Verdicts, original: map<int, Flight>,
                                         done: set<string>)
    requires forall file, imported :: imported ==> verdict(file, imported) != Processed
    ensures var o := Outcomes(files, verdict, original, done);
            forall k :: 0 <= k < |o| && o[k] == Processed ==>
              !Imported(original, Text.NormalizedLogPath(files[k].path))
              && Text.NormalizedLogPath(files[k].path) !in done
    decreases |files|
  {
    if files != [] {
      var norm := Text.NormalizedLogPath(files[0].path);
      var v := verdict(files[0], Imported(original, norm) || norm in done);
      if v != Failed {
        var done' := if v == Processed then done + {norm} else done;
        OutcomesFresh(files[1..], verdict, original, done');
        OutcomesCons(files, verdict, original, done);
        var tail := Outcomes(files[1..], verdict, original, done');
        forall k | 1 <= k < 1 + |tail| && tail[k - 1] == Processed
          ensures !Imported(original, Text.NormalizedLogPath(files[k].path))
                  && Text.NormalizedLogPath(files[k].path) !in done
        {
          assert files[k] == files[1..][k - 1];
        }
      }
    }
  }

  /** The files `glob` lists in one directory have distinct names. */
  predicate DistinctNames(files: seq<CsvFile>) {
    forall i, j | 0 <= i < j < |files| :: Text.Basename(files[i].path) != Text.Basename(files[j].path)
  }

  /** With distinct file names, a file processed earlier in the import is
      never the log of a later one: each outcome is the file's verdict
      against the flights stored before the import alone, whether or not
      the session has flushed the earlier flights. */
  lemma {:induction false} OutcomesOfDistinctNames(files: seq<CsvFile>, verdict: Verdicts,
                                                   original: map<int, Flight>, done: set<string>)
    requires DistinctNames(files)
    requires forall k | 0 <= k < |files| :: Text.NormalizedLogPath(files[k].path) !in done
    ensures var o := Outcomes(files, verdict, original, done);
            forall k :: 0 <= k < |o| ==>
              o[k] == verdict(files[k], Imported(original, Text.NormalizedLogPath(files[k].path)))
    decreases |files|
  {
    if files != [] {
      var norm := Text.NormalizedLogPath(files[0].path);
      var v := verdict(files[0], Imported(original, norm) || norm in done);
      if v != Failed {
        var done' := if v == Processed then done + {norm} else done;
        var rest := files[1..];
        assert DistinctNames(rest) by {
          forall i, j | 0 <= i < j < |rest|
            ensures Text.Basename(rest[i].path) != Text.Basename(rest[j].path)
          {
            assert rest[i] == files[i + 1] && rest[j] == files[j + 1];
          }
        }
        forall k | 0 <= k < |rest| ensures Text.NormalizedLogPath(rest[k].path) !in done' {
          assert rest[k] == files[k + 1];
          Text.NormalizedIffSameBasename(files[0].path, rest[k].path);
        }
        OutcomesOfDistinctNames(rest, verdict, original, done');
        OutcomesCons(files, verdict, original, done);
        var tail := Outcomes(rest, verdict, original, done');
        forall k | 1 <= k < 1 + |tail|
          ensures tail[k - 1] == verdict(files[k], Imported(original, Text.NormalizedLogPath(files[k].path)))
        {
          assert files[k] == rest[k - 1];
        }
      }
    }
  }

  /** No log is imported twice: two processed files have different logs. */
  lemma {:induction false} OutcomesNoReimport(files: seq<CsvFile>, verdict: Verdicts, original: map<int, Flight>,
                                              done: set<string>)
    requires forall file, imported :: imported ==> verdict(file, imported) != Processed
    ensures var o := Outcomes(files, verdict, original, done);
            forall j, k :: 0 <= j < k < |o| && o[j] == Processed && o[k] == Processed ==>
              Text.NormalizedLogPath(files[j].path) != Text.NormalizedLogPath(files[k].path)
    decreases |files|
  {
    if files != [] {
      var norm := Text.NormalizedLogPath(files[0].path);
      var v := verdict(files[0], Imported(original, norm) || norm in done);
      if v != Failed {
        var done' := if v == Processed then done + {norm} else done;
        OutcomesNoReimport(files[1..], verdict, original, done');
        OutcomesFresh(files[1..], verdict, original, done');
        OutcomesCons(files, verdict, original, done);
        var tail := Outcomes(files[1..], verdict, original, done');
        forall j, k | 0 <= j < k < 1 + |tail| && ([v] + tail)[j] == Processed && tail[k - 1] == Processed
          ensures Text.NormalizedLogPath(files[j].path) != Text.NormalizedLogPath(files[k].path)
        {
          assert files[k] == files[1..][k - 1];
          if j > 0 {
            assert files[j] == files[1..][j - 1];
          }
        }
      }
    }
  }

  /** When the verdicts store nothing and fail exactly on the EdgeTX logs
      with rows, as they do for an unknown pilot, nothing is stored and the
      import fails exactly when some EdgeTX log has rows. */
  lemma {:induction false} OutcomesUnknownPilot(files: seq<CsvFile>, verdict: Verdicts, original: map<int, Flight>,
                                                done: set<string>)
    requires forall file, imported ::
               verdict(file, imported) != Processed
               && (verdict(file, imported) == Failed <==> FormatOf(file.header) == EdgeTx && file.rows != [])
    ensures Processed !in Outcomes(files, verdict, original, done)
    ensures Failed in Outcomes(files, verdict, original, done) <==>
              exists k :: 0 <= k < |files| && FormatOf(files[k].header) == EdgeTx && files[k].rows != []
    decreases |files|
  {
    if files != [] {
      var norm := Text.NormalizedLogPath(files[0].path);
      var v := verdict(files[0], Imported(original, norm) || norm in done);
      if v != Failed {
        OutcomesUnknownPilot(files[1..], verdict, original, done);
        var tail := Outcomes(files[1..], verdict, original, done);
        assert Outcomes(files, verdict, original, done) == [v] + tail;
        if exists k :: 0 <= k < |files| && FormatOf(files[k].header) == EdgeTx && files[k].rows != [] {
          var k :| 0 <= k < |files| && FormatOf(files[k].header) == EdgeTx && files[k].rows != [];
          assert k > 0 && files[k] == files[1..][k - 1];
        }
        if exists k :: 0 <= k < |files[1..]| && FormatOf(files[1..][k].header) == EdgeTx && files[1..][k].rows != [] {
          var k :| 0 <= k < |files[1..]| && FormatOf(files[1..][k].header) == EdgeTx && files[1..][k].rows != [];
          assert files[1..][k] == files[k + 1];
        }
      }
    }
  }

  /** Storing one flight from the log norm makes exactly norm newly
      imported. */
  lemma ImportedAdd(before: map<int, Flight>, after: map<int, Flight>, id: int, norm: string)
    requires id in after && AddsFlight(before, after, id, after[id]) && SameLog(after[id], norm)
    ensures forall n :: Imported(after, n) <==> Imported(before, n) || n == norm
  {
    forall n ensures Imported(after, n) <==> Imported(before, n) || n == norm {
      if Imported(after, n) {
        var j :| j in after && SameLog(after[j], n);
        if j != id {
          assert j in before && before[j] == after[j];
        }
      }
      if Imported(before, n) {
        var j :| j in before && SameLog(before[j], n);
        assert j in after && after[j] == before[j];
      }
      if n == norm {
        assert SameLog(after[id], n);
      }
    }
  }

  /** The loop of the bulk import has handled the first |results| files:
      its results agree with Outcomes so far, and the stored flights are
      those before the import plus one per processed log. */
  ghost predicate Handled(files: seq<CsvFile>, results: seq<FileResult>, flights: map<int, Flight>,
                          verdict: Verdicts, original: map<int, Flight>)
  {
    && |results| <= |files|
    && (forall k :: 0 <= k < |results| ==>
          results[k].fileName == Text.Basename(files[k].path) && results[k].outcome != Failed)
    && Outcomes(files, verdict, original, {})
         == OutcomesOf(results) + Outcomes(files[|results|..], verdict, original, ProcessedLogs(files, results))
    && (forall n :: Imported(flights, n) <==> Imported(original, n) || n in ProcessedLogs(files, results))
  }

  /** The outcomes from file i on: the verdict of file i, then, unless
      it raises, the outcomes of the files after it. */
  lemma OutcomesFrom(files: seq<CsvFile>, i: nat, verdict: Verdicts, original: map<int, Flight>, done: set<string>)
    requires i < |files|
    ensures var norm := Text.NormalizedLogPath(files[i].path);
            var v := verdict(files[i], Imported(original, norm) || norm in done);
            Outcomes(files[i..], verdict, original, done)
              == if v == Failed then [Failed]
                 else [v] + Outcomes(files[i + 1..], verdict, original, if v == Processed then done + {norm} else done)
  {
    var rest := files[i..];
    assert rest[0] == files[i] && rest[1..] == files[i + 1..];
  }

  /** Reporting one more file adds its log to the processed ones exactly
      when it was processed. */
  lemma ProcessedLogsAppend(files: seq<CsvFile>, results: seq<FileResult>, result: FileResult)
    requires |results| < |files|
    ensures var norm := Text.NormalizedLogPath(files[|results|].path);
            ProcessedLogs(files, results + [result])
              == if result.outcome == Processed then ProcessedLogs(files, results) + {norm}
                 else ProcessedLogs(files, results)
  {
    var i := |results|;
    var norm := Text.NormalizedLogPath(files[i].path);
    var rs := results + [result];
    var done := ProcessedLogs(files, results);
    var done' := if result.outcome == Processed then done + {norm} else done;
    forall n | n in ProcessedLogs(files, rs) ensures n in done' {
      var k :| 0 <= k < |rs| && rs[k].outcome == Processed && n == Text.NormalizedLogPath(files[k].path);
      if k < i {
        assert rs[k] == results[k];
      }
    }
    forall n | n in done' ensures n in ProcessedLogs(files, rs) {
      if n in done {
        var k :| 0 <= k < |results| && results[k].outcome == Processed && n == Text.NormalizedLogPath(files[k].path);
        assert rs[k] == results[k];
      } else {
        assert rs[i] == result;
      }
    }
  }

  /** The outcomes so far grow by the verdict of the next file. */
  lemma OutcomesGrow(files: seq<CsvFile>, results: seq<FileResult>, verdict: Verdicts, original: map<int, Flight>,
                     result: FileResult, imported: bool)
    requires |results| < |files|
    requires Outcomes(files, verdict, original, {})
               == OutcomesOf(results) + Outcomes(files[|results|..], verdict, original, ProcessedLogs(files, results))
    requires imported == (Imported(original, Text.NormalizedLogPath(files[|results|].path))
                          || Text.NormalizedLogPath(files[|results|].path) in ProcessedLogs(files, results))
    requires result.outcome == verdict(files[|results|], imported) && result.outcome != Failed
    ensures Outcomes(files, verdict, original, {})
              == OutcomesOf(results + [result])
                 + Outcomes(files[|results| + 1..], verdict, original, ProcessedLogs(files, results + [result]))
  {
    var i := |results|;
    var done, done' := ProcessedLogs(files, results), ProcessedLogs(files, results + [result]);
    ProcessedLogsAppend(files, results, result);
    OutcomesFrom(files, i, verdict, original, done);
    var rest := Outcomes(files[i + 1..], verdict, original, done');
    assert Outcomes(files[i..], verdict, original, done) == [result.outcome] + rest;
    assert OutcomesOf(results + [result]) == OutcomesOf(results) + [result.outcome];
    ConcatAssoc(OutcomesOf(results), [result.outcome], rest);
  }

  lemma ConcatAssoc<T>(a: seq<T>, b: seq<T>, c: seq<T>)
    ensures a + (b + c) == (a + b) + c
  {
  }

  /** Handling one more file that does not raise keeps Handled. */
  lemma HandledGrows(files: seq<CsvFile>, results: seq<FileResult>, before: map<int, Flight>,
                     after: map<int, Flight>, verdict: Verdicts, original: map<int, Flight>,
                     result: FileResult, id: int)
    requires Handled(files, results, before, verdict, original) && |results| < |files|
    requires result.fileName == Text.Basename(files[|results|].path)
    requires result.outcome == verdict(files[|results|], Imported(before, Text.NormalizedLogPath(files[|results|].path)))
    requires result.outcome != Failed
    requires result.outcome != Processed ==> after == before
    requires result.outcome == Processed ==>
               id in after && AddsFlight(before, after, id, after[id])
               && SameLog(after[id], Text.NormalizedLogPath(files[|results|].path))
    ensures Handled(files, results + [result], after, verdict, original)
  {
    var i := |results|;
    var norm := Text.NormalizedLogPath(files[i].path);
    var rs := results + [result];
    OutcomesGrow(files, results, verdict, original, result, Imported(before, norm));
    ProcessedLogsAppend(files, results, result);
    if result.outcome == Processed {
      ImportedAdd(before, after, id, norm);
    }
    assert forall k :: 0 <= k < |rs| ==> rs[k] == if k < i then results[k] else result;
  }

  /** A file that raises ends the outcomes. */
  lemma HandledFails(files: seq<CsvFile>, results: seq<FileResult>, flights: map<int, Flight>,
                     verdict: Verdicts, original: map<int, Flight>)
    requires Handled(files, results, flights, verdict, original) && |results| < |files|
    requires verdict(files[|results|], Imported(flights, Text.NormalizedLogPath(files[|results|].path))) == Failed
    ensures Outcomes(files, verdict, original, {}) == OutcomesOf(results) + [Failed]
  {
    OutcomesFrom(files, |results|, verdict, original, ProcessedLogs(files, results));
  }

  /** The loop of `import_all_csvs` over the files, up to the first file
      that raises. */
  method ImportFiles(db: Store.Database, files: seq<CsvFile>, pilotId: int,
                     p: Parsers, today: string, dist: Store.Distance)
    returns (results: seq<FileResult>, failed: bool)
    requires db.Valid()
    modifies db`drones, db`nextDroneId, db`locations, db`nextLocationId, db`flights, db`nextFlightId
    ensures db.Valid()
    ensures |results| <= |files| && (!failed ==> |results| == |files|)
    ensures forall k :: 0 <= k < |results| ==>
              results[k].fileName == Text.Basename(files[k].path) && results[k].outcome != Failed
    ensures Outcomes(files, VerdictOf(pilotId in db.pilots, p, today), old(db.flights), {})
              == OutcomesOf(results) + (if failed then [Failed] else [])
    ensures Extends(old(db.flights), db.flights)
    ensures !failed ==> forall n :: Imported(db.flights, n) <==>
              Imported(old(db.flights), n) || n in ProcessedLogs(files, results)
    ensures pilotId !in db.pilots ==>
              db.drones == old(db.drones) && db.locations == old(db.locations) && db.flights == old(db.flights)
  {
    results := [];
    var cache: seq<int> := [];
    ghost var verdict := VerdictOf(pilotId in db.pilots, p, today);
    assert files[0..] == files;
    assert ProcessedLogs(files, []) == {};
    var i := 0;
    while i < |files|
      invariant i == |results| && Handled(files, results, db.flights, verdict, old(db.flights))
      invariant db.Valid() && CacheValid(cache, db.locations)
      invariant Extends(old(db.flights), db.flights)
      invariant pilotId !in db.pilots ==>
                  db.drones == old(db.drones) && db.locations == old(db.locations) && db.flights == old(db.flights)
    {
      ghost var before := db.flights;
      var result, flightId;
      result, cache, flightId := ProcessCsvFile(db, files[i], pilotId, cache, p, today, dist);
      if result.outcome == Failed {
        HandledFails(files, results, before, verdict, old(db.flights));
        return results, true;
      }
      HandledGrows(files, results, before, db.flights, verdict, old(db.flights), result, flightId);
      results := results + [result];
      i := i + 1;
    }
    assert files[|results|..] == [];
    failed := false;
  }

  /** `import_all_csvs`: every file of the import directory in turn, in one
      transaction; a missing directory is 404, and a file that raises rolls
      every change back and is 500. Otherwise the response lists each
      file's name with its outcome. */
  method ImportAllCsvs(db: Store.Database, dirExists: bool, files: seq<CsvFile>, pilotId: int,
                       p: Parsers, today: string, dist: Store.Distance)
    returns (r: Result<seq<FileResult>>)
    requires db.Valid()
    modifies db`drones, db`nextDroneId, db`locations, db`nextLocationId, db`flights, db`nextFlightId
    ensures db.Valid()
    ensures !dirExists ==> r == Err(ImportDirMissing)
    ensures dirExists ==>
              (r.Ok? <==> Failed !in Outcomes(files, VerdictOf(pilotId in db.pilots, p, today), old(db.flights), {}))
    ensures dirExists && r.Err? ==> r == Err(ImportFailed)
    ensures r.Err? ==>
              db.drones == old(db.drones) && db.locations == old(db.locations) && db.flights == old(db.flights)
    ensures r.Ok? ==> |r.value| == |files|
    ensures r.Ok? ==>
              |Outcomes(files, VerdictOf(pilotId in db.pilots, p, today), old(db.flights), {})| == |files|
              && forall k :: 0 <= k < |files| ==>
              r.value[k] == FileResult(Text.Basename(files[k].path),
                                       Outcomes(files, VerdictOf(pilotId in db.pilots, p, today), old(db.flights), {})[k])
    ensures r.Ok? ==> Extends(old(db.flights), db.flights)
    ensures r.Ok? ==> forall n :: Imported(db.flights, n) <==>
              Imported(old(db.flights), n) || n in ProcessedLogs(files, r.value)
  {
    if !dirExists {
      return Err(ImportDirMissing);
    }
    var drones, nextDroneId := db.drones, db.nextDroneId;
    var locations, nextLocationId := db.locations, db.nextLocationId;
    var flights, nextFlightId := db.flights, db.nextFlightId;
    var results, failed := ImportFiles(db, files, pilotId, p, today, dist);
    ghost var o := Outcomes(files, VerdictOf(pilotId in db.pilots, p, today), flights, {});
    if failed {
      assert o[|o| - 1] == Failed;
      db.Rollback(drones, nextDroneId, locations, nextLocationId, flights, nextFlightId);
      return Err(ImportFailed);
    }
    assert o == OutcomesOf(results);
    assert Failed !in o by {
      forall k | 0 <= k < |o| ensures o[k] != Failed {
        assert o[k] == results[k].outcome;
      }
    }
    return Ok(results);
  }
}
