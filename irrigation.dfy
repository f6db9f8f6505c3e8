/** The drip-irrigation page (src/pages/Irigasitetes.jsx): readings mapped from
    a public spreadsheet in live mode, or prepended by a simulator otherwise,
    and a CSV download of whatever is shown. */
module Irrigation {
  import opened Wrappers
  import Js
  import Cells
  import Seqs
  import Strings
  import Csv
  import IrrigationChart
  import Series

  /** Where a reading came from, as its `status` field says. */
  datatype Link = Connected | Disconnected | Dummy {
    function Name(): string
    {
      match this
      case Connected => "connected"
      case Disconnected => "disconnected"
      case Dummy => "dummy"
    }
  }

  datatype Reading = Reading(
    timestamp: string,
    temperature: real,     // soil temperature, "Suhu Tanah"
    temperatureAir: real,  // "Suhu Udara"
    humidity: real,        // "Kelembaban Udara"
    soilMoisture: real,    // "Kelembapan Tanah"
    ph: real,
    flowRate: real,
    status: Link)

  /** `"d/m/y"` rewritten as `"y-mm-dd"`, where `m` and `d` are padded to two
      digits and only the first three pieces between slashes are used. With
      fewer than three pieces the year is JavaScript's `undefined`, which the
      template literal prints as "undefined". */
  function DmyToIso(date: string): string
    requires '/' in date
  {
    var parts := Strings.Split(date, '/');
    var y := if |parts| >= 3 then parts[2] else "undefined";
    y + "-" + Strings.PadStart2(parts[1]) + "-" + Strings.PadStart2(parts[0])
  }

  /** `parseTimestamp(row)`: the "Timestamp" (date) and "Waktu" (time) cells
      joined into an ISO-like `date T time`; `now` stands for
      `new Date().toISOString()`. */
  function ParseTimestamp(row: Cells.Row, now: string): string
  {
    var date, time := Cells.Text(row, "Timestamp"), Cells.Text(row, "Waktu");
    if date != "" && time != "" && '-' in date then date + "T" + time
    else if date != "" && time != "" && '/' in date then DmyToIso(date) + "T" + time
    else if date != "" then date
    else if time != "" then time
    else now
  }

  /** The live filter: a row is kept when it has a date or a time cell. */
  predicate HasTimeCell(row: Cells.Row)
  {
    Cells.Text(row, "Timestamp") != "" || Cells.Text(row, "Waktu") != ""
  }

  /** A row that has a date or a time cell never receives the current instant:
      its timestamp is the same whatever `now` is. */
  lemma KeptRowsNeverFabricate(row: Cells.Row, now1: string, now2: string)
    requires HasTimeCell(row)
    ensures ParseTimestamp(row, now1) == ParseTimestamp(row, now2)
  {
  }

  /** Both cells present and a dashed date: the date is kept as it is and
      joined to the time with "T". */
  lemma DashedDate(row: Cells.Row, now: string)
    requires Cells.Text(row, "Timestamp") != "" && Cells.Text(row, "Waktu") != ""
    requires '-' in Cells.Text(row, "Timestamp")
    ensures ParseTimestamp(row, now) == Cells.Text(row, "Timestamp") + "T" + Cells.Text(row, "Waktu")
  {
  }

  /** Both cells present but a date with neither '-' nor '/': the date comes
      back unchanged and the time is dropped. */
  lemma UnrecognisedDate(row: Cells.Row, now: string)
    requires Cells.Text(row, "Timestamp") != "" && Cells.Text(row, "Waktu") != ""
    requires '-' !in Cells.Text(row, "Timestamp") && '/' !in Cells.Text(row, "Timestamp")
    ensures ParseTimestamp(row, now) == Cells.Text(row, "Timestamp")
  {
  }

  /** A lone date or a lone time is returned as it is; `now` is used exactly
      when both are missing. */
  lemma Fallbacks(row: Cells.Row, now: string)
    ensures Cells.Text(row, "Timestamp") != "" && Cells.Text(row, "Waktu") == "" ==>
      ParseTimestamp(row, now) == Cells.Text(row, "Timestamp")
    ensures Cells.Text(row, "Timestamp") == "" && Cells.Text(row, "Waktu") != "" ==>
      ParseTimestamp(row, now) == Cells.Text(row, "Waktu")
    ensures !HasTimeCell(row) ==> ParseTimestamp(row, now) == now
    ensures HasTimeCell(row) ==> ParseTimestamp(row, now) != ""
  {
    var date, time := Cells.Text(row, "Timestamp"), Cells.Text(row, "Waktu");
    if date != "" && time != "" && '/' in date && '-' !in date {
      assert |DmyToIso(date) + "T" + time| > 0;
    }
  }

  /** Three slash-separated pieces: year first, month and day padded. */
  lemma DayMonthYear(d: string, m: string, y: string)
    requires '/' !in d && '/' !in m && '/' !in y
    ensures '/' in d + "/" + m + "/" + y
    ensures DmyToIso(d + "/" + m + "/" + y) ==
      y + "-" + Strings.PadStart2(m) + "-" + Strings.PadStart2(d)
  {
    var s := d + "/" + m + "/" + y;
    assert Strings.Join([d, m, y], "/") == s by {
      assert Strings.Join([m, y], "/") == m + "/" + y;
    }
    assert s[|d|] == '/';
    Strings.SplitJoin([d, m, y], '/');
  }

  /** Both cells present and a `d/m/y` date without dashes: the result is
      `y-mm-dd T time`. */
  lemma SlashDate(row: Cells.Row, d: string, m: string, y: string, now: string)
    requires '/' !in d && '/' !in m && '/' !in y
    requires '-' !in d && '-' !in m && '-' !in y
    requires Cells.Text(row, "Timestamp") == d + "/" + m + "/" + y
    requires Cells.Text(row, "Waktu") != ""
    ensures ParseTimestamp(row, now) ==
      y + "-" + Strings.PadStart2(m) + "-" + Strings.PadStart2(d) + "T" + Cells.Text(row, "Waktu")
  {
    DayMonthYear(d, m, y);
    assert '-' !in d + "/" + m + "/" + y;
  }

  /** "25/01/2024" with "14:30:00" gives "2024-01-25T14:30:00". */
  lemma SlashDateExample(row: Cells.Row, now: string)
    requires Cells.Text(row, "Timestamp") == "25/01/2024"
    requires Cells.Text(row, "Waktu") == "14:30:00"
    ensures ParseTimestamp(row, now) == "2024-01-25T14:30:00"
  {
    SlashDateExamplePieces(row, now);
    SlashDateExampleText();
  }

  lemma SlashDateExampleText()
    ensures "2024" + "-" + Strings.PadStart2("01") + "-" + Strings.PadStart2("25") + "T" + "14:30:00"
      == "2024-01-25T14:30:00"
  {
    assert Strings.PadStart2("01") == "01" && Strings.PadStart2("25") == "25";
  }

  lemma SlashDateExamplePieces(row: Cells.Row, now: string)
    requires Cells.Text(row, "Timestamp") == "25/01/2024"
    requires Cells.Text(row, "Waktu") == "14:30:00"
    ensures ParseTimestamp(row, now) ==
      "2024" + "-" + Strings.PadStart2("01") + "-" + Strings.PadStart2("25") + "T" + "14:30:00"
  {
    assert Cells.Text(row, "Timestamp") == "25" + "/" + "01" + "/" + "2024";
    SlashDate(row, "25", "01", "2024", now);
  }

  /** A date with a single slash has no year piece: "25/01" with "14:30:00"
      gives "undefined-01-25T14:30:00". */
  lemma MissingYearExample(row: Cells.Row, now: string)
    requires Cells.Text(row, "Timestamp") == "25/01"
    requires Cells.Text(row, "Waktu") == "14:30:00"
    ensures ParseTimestamp(row, now) == "undefined-01-25T14:30:00"
  {
    MissingYearPieces(row, now);
    MissingYearText();
  }

  lemma MissingYearText()
    ensures "undefined" + "-" + Strings.PadStart2("01") + "-" + Strings.PadStart2("25") + "T" + "14:30:00"
      == "undefined-01-25T14:30:00"
  {
    assert Strings.PadStart2("01") == "01" && Strings.PadStart2("25") == "25";
  }

  lemma MissingYearPieces(row: Cells.Row, now: string)
    requires Cells.Text(row, "Timestamp") == "25/01"
    requires Cells.Text(row, "Waktu") == "14:30:00"
    ensures ParseTimestamp(row, now) ==
      "undefined" + "-" + Strings.PadStart2("01") + "-" + Strings.PadStart2("25") + "T" + "14:30:00"
  {
    var date := Cells.Text(row, "Timestamp");
    assert date == Strings.Join(["25", "01"], "/");
    assert date[2] == '/';
    Strings.SplitJoin(["25", "01"], '/');
    assert '-' !in date;
  }

  /** One spreadsheet row as a reading: numbers through `parseNumber`, the
      status from the presence of an "ESP_ID" cell. */
  function ToReading(row: Cells.Row, now: string): (r: Reading)
    ensures r.status == Connected <==> Cells.Text(row, "ESP_ID") != ""
    ensures r.status != Dummy
    ensures r.timestamp == ParseTimestamp(row, now)
    ensures Values(r) == ParseColumns(row, MetricColumns)
  {
    var xs := ParseColumns(row, MetricColumns);
    assert xs == [xs[0], xs[1], xs[2], xs[3], xs[4], xs[5]];
    Reading(ParseTimestamp(row, now), xs[0], xs[1], xs[2], xs[3], xs[4], xs[5],
      if Cells.Text(row, "ESP_ID") != "" then Connected else Disconnected)
  }

  /** The sheet columns of the six measured values, in field order. */
  const MetricColumns := ["Suhu Tanah", "Suhu Udara", "Kelembaban Udara", "Kelembapan Tanah", "pH", "Flow Rate"]

  /** The cells under `columns`, each read with `parseNumber`. */
  function ParseColumns(row: Cells.Row, columns: seq<string>): (xs: seq<real>)
    ensures |xs| == |columns|
  {
    if columns == [] then []
    else [Cells.ParseNumber(Cells.Cell(row, columns[0]))] + ParseColumns(row, columns[1..])
  }

  lemma {:induction false} ParseColumnsAt(row: Cells.Row, columns: seq<string>, k: nat)
    requires k < |columns|
    ensures ParseColumns(row, columns)[k] == Cells.ParseNumber(Cells.Cell(row, columns[k]))
  {
    if k > 0 {
      ParseColumnsAt(row, columns[1..], k - 1);
    }
  }

  /** A measured value whose column is missing from the row reads as 0. */
  lemma MissingColumnIsZero(row: Cells.Row, now: string, k: nat)
    requires k < 6 && MetricColumns[k] !in row
    ensures Values(ToReading(row, now))[k] == 0.0
  {
    ParseColumnsAt(row, MetricColumns, k);
  }

  /** The live `mappedData`: rows without a date or time cell are dropped, the
      others are mapped in order. */
  function MapRows(rows: seq<Cells.Row>, now: string): (readings: seq<Reading>)
    ensures |readings| <= |rows|
    ensures |readings| == |Seqs.Filter(HasTimeCell, rows)|
    ensures forall i :: 0 <= i < |readings| ==> readings[i].status != Dummy
    ensures forall i :: 0 <= i < |readings| ==>
      readings[i] == ToReading(Seqs.Filter(HasTimeCell, rows)[i], now)
  {
    ReadingsNotDummy(Seqs.Filter(HasTimeCell, rows), now);
    ReadingsAll(Seqs.Filter(HasTimeCell, rows), now);
    Readings(Seqs.Filter(HasTimeCell, rows), now)
  }

  /** One reading per row, in order. */
  function Readings(rows: seq<Cells.Row>, now: string): (readings: seq<Reading>)
    ensures |readings| == |rows|
  {
    if rows == [] then [] else [ToReading(rows[0], now)] + Readings(rows[1..], now)
  }

  lemma {:induction false} ReadingsNotDummy(rows: seq<Cells.Row>, now: string)
    ensures forall i :: 0 <= i < |rows| ==> Readings(rows, now)[i].status != Dummy
  {
    if rows != [] {
      var r := ToReading(rows[0], now);
      assert r.status != Dummy;
      ReadingsNotDummy(rows[1..], now);
    }
  }

  lemma {:induction false} ReadingsAt(rows: seq<Cells.Row>, now: string, i: nat)
    requires i < |rows|
    ensures Readings(rows, now)[i] == ToReading(rows[i], now)
  {
    if i > 0 {
      ReadingsAt(rows[1..], now, i - 1);
    }
  }

  lemma ReadingsAll(rows: seq<Cells.Row>, now: string)
    ensures forall i :: 0 <= i < |rows| ==> Readings(rows, now)[i] == ToReading(rows[i], now)
  {
    forall i | 0 <= i < |rows| ensures Readings(rows, now)[i] == ToReading(rows[i], now) {
      ReadingsAt(rows, now, i);
    }
  }

  lemma {:induction false} ReadingsConcat(a: seq<Cells.Row>, b: seq<Cells.Row>, now: string)
    ensures Readings(a + b, now) == Readings(a, now) + Readings(b, now)
  {
    if a == [] {
      assert a + b == b;
    } else {
      assert (a + b)[1..] == a[1..] + b;
      ReadingsConcat(a[1..], b, now);
    }
  }

  /** Mapping never moves a reading across a boundary between two stretches of
      rows: the readings of `a + b` are those of `a` followed by those of `b`. */
  lemma MapRowsConcat(a: seq<Cells.Row>, b: seq<Cells.Row>, now: string)
    ensures MapRows(a + b, now) == MapRows(a, now) + MapRows(b, now)
  {
    Seqs.FilterConcat(HasTimeCell, a, b);
    ReadingsConcat(Seqs.Filter(HasTimeCell, a), Seqs.Filter(HasTimeCell, b), now);
  }

  /** A sheet whose rows all carry a date or a time cell maps one-to-one. */
  lemma MapRowsAllKept(rows: seq<Cells.Row>, now: string)
    requires forall i :: 0 <= i < |rows| ==> HasTimeCell(rows[i])
    ensures |MapRows(rows, now)| == |rows|
    ensures forall i :: 0 <= i < |rows| ==> MapRows(rows, now)[i] == ToReading(rows[i], now)
  {
    Seqs.FilterAll(HasTimeCell, rows);
    forall i | 0 <= i < |rows| ensures MapRows(rows, now)[i] == ToReading(rows[i], now) {
      ReadingsAt(rows, now, i);
    }
  }

  /** The range of the simulator's values. */
  predicate Simulated(r: Reading)
  {
    && 25.0 <= r.temperature < 30.0
    && 28.0 <= r.temperatureAir < 32.0
    && 60.0 <= r.humidity < 70.0
    && 35.0 <= r.soilMoisture < 50.0
    && 6.0 <= r.ph < 7.0
    && 0.0 <= r.flowRate < 10.0
    && r.status == Dummy
  }

  /** One simulated reading from six draws of `Math.random()` (each in [0, 1)). */
  function DummyReading(now: string, r1: real, r2: real, r3: real, r4: real, r5: real, r6: real): (r: Reading)
    requires 0.0 <= r1 < 1.0 && 0.0 <= r2 < 1.0 && 0.0 <= r3 < 1.0
    requires 0.0 <= r4 < 1.0 && 0.0 <= r5 < 1.0 && 0.0 <= r6 < 1.0
    ensures Simulated(r) && r.timestamp == now
  {
    Reading(now, 25.0 + r1 * 5.0, 28.0 + r2 * 4.0, 60.0 + r3 * 10.0,
            35.0 + r4 * 15.0, 6.0 + r5, r6 * 10.0, Dummy)
  }

  /** The header line, "Timestamp,Suhu Tanah,Suhu Udara,Kelembaban Udara,Kelembapan Tanah,pH,Flow Rate". */
  const CsvHeader := Csv.Line(["Timestamp", "Suhu Tanah", "Suhu Udara", "Kelembaban Udara",
                               "Kelembapan Tanah", "pH", "Flow Rate"])

  /** One CSV line; `fixed(x, n)` stands for `x.toFixed(n)`. */
  function CsvLine(d: Reading, fixed: (real, nat) -> string): string
  {
    Csv.Line([d.timestamp, fixed(d.temperature, 1), fixed(d.temperatureAir, 1),
              fixed(d.humidity, 1), fixed(d.soilMoisture, 1), fixed(d.ph, 2),
              fixed(d.flowRate, 2)])
  }

  /** `handleDownloadCSV`: the header, a newline, then the readings' lines.
      There is no guard: an empty list still produces a file. */
  function DownloadCsv(data: seq<Reading>, fixed: (real, nat) -> string): (csv: string)
    ensures CsvHeader + "\n" <= csv
    ensures data == [] ==> csv == CsvHeader + "\n"
  {
    CsvHeader + "\n" + Csv.Document(CsvLines(data, fixed))
  }

  /** One line per reading, in list order. */
  function CsvLines(data: seq<Reading>, fixed: (real, nat) -> string): (lines: seq<string>)
    ensures |lines| == |data|
    ensures forall i :: 0 <= i < |data| ==> lines[i] == CsvLine(data[i], fixed)
  {
    seq(|data|, i requires 0 <= i < |data| => CsvLine(data[i], fixed))
  }

  /** With newline-free timestamps and number renderings, the file has the
      header and then exactly one line per reading, in list order; an empty
      list leaves one empty line after the header. */
  lemma DownloadCsvLines(data: seq<Reading>, fixed: (real, nat) -> string)
    requires forall i :: 0 <= i < |data| ==> Csv.NewlineFree(data[i].timestamp)
    requires forall x, n :: Csv.NewlineFree(fixed(x, n))
    ensures var lines := Strings.Split(DownloadCsv(data, fixed), '\n');
      && |lines| == 1 + (if data == [] then 1 else |data|)
      && lines[0] == CsvHeader
      && (data == [] ==> lines[1] == "")
      && forall i :: 0 <= i < |data| ==> lines[i + 1] == CsvLine(data[i], fixed)
  {
    var body := CsvLines(data, fixed);
    var lines := [CsvHeader] + (if data == [] then [""] else body);
    LinesNewlineFree(data, fixed, body, lines);
    DownloadCsvDocument(data, fixed, body, lines);
    Csv.DocumentLines(lines);
  }

  lemma LinesNewlineFree(data: seq<Reading>, fixed: (real, nat) -> string, body: seq<string>, lines: seq<string>)
    requires forall i :: 0 <= i < |data| ==> Csv.NewlineFree(data[i].timestamp)
    requires forall x, n :: Csv.NewlineFree(fixed(x, n))
    requires body == CsvLines(data, fixed)
    requires lines == [CsvHeader] + (if data == [] then [""] else body)
    ensures forall i :: 0 <= i < |lines| ==> Csv.NewlineFree(lines[i])
  {
    forall i | 0 <= i < |data| ensures Csv.NewlineFree(body[i]) {
      CsvLineNewlineFree(data[i], fixed);
    }
    HeaderNewlineFree();
    forall i | 0 <= i < |lines| ensures Csv.NewlineFree(lines[i]) {
      if i > 0 && data != [] {
        assert lines[i] == body[i - 1];
      }
    }
  }

  lemma CsvLineNewlineFree(d: Reading, fixed: (real, nat) -> string)
    requires Csv.NewlineFree(d.timestamp)
    requires forall x, n :: Csv.NewlineFree(fixed(x, n))
    ensures Csv.NewlineFree(CsvLine(d, fixed))
  {
    Csv.LineNewlineFree([d.timestamp, fixed(d.temperature, 1), fixed(d.temperatureAir, 1),
                         fixed(d.humidity, 1), fixed(d.soilMoisture, 1), fixed(d.ph, 2),
                         fixed(d.flowRate, 2)]);
  }

  /** The file is the document of the header line followed by the readings'
      lines, or by one empty line when there are none. */
  lemma DownloadCsvDocument(data: seq<Reading>, fixed: (real, nat) -> string, body: seq<string>, lines: seq<string>)
    requires body == CsvLines(data, fixed)
    requires lines == [CsvHeader] + (if data == [] then [""] else body)
    ensures Csv.Document(lines) == DownloadCsv(data, fixed)
  {
    if data == [] {
      assert lines == [CsvHeader, ""];
      assert Csv.Document(lines) == CsvHeader + "\n" + Csv.Document([""]);
    } else {
      assert lines[1..] == body;
    }
  }

  lemma HeaderNewlineFree()
    ensures Csv.NewlineFree(CsvHeader)
  {
    Csv.LineNewlineFree(["Timestamp", "Suhu Tanah", "Suhu Udara", "Kelembaban Udara",
                         "Kelembapan Tanah", "pH", "Flow Rate"]);
  }

  /** The six measured values, in the chart's field order. */
  function Values(r: Reading): seq<real>
  {
    [r.temperature, r.temperatureAir, r.humidity, r.soilMoisture, r.ph, r.flowRate]
  }

  /** A reading as the chart receives it. */
  function ToRecord(r: Reading): (rec: Js.Record)
    ensures Js.Get(rec, "timestamp") == Js.Str(r.timestamp)
    ensures Js.Get(rec, "status") == Js.Str(r.status.Name())
    ensures forall k :: 0 <= k < 6 ==> Js.Get(rec, IrrigationChart.Fields[k]) == Js.Num(Values(r)[k])
  {
    map["timestamp" := Js.Str(r.timestamp), "temperature" := Js.Num(r.temperature),
        "temperatureAir" := Js.Num(r.temperatureAir), "humidity" := Js.Num(r.humidity),
        "soilMoisture" := Js.Num(r.soilMoisture), "ph" := Js.Num(r.ph),
        "flowRate" := Js.Num(r.flowRate), "status" := Js.Str(r.status.Name())]
  }

  /** The chart plots the page's own numbers unchanged: `Number(x) || 0`
      only rewrites values this page never produces. */
  lemma ChartShowsReadings(data: seq<Reading>, clock: Js.Value -> string, i: nat)
    requires i < |IrrigationChart.ChartData(Seqs.Map(ToRecord, data), clock)|
    ensures var points := IrrigationChart.ChartData(Seqs.Map(ToRecord, data), clock);
      && IrrigationChart.Metrics(points[i]) == Values(data[|data| - |points| + i])
      && points[i].time == clock(Js.Str(data[|data| - |points| + i].timestamp))
  {
    var recs := Seqs.Map(ToRecord, data);
    var points := IrrigationChart.ChartData(recs, clock);
    var k := |data| - |points| + i;
    Series.ChartAt(recs, IrrigationChart.PointOf(clock), i);
    Seqs.MapAt(ToRecord, data, k);
    PlotsReading(points[i], data[k], clock);
  }

  lemma PlotsReading(p: IrrigationChart.Point, r: Reading, clock: Js.Value -> string)
    requires p == IrrigationChart.ToPoint(ToRecord(r), clock)
    ensures IrrigationChart.Metrics(p) == Values(r) && p.time == clock(Js.Str(r.timestamp))
  {
    PointOfReading(r, clock);
  }

  lemma PointOfReading(r: Reading, clock: Js.Value -> string)
    ensures IrrigationChart.Metrics(IrrigationChart.ToPoint(ToRecord(r), clock)) == Values(r)
    ensures IrrigationChart.ToPoint(ToRecord(r), clock).time == clock(Js.Str(r.timestamp))
  {
    var rec := ToRecord(r);
    assert Js.Get(rec, "temperature") == Js.Num(r.temperature);
    assert Js.Get(rec, "temperatureAir") == Js.Num(r.temperatureAir);
    assert Js.Get(rec, "humidity") == Js.Num(r.humidity);
    assert Js.Get(rec, "soilMoisture") == Js.Num(r.soilMoisture);
    assert Js.Get(rec, "ph") == Js.Num(r.ph);
    assert Js.Get(rec, "flowRate") == Js.Num(r.flowRate);
  }

  /** The page's acquisition state. `loading` is the spreadsheet hook's flag
      and is passed in wherever an effect reads it. */
  class View {
    var isLive: bool
    var dummyData: seq<Reading>
    var reloadFlag: nat
    var isInitialLoad: bool

    /** The loading flag is only ever up in live mode, and every simulated
        reading lies in the simulator's range. */
    ghost predicate Valid()
      reads this
    {
      && (isInitialLoad ==> isLive)
      && forall i :: 0 <= i < |dummyData| ==> Simulated(dummyData[i])
    }

    /** Mounting: the initial state, then the effects that run on mount (the
        second of which clears the initial-load flag in simulated mode). */
    constructor ()
      ensures Valid()
      ensures !isLive && dummyData == [] && reloadFlag == 0 && !isInitialLoad
    {
      isLive := false;
      dummyData := [];
      reloadFlag := 0;
      isInitialLoad := true;
      isInitialLoad := false;
    }

    /** The live/simulated button, followed by the effects that depend on
        `isLive`, in declaration order: entering live raises the initial-load
        flag, and the loading effect lowers it again unless a load is running
        (the last state update wins). */
    method Toggle(loading: bool)
      requires Valid()
      modifies this
      ensures Valid()
      ensures isLive == !old(isLive)
      ensures isInitialLoad == (isLive && loading)
      ensures dummyData == old(dummyData) && reloadFlag == old(reloadFlag)
    {
      isLive := !isLive;
      if isLive {
        isInitialLoad := true;
      }
      if isLive && !loading {
        isInitialLoad := false;
      }
      if !isLive {
        isInitialLoad := false;
      }
    }

    /** The loading effect, run when the hook's `loading` flag changes. */
    method LoadingChanged(loading: bool)
      requires Valid()
      modifies this
      ensures Valid()
      ensures isInitialLoad == (old(isInitialLoad) && isLive && loading)
      ensures isLive == old(isLive) && dummyData == old(dummyData) && reloadFlag == old(reloadFlag)
    {
      if isLive && !loading {
        isInitialLoad := false;
      }
      if !isLive {
        isInitialLoad := false;
      }
    }

    /** The five-second timer: it exists only in live mode, so outside it
        nothing changes. */
    method ReloadTick()
      requires Valid()
      modifies this
      ensures Valid()
      ensures reloadFlag == old(reloadFlag) + (if isLive then 1 else 0)
      ensures isLive == old(isLive) && dummyData == old(dummyData) && isInitialLoad == old(isInitialLoad)
    {
      if isLive {
        reloadFlag := reloadFlag + 1;
      }
    }

    /** The four-second simulator: only in simulated mode, it puts a new
        reading in front of the list, without a cap. */
    method SimulationTick(now: string, r1: real, r2: real, r3: real, r4: real, r5: real, r6: real)
      requires Valid()
      requires 0.0 <= r1 < 1.0 && 0.0 <= r2 < 1.0 && 0.0 <= r3 < 1.0
      requires 0.0 <= r4 < 1.0 && 0.0 <= r5 < 1.0 && 0.0 <= r6 < 1.0
      modifies this
      ensures Valid()
      ensures dummyData == if isLive then old(dummyData)
                           else [DummyReading(now, r1, r2, r3, r4, r5, r6)] + old(dummyData)
      ensures isLive == old(isLive) && reloadFlag == old(reloadFlag) && isInitialLoad == old(isInitialLoad)
    {
      if !isLive {
        dummyData := [DummyReading(now, r1, r2, r3, r4, r5, r6)] + dummyData;
      }
    }

    /** `mappedData`: the mapped sheet in live mode, the simulated list otherwise. */
    function Data(sheet: seq<Cells.Row>, now: string): (data: seq<Reading>)
      reads this
      ensures isLive ==> data == MapRows(sheet, now) && |data| <= |sheet|
      ensures !isLive ==> data == dummyData
    {
      if isLive then MapRows(sheet, now) else dummyData
    }

    /** The `loading` prop handed to the page's table: live and still on the
        first load. */
    function LoaderShown(): (shown: bool)
      reads this
      ensures Valid() ==> (shown <==> isInitialLoad)
    {
      isLive && isInitialLoad
    }
  }

  /** Switching to live and back shows the simulated list again, unchanged. */
  method SimulatedListSurvivesLive(now: string, sheet: seq<Cells.Row>, loading: bool)
    returns (before: seq<Reading>, after: seq<Reading>)
    ensures |before| == 1 && after == before
  {
    var view := new View();
    view.SimulationTick(now, 0.5, 0.5, 0.5, 0.5, 0.5, 0.5);
    before := view.Data(sheet, now);
    view.Toggle(loading);
    view.Toggle(loading);
    after := view.Data(sheet, now);
  }
}
