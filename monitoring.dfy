/** The general dashboard (src/pages/Monitoring.jsx): a five-second poll of
    the newest database row, a history of at most fifty samples, the
    temperature and humidity status badges, and a guarded CSV export. */
module Monitoring {
  import Js
  import Seqs
  import Strings
  import Csv
  import Series
  import DataLogger
  import HydroChart

  const HistoryLimit: nat := 50

  /** A database row as the query returns it; `createdAt` is the time value
      of `new Date(created_at)`. */
  datatype DbRow = DbRow(temperature: real, humidity: real, createdAt: real)

  /** The outcome of one poll: the query's error, or its rows (newest first). */
  datatype FetchResult = Failed(message: string) | Fetched(rows: seq<DbRow>)

  /** `formatted`: what the dashboard keeps of a row. */
  datatype Sample = Sample(temperature: real, humidity: real, timestamp: real)

  function Format(row: DbRow): (s: Sample)
    ensures s.temperature == row.temperature && s.humidity == row.humidity
    ensures s.timestamp == row.createdAt
  {
    Sample(row.temperature, row.humidity, row.createdAt)
  }

  /** `[...prev, formatted].slice(-50)`: the new sample goes last and, when
      that makes fifty-one, the oldest one goes. */
  function AppendCapped(history: seq<Sample>, s: Sample): (h: seq<Sample>)
    ensures 1 <= |h| <= HistoryLimit
    ensures h[|h| - 1] == s
    ensures |history| < HistoryLimit ==> h == history + [s]
    ensures |history| >= HistoryLimit ==> h == history[|history| - HistoryLimit + 1..] + [s]
  {
    var r := Seqs.LastN(history + [s], HistoryLimit);
    assert |history| >= HistoryLimit ==> r == history[|history| - HistoryLimit + 1..] + [s];
    r
  }

  /** The dashboard's state. `received` is every sample accepted so far
      (proof only); the history is always the last fifty of them. */
  class Dashboard {
    var sensorData: Sample
    var isConnected: bool
    var dataHistory: seq<Sample>
    var isLive: bool
    ghost var received: seq<Sample>

    ghost predicate Valid()
      reads this
    {
      && dataHistory == Seqs.LastN(received, HistoryLimit)
      && (received != [] ==> sensorData == received[|received| - 1])
      && isLive
    }

    /** Mounting: the initial sample of zeros stamped `now`, connected, an
        empty history, and the mount effect switching to live (the database
        is configured unconditionally). */
    constructor (now: real)
      ensures Valid()
      ensures sensorData == Sample(0.0, 0.0, now) && isConnected && dataHistory == [] && received == []
    {
      sensorData := Sample(0.0, 0.0, now);
      isConnected := true;
      dataHistory := [];
      isLive := true;
      received := [];
    }

    /** One tick of the poll. An error marks the dashboard disconnected and
        changes nothing else; an empty result changes nothing; otherwise the
        first row becomes the current sample, the dashboard is connected, and
        the sample is appended to the capped history. */
    method OnPoll(result: FetchResult)
      requires Valid()
      modifies this
      ensures Valid()
      ensures isLive == old(isLive)
      ensures result.Failed? ==>
        && !isConnected
        && sensorData == old(sensorData) && dataHistory == old(dataHistory) && received == old(received)
      ensures result.Fetched? && result.rows == [] ==>
        && isConnected == old(isConnected)
        && sensorData == old(sensorData) && dataHistory == old(dataHistory) && received == old(received)
      ensures result.Fetched? && result.rows != [] ==>
        && sensorData == Format(result.rows[0])
        && isConnected
        && dataHistory == AppendCapped(old(dataHistory), Format(result.rows[0]))
        && received == old(received) + [Format(result.rows[0])]
    ensures Reflects(result, isConnected)
    {
      match result
      case Failed(_) =>
        isConnected := false;
      case Fetched(rows) =>
        if |rows| > 0 {
          var latest := Format(rows[0]);
          Seqs.LastNAppend(received, latest, HistoryLimit);
          sensorData := latest;
          isConnected := true;
          dataHistory := AppendCapped(dataHistory, latest);
          received := received + [latest];
        }
    }
  }

  /** Polling any run of results keeps the history at the last fifty
      accepted samples, however many errors come in between. */
  method PollAll(results: seq<FetchResult>, now: real) returns (history: seq<Sample>, connected: bool)
    ensures |history| <= HistoryLimit
    ensures history == Seqs.LastN(Accepted(results), HistoryLimit)
    ensures results != [] && results[|results| - 1].Failed? ==> !connected
    ensures results != [] && Delivers(results[|results| - 1]) ==> connected
  {
    var d := new Dashboard(now);
    var k := 0;
    while k < |results|
      invariant 0 <= k <= |results|
      invariant d.Valid()
      invariant d.received == Accepted(results[..k])
      invariant k > 0 ==> Reflects(results[k - 1], d.isConnected)
    {
      var r := results[k];
      ghost var before := results[..k];
      assert results[..k + 1] == before + [r];
      AcceptedSnoc(before, r);
      d.OnPoll(r);
      k := k + 1;
    }
    assert results[..k] == results;
    assert results != [] ==> results[|results| - 1] == results[k - 1];
    history := d.dataHistory;
    connected := d.isConnected;
  }

  /** The connection flag after `r`: cleared by an error, set by rows. */
  predicate Reflects(r: FetchResult, connected: bool)
  {
    (r.Failed? ==> !connected) && (Delivers(r) ==> connected)
  }

  /** A poll result that carries at least one row. */
  predicate Delivers(r: FetchResult)
  {
    r.Fetched? && r.rows != []
  }

  /** The samples a run of poll results contributes: the first row of each
      non-empty result, in order. */
  function Accepted(results: seq<FetchResult>): (samples: seq<Sample>)
    ensures |samples| <= |results|
  {
    if results == [] then []
    else
      var last := results[|results| - 1];
      Accepted(results[..|results| - 1]) +
        (if last.Fetched? && last.rows != [] then [Format(last.rows[0])] else [])
  }

  lemma AcceptedSnoc(results: seq<FetchResult>, r: FetchResult)
    ensures Accepted(results + [r]) ==
      Accepted(results) + (if r.Fetched? && r.rows != [] then [Format(r.rows[0])] else [])
  {
    assert (results + [r])[..|results|] == results;
  }

  /** A badge level. */
  datatype Level = Idle | Low | High | Optimal {
    /** The badge text. */
    function Label(): string
    {
      match this
      case Optimal => "Optimal"
      case High => "Tinggi"
      case Low => "Rendah"
      case Idle => "N/A"
    }
  }

  /** `getTemperatureStatus`: idle only for a zero reading outside live mode;
      otherwise low below 20, high above 30, optimal from 20 to 30 inclusive. */
  function TemperatureStatus(isLive: bool, temp: real): (l: Level)
    ensures l == Idle <==> !isLive && temp == 0.0
    ensures l == Low <==> (isLive || temp != 0.0) && temp < 20.0
    ensures l == High <==> (isLive || temp != 0.0) && temp > 30.0
    ensures l == Optimal <==> (isLive || temp != 0.0) && 20.0 <= temp <= 30.0
  {
    if !isLive && temp == 0.0 then Idle
    else if temp < 20.0 then Low
    else if temp > 30.0 then High
    else Optimal
  }

  /** `getHumidityStatus`: idle only for a zero reading outside live mode;
      otherwise low below 50, high above 80, optimal from 50 to 80 inclusive. */
  function HumidityStatus(isLive: bool, humidity: real): (l: Level)
    ensures l == Idle <==> !isLive && humidity == 0.0
    ensures l == Low <==> (isLive || humidity != 0.0) && humidity < 50.0
    ensures l == High <==> (isLive || humidity != 0.0) && humidity > 80.0
    ensures l == Optimal <==> (isLive || humidity != 0.0) && 50.0 <= humidity <= 80.0
  {
    if !isLive && humidity == 0.0 then Idle
    else if humidity < 50.0 then Low
    else if humidity > 80.0 then High
    else Optimal
  }

  /** Distinct levels show distinct badge texts. */
  lemma LabelsDistinct(l: Level, m: Level)
    ensures l.Label() == m.Label() <==> l == m
  {
  }

  /** The temperature badge text: "Rendah" below 20, "Tinggi" above 30,
      "Optimal" from 20 to 30, and "N/A" only for a zero reading outside live
      mode. */
  lemma TemperatureBadge(isLive: bool, temp: real)
    ensures TemperatureStatus(isLive, temp).Label() == "N/A" <==> !isLive && temp == 0.0
    ensures TemperatureStatus(isLive, temp).Label() == "Rendah" <==> (isLive || temp != 0.0) && temp < 20.0
    ensures TemperatureStatus(isLive, temp).Label() == "Tinggi" <==> (isLive || temp != 0.0) && temp > 30.0
    ensures TemperatureStatus(isLive, temp).Label() == "Optimal" <==> (isLive || temp != 0.0) && 20.0 <= temp <= 30.0
  {
    var l := TemperatureStatus(isLive, temp);
    LabelsDistinct(l, Idle);
    LabelsDistinct(l, Low);
    LabelsDistinct(l, High);
    LabelsDistinct(l, Optimal);
  }

  /** The humidity badge text: "Rendah" below 50, "Tinggi" above 80,
      "Optimal" from 50 to 80, and "N/A" only for a zero reading outside live
      mode. */
  lemma HumidityBadge(isLive: bool, humidity: real)
    ensures HumidityStatus(isLive, humidity).Label() == "N/A" <==> !isLive && humidity == 0.0
    ensures HumidityStatus(isLive, humidity).Label() == "Rendah" <==> (isLive || humidity != 0.0) && humidity < 50.0
    ensures HumidityStatus(isLive, humidity).Label() == "Tinggi" <==> (isLive || humidity != 0.0) && humidity > 80.0
    ensures HumidityStatus(isLive, humidity).Label() == "Optimal" <==> (isLive || humidity != 0.0) && 50.0 <= humidity <= 80.0
  {
    var l := HumidityStatus(isLive, humidity);
    LabelsDistinct(l, Idle);
    LabelsDistinct(l, Low);
    LabelsDistinct(l, High);
    LabelsDistinct(l, Optimal);
  }

  /** The badges and the table agree: in live mode a temperature is low
      exactly when its table cell is blue, high when red, optimal when green;
      a humidity low when orange, high when blue, optimal when green. */
  lemma StatusMatchesTableColour(t: real, h: real)
    ensures TemperatureStatus(true, t) == Low <==> DataLogger.TemperatureColor(Js.Num(t)) == DataLogger.Blue
    ensures TemperatureStatus(true, t) == High <==> DataLogger.TemperatureColor(Js.Num(t)) == DataLogger.Red
    ensures TemperatureStatus(true, t) == Optimal <==> DataLogger.TemperatureColor(Js.Num(t)) == DataLogger.Green
    ensures HumidityStatus(true, h) == Low <==> DataLogger.HumidityColor(Js.Num(h)) == DataLogger.Orange
    ensures HumidityStatus(true, h) == High <==> DataLogger.HumidityColor(Js.Num(h)) == DataLogger.Blue
    ensures HumidityStatus(true, h) == Optimal <==> DataLogger.HumidityColor(Js.Num(h)) == DataLogger.Green
  {
  }

  /** The header line, "Timestamp,Temperature(°C),Humidity(%)". */
  const CsvHeader := Csv.Line(["Timestamp", "Temperature(°C)", "Humidity(%)"])

  /** One sample's fields; `iso(t)` stands for `new Date(t).toISOString()` and
      `show(x)` for the number's default string form. */
  function CsvFields(s: Sample, iso: real -> string, show: real -> string): seq<string>
  {
    [iso(s.timestamp), show(s.temperature), show(s.humidity)]
  }

  /** `handleExportData`: an empty history is rejected; otherwise the header
      and one line per sample, joined by newlines with none at the end. */
  function Export(history: seq<Sample>, iso: real -> string, show: real -> string): (e: Csv.Export)
    ensures e.Rejected? <==> history == []
    ensures e.File? ==> CsvHeader + "\n" <= e.text
  {
    if history == [] then Csv.Rejected
    else
      var body := seq(|history|, i requires 0 <= i < |history| => Csv.Line(CsvFields(history[i], iso, show)));
      Csv.File(Csv.Document([CsvHeader] + body))
  }

  /** With newline-free renderings the file has exactly 1 + n lines, the
      last being the newest sample's (no trailing empty line). */
  lemma ExportLines(history: seq<Sample>, iso: real -> string, show: real -> string)
    requires history != []
    requires forall t :: Csv.NewlineFree(iso(t)) && Csv.NewlineFree(show(t))
    ensures var lines := Strings.Split(Export(history, iso, show).text, '\n');
      && |lines| == 1 + |history|
      && lines[0] == CsvHeader
      && (forall i :: 0 <= i < |history| ==> lines[i + 1] == Csv.Line(CsvFields(history[i], iso, show)))
      && lines[|history|] == Csv.Line(CsvFields(history[|history| - 1], iso, show))
  {
    var body := seq(|history|, i requires 0 <= i < |history| => Csv.Line(CsvFields(history[i], iso, show)));
    forall i | 0 <= i < |history| ensures Csv.NewlineFree(body[i]) {
      Csv.LineNewlineFree(CsvFields(history[i], iso, show));
    }
    Csv.LineNewlineFree(["Timestamp", "Temperature(°C)", "Humidity(%)"]);
    Csv.DocumentLines([CsvHeader] + body);
  }

  /** A sample as the chart and the table receive it. */
  function ToRecord(s: Sample): (rec: Js.Record)
    ensures Js.Get(rec, "temperature") == Js.Num(s.temperature)
    ensures Js.Get(rec, "humidity") == Js.Num(s.humidity)
    ensures Js.Get(rec, "timestamp") == Js.Date(s.timestamp)
    ensures "status" !in rec
  {
    map["temperature" := Js.Num(s.temperature), "humidity" := Js.Num(s.humidity),
        "timestamp" := Js.Date(s.timestamp)]
  }

  function Records(history: seq<Sample>): (recs: seq<Js.Record>)
    ensures |recs| == |history|
    ensures forall i :: 0 <= i < |history| ==> recs[i] == ToRecord(history[i])
  {
    Seqs.MapAll(ToRecord, history);
    Seqs.Map(ToRecord, history)
  }

  /** The trend chart plots `suhu`, `pH` and `flowRate`, which a sample does
      not have: every plotted value, and every average, is 0. */
  lemma HistoryChartIsFlat(history: seq<Sample>, clock: Js.Value -> string)
    ensures var points := HydroChart.ChartData(Records(history), clock);
      forall i :: 0 <= i < |points| ==> points[i].suhu == 0.0 && points[i].pH == 0.0 && points[i].flow == 0.0
    ensures var points := HydroChart.ChartData(Records(history), clock);
      && Series.Avg(Series.Column(points, (p: HydroChart.Point) => p.suhu)) == 0.0
      && Series.Avg(Series.Column(points, (p: HydroChart.Point) => p.pH)) == 0.0
      && Series.Avg(Series.Column(points, (p: HydroChart.Point) => p.flow)) == 0.0
  {
    HydroChart.MissingMetricsPlotZero(Records(history), clock);
  }

  /** In the table every sample counts as connected, so the "connected"
      status filter keeps the whole history. */
  lemma HistoryAllConnected(history: seq<Sample>, locale: Js.Value -> string)
    ensures DataLogger.Filtered(Records(history), "", "connected", locale) == Records(history)
  {
    var recs := Records(history);
    Seqs.FilterAll((item: Js.Record) => DataLogger.Matches(item, "", "connected", locale), recs);
  }
}
