/** The hydroponic page (src/pages/hidroponik.jsx): readings mapped one-to-one
    from a spreadsheet in live mode, or appended by a simulator otherwise, and
    a guarded CSV download. */
module Hydroponic {
  import Js
  import Cells
  import Strings
  import Seqs
  import Csv
  import Irrigation
  import HydroChart
  import Series
  import DataLogger

  datatype Reading = Reading(timestamp: string, suhu: real, flowRate: real, pH: real)

  const DateKey := "Timestamp (UTC)"
  const TimeKey := "Waktu (WIB)"

  /** `parseTimestamp(row)`: both cells present gives `date T time` with no
      reformatting of the date; otherwise the date cell, else the time cell,
      else `now` (standing for `new Date().toISOString()`). */
  function ParseTimestamp(row: Cells.Row, now: string): string
  {
    var date, time := Cells.Text(row, DateKey), Cells.Text(row, TimeKey);
    if date != "" && time != "" then date + "T" + time
    else if date != "" then date
    else if time != "" then time
    else now
  }

  /** Both cells present: the date is copied verbatim, whatever its format,
      and when neither cell contains a `T` the result splits back into them. */
  lemma BothCells(row: Cells.Row, now: string)
    requires Cells.Text(row, DateKey) != "" && Cells.Text(row, TimeKey) != ""
    ensures Cells.Text(row, DateKey) + "T" <= ParseTimestamp(row, now)
    ensures 'T' !in Cells.Text(row, DateKey) && 'T' !in Cells.Text(row, TimeKey) ==>
      Strings.Split(ParseTimestamp(row, now), 'T') == [Cells.Text(row, DateKey), Cells.Text(row, TimeKey)]
  {
    var date, time := Cells.Text(row, DateKey), Cells.Text(row, TimeKey);
    if 'T' !in date && 'T' !in time {
      assert Strings.Join([date, time], "T") == date + "T" + time;
      Strings.SplitJoin([date, time], 'T');
    }
  }

  /** A single present cell is returned as it is; `now` is used only when
      both are missing. */
  lemma Fallbacks(row: Cells.Row, now: string)
    ensures Cells.Text(row, DateKey) != "" && Cells.Text(row, TimeKey) == "" ==>
      ParseTimestamp(row, now) == Cells.Text(row, DateKey)
    ensures Cells.Text(row, DateKey) == "" && Cells.Text(row, TimeKey) != "" ==>
      ParseTimestamp(row, now) == Cells.Text(row, TimeKey)
    ensures Cells.Text(row, DateKey) == "" && Cells.Text(row, TimeKey) == "" ==>
      ParseTimestamp(row, now) == now
    ensures !(Cells.Text(row, DateKey) == "" && Cells.Text(row, TimeKey) == "") ==>
      ParseTimestamp(row, now) == ParseTimestamp(row, "")
    ensures Cells.Text(row, DateKey) == "" && Cells.Text(row, TimeKey) == "" <==>
      ParseTimestamp(row, "") == ""
  {
  }

  /** A slashed date is not converted: "25/01/2024" with "14:30:00" gives
      "25/01/2024T14:30:00", where the irrigation page gives "2024-01-25T14:30:00". */
  lemma SlashDateKept(row: Cells.Row, now: string)
    requires Cells.Text(row, DateKey) == "25/01/2024"
    requires Cells.Text(row, TimeKey) == "14:30:00"
    ensures ParseTimestamp(row, now) == "25/01/2024T14:30:00"
  {
  }

  /** For a dashed date, the two pages' timestamp rules agree: a row carrying
      the same date and time under each page's column names yields the same
      timestamp on both. */
  lemma AgreesWithIrrigationOnDashedDates(hrow: Cells.Row, irow: Cells.Row, now: string)
    requires Cells.Text(hrow, DateKey) == Cells.Text(irow, "Timestamp")
    requires Cells.Text(hrow, TimeKey) == Cells.Text(irow, "Waktu")
    requires '-' in Cells.Text(hrow, DateKey) || Cells.Text(hrow, TimeKey) == ""
    ensures ParseTimestamp(hrow, now) == Irrigation.ParseTimestamp(irow, now)
  {
  }

  /** One spreadsheet row as a reading; the numbers go through `parseNumber`. */
  function ToReading(row: Cells.Row, now: string): (r: Reading)
    ensures r.timestamp == ParseTimestamp(row, now)
    ensures r.suhu == Cells.ParseNumber(Cells.Cell(row, "Suhu"))
    ensures r.flowRate == Cells.ParseNumber(Cells.Cell(row, "FlowL/M"))
    ensures r.pH == Cells.ParseNumber(Cells.Cell(row, "pH"))
    ensures "Suhu" !in row ==> r.suhu == 0.0
    ensures "FlowL/M" !in row ==> r.flowRate == 0.0
    ensures "pH" !in row ==> r.pH == 0.0
  {
    Reading(
      ParseTimestamp(row, now),
      Cells.ParseNumber(Cells.Cell(row, "Suhu")),
      Cells.ParseNumber(Cells.Cell(row, "FlowL/M")),
      Cells.ParseNumber(Cells.Cell(row, "pH")))
  }

  /** The live `mappedData`: every sheet row, in order, nothing dropped. */
  function MapRows(rows: seq<Cells.Row>, now: string): (readings: seq<Reading>)
    ensures |readings| == |rows|
    ensures forall i :: 0 <= i < |rows| ==> readings[i] == ToReading(rows[i], now)
  {
    seq(|rows|, i requires 0 <= i < |rows| => ToReading(rows[i], now))
  }

  /** Unlike the irrigation page, a row with neither a date nor a time still
      gives a reading, stamped with the current instant. */
  lemma EmptyRowsKept(rows: seq<Cells.Row>, now: string, i: nat)
    requires i < |rows|
    requires !Irrigation.HasTimeCell(rows[i]) && Cells.Text(rows[i], DateKey) == "" && Cells.Text(rows[i], TimeKey) == ""
    ensures |Irrigation.MapRows(rows, now)| < |rows| == |MapRows(rows, now)|
    ensures MapRows(rows, now)[i].timestamp == now
  {
    var p := Irrigation.HasTimeCell;
    assert !p(rows[i]);
    FilterDropsOne(rows, i, p);
  }

  lemma FilterDropsOne(rows: seq<Cells.Row>, i: nat, p: Cells.Row -> bool)
    requires i < |rows| && !p(rows[i])
    ensures |Seqs.Filter(p, rows)| < |rows|
  {
    assert rows == rows[..i] + [rows[i]] + rows[i + 1..];
    Seqs.FilterConcat(p, rows[..i] + [rows[i]], rows[i + 1..]);
    Seqs.FilterConcat(p, rows[..i], [rows[i]]);
    assert Seqs.Filter(p, [rows[i]]) == [] by {
      assert [rows[i]][1..] == [];
    }
  }

  /** The range of the simulator's values. */
  predicate Simulated(r: Reading)
  {
    && 20.0 <= r.suhu < 30.0
    && 1.0 <= r.flowRate < 4.0
    && 5.5 <= r.pH < 7.5
  }

  /** One simulated reading from three draws of `Math.random()` (each in [0, 1)). */
  function DummyReading(now: string, r1: real, r2: real, r3: real): (r: Reading)
    requires 0.0 <= r1 < 1.0 && 0.0 <= r2 < 1.0 && 0.0 <= r3 < 1.0
    ensures Simulated(r) && r.timestamp == now
  {
    Reading(now, 20.0 + r1 * 10.0, 1.0 + r2 * 3.0, 5.5 + r3 * 2.0)
  }

  /** The header line, "Timestamp,Suhu (°C),FlowL/M,pH". */
  const CsvHeader := Csv.Line(["Timestamp", "Suhu (°C)", "FlowL/M", "pH"])

  /** The four fields of one reading's line; `fixed(x, n)` stands for `x.toFixed(n)`. */
  function CsvFields(d: Reading, fixed: (real, nat) -> string): seq<string>
  {
    [d.timestamp, fixed(d.suhu, 1), fixed(d.flowRate, 2), fixed(d.pH, 2)]
  }

  /** `handleDownload`: an empty list is rejected; otherwise the header and
      one line per reading, joined by newlines with none at the end. */
  function Download(data: seq<Reading>, fixed: (real, nat) -> string): (e: Csv.Export)
    ensures e.Rejected? <==> data == []
    ensures e.File? ==> CsvHeader + "\n" <= e.text
  {
    if data == [] then Csv.Rejected
    else
      var body := seq(|data|, i requires 0 <= i < |data| => Csv.Line(CsvFields(data[i], fixed)));
      Csv.File(Csv.Document([CsvHeader] + body))
  }

  /** With newline-free timestamps and renderings, the file has exactly 1 + n
      lines: the header, then each reading's line in list order. */
  lemma DownloadLines(data: seq<Reading>, fixed: (real, nat) -> string)
    requires data != []
    requires forall i :: 0 <= i < |data| ==> Csv.NewlineFree(data[i].timestamp)
    requires forall x, n :: Csv.NewlineFree(fixed(x, n))
    ensures var lines := Strings.Split(Download(data, fixed).text, '\n');
      && |lines| == 1 + |data|
      && lines[0] == CsvHeader
      && forall i :: 0 <= i < |data| ==> lines[i + 1] == Csv.Line(CsvFields(data[i], fixed))
  {
    var body := seq(|data|, i requires 0 <= i < |data| => Csv.Line(CsvFields(data[i], fixed)));
    forall i | 0 <= i < |data| ensures Csv.NewlineFree(body[i]) {
      Csv.LineNewlineFree(CsvFields(data[i], fixed));
    }
    Csv.LineNewlineFree(["Timestamp", "Suhu (°C)", "FlowL/M", "pH"]);
    Csv.DocumentLines([CsvHeader] + body);
  }

  /** A line of comma-free fields gives back the reading's four columns. */
  lemma LineColumns(d: Reading, fixed: (real, nat) -> string)
    requires ',' !in d.timestamp
    requires forall x, n :: ',' !in fixed(x, n)
    ensures Strings.Split(Csv.Line(CsvFields(d, fixed)), ',') ==
      [d.timestamp, fixed(d.suhu, 1), fixed(d.flowRate, 2), fixed(d.pH, 2)]
  {
    Csv.LineFields(CsvFields(d, fixed));
  }

  /** A reading as the chart and the table receive it. */
  function ToRecord(r: Reading): (rec: Js.Record)
    ensures Js.Get(rec, "timestamp") == Js.Str(r.timestamp)
    ensures Js.Get(rec, "suhu") == Js.Num(r.suhu)
    ensures Js.Get(rec, "flowRate") == Js.Num(r.flowRate)
    ensures Js.Get(rec, "pH") == Js.Num(r.pH)
    ensures "temperature" !in rec && "humidity" !in rec && "status" !in rec
  {
    map["timestamp" := Js.Str(r.timestamp), "suhu" := Js.Num(r.suhu),
        "flowRate" := Js.Num(r.flowRate), "pH" := Js.Num(r.pH)]
  }

  /** A chart point shows a reading: its three values, and its timestamp
      through the clock, or "--" for an empty one. */
  predicate PlotsReading(p: HydroChart.Point, r: Reading, clock: Js.Value -> string)
  {
    && p.suhu == r.suhu && p.pH == r.pH && p.flow == r.flowRate
    && p.time == if r.timestamp == "" then "--" else clock(Js.Str(r.timestamp))
  }

  /** The chart plots the page's own numbers unchanged (`Number(x) || 0`
      only rewrites values this page never produces): point `i` shows the
      reading it comes from in the window. */
  lemma ChartShowsReadings(data: seq<Reading>, clock: Js.Value -> string, i: nat)
    requires i < |HydroChart.ChartData(Seqs.Map(ToRecord, data), clock)|
    ensures var points := HydroChart.ChartData(Seqs.Map(ToRecord, data), clock);
      PlotsReading(points[i], data[|data| - |points| + i], clock)
  {
    var recs := Seqs.Map(ToRecord, data);
    var points := HydroChart.ChartData(recs, clock);
    var k := |data| - |points| + i;
    Series.ChartAt(recs, HydroChart.PointOf(clock), i);
    Seqs.MapAt(ToRecord, data, k);
    PointOfReading(data[k], clock);
    SamePointPlotsReading(points[i], HydroChart.ToPoint(ToRecord(data[k]), clock), data[k], clock);
  }

  lemma SamePointPlotsReading(p: HydroChart.Point, q: HydroChart.Point, r: Reading, clock: Js.Value -> string)
    requires p == q && PlotsReading(q, r, clock)
    ensures PlotsReading(p, r, clock)
  {
  }

  lemma PointOfReading(r: Reading, clock: Js.Value -> string)
    ensures PlotsReading(HydroChart.ToPoint(ToRecord(r), clock), r, clock)
  {
    var rec := ToRecord(r);
    assert Js.Get(rec, "timestamp") == Js.Str(r.timestamp);
    assert Js.Get(rec, "suhu") == Js.Num(r.suhu);
  }

  /** The table reads `temperature` and `humidity`, which a hydroponic
      reading does not have: both cells' colour tests see NaN and give green,
      and `toFixed` has no number to format, so rendering a row fails. */
  lemma TableCellsMissing(r: Reading, fixed: (real, nat) -> string)
    ensures DataLogger.TemperatureColor(Js.Get(ToRecord(r), "temperature")) == DataLogger.Green
    ensures DataLogger.HumidityColor(Js.Get(ToRecord(r), "humidity")) == DataLogger.Green
    ensures DataLogger.CellText(Js.Get(ToRecord(r), "temperature"), fixed).None?
    ensures DataLogger.CellText(Js.Get(ToRecord(r), "humidity"), fixed).None?
  {
  }

  /** The page's acquisition state; `loading` is the spreadsheet hook's flag. */
  class View {
    var isLive: bool
    var dummyData: seq<Reading>
    var reloadFlag: nat
    var isInitialLoad: bool

    /** The simulated list is empty in live mode, the loading flag is only up
        in live mode, and every simulated reading lies in the simulator's range. */
    ghost predicate Valid()
      reads this
    {
      && (isLive ==> dummyData == [])
      && (isInitialLoad ==> isLive)
      && forall i :: 0 <= i < |dummyData| ==> Simulated(dummyData[i])
    }

    /** Mounting: the initial state, then the mount effects (the loading
        effect clears the initial-load flag in simulated mode). */
    constructor ()
      ensures Valid()
      ensures !isLive && dummyData == [] && reloadFlag == 0 && !isInitialLoad
    {
      isLive := false;
      dummyData := [];
      reloadFlag := 0;
      isInitialLoad := true;
      isInitialLoad := false;
    }

    /** The live/simulated button, then the effects that depend on `isLive`
        in declaration order: the polling effect raises the initial-load flag
        on entering live, the loading effect lowers it unless a load is
        running, and the simulator effect empties the list on entering live. */
    method Toggle(loading: bool)
      requires Valid()
      modifies this
      ensures Valid()
      ensures isLive == !old(isLive)
      ensures isInitialLoad == (isLive && loading)
      ensures dummyData == if isLive then [] else old(dummyData)
      ensures reloadFlag == old(reloadFlag)
    {
      isLive := !isLive;
      if isLive {
        isInitialLoad := true;
      }
      if isLive && !loading {
        isInitialLoad := false;
      }
      if !isLive {
        isInitialLoad := false;
      }
      if isLive {
        dummyData := [];
      }
    }

    /** The loading effect, run when the hook's `loading` flag changes. */
    method LoadingChanged(loading: bool)
      requires Valid()
      modifies this
      ensures Valid()
      ensures isInitialLoad == (old(isInitialLoad) && isLive && loading)
      ensures isLive == old(isLive) && dummyData == old(dummyData) && reloadFlag == old(reloadFlag)
    {
      if isLive && !loading {
        isInitialLoad := false;
      }
      if !isLive {
        isInitialLoad := false;
      }
    }

    /** The five-second timer: it exists only in live mode. */
    method ReloadTick()
      requires Valid()
      modifies this
      ensures Valid()
      ensures reloadFlag == old(reloadFlag) + (if isLive then 1 else 0)
      ensures isLive == old(isLive) && dummyData == old(dummyData) && isInitialLoad == old(isInitialLoad)
    {
      if isLive {
        reloadFlag := reloadFlag + 1;
      }
    }

    /** The three-second simulator: only in simulated mode, it adds a new
        reading at the end of the list, without a cap. */
    method SimulationTick(now: string, r1: real, r2: real, r3: real)
      requires Valid()
      requires 0.0 <= r1 < 1.0 && 0.0 <= r2 < 1.0 && 0.0 <= r3 < 1.0
      modifies this
      ensures Valid()
      ensures dummyData == if isLive then old(dummyData)
                           else old(dummyData) + [DummyReading(now, r1, r2, r3)]
      ensures isLive == old(isLive) && reloadFlag == old(reloadFlag) && isInitialLoad == old(isInitialLoad)
    {
      if !isLive {
        dummyData := dummyData + [DummyReading(now, r1, r2, r3)];
      }
    }

    /** `mappedData`: the mapped sheet in live mode, the simulated list otherwise. */
    function Data(sheet: seq<Cells.Row>, now: string): (data: seq<Reading>)
      reads this
      ensures isLive ==> data == MapRows(sheet, now) && |data| == |sheet|
      ensures !isLive ==> data == dummyData
    {
      if isLive then MapRows(sheet, now) else dummyData
    }

    /** The `loading` prop of the chart and the table. */
    function LoaderShown(loading: bool): (shown: bool)
      reads this
      ensures Valid() ==> (shown <==> isInitialLoad && loading)
    {
      isInitialLoad && loading && isLive
    }
  }

  /** Switching to live and back loses the simulated readings: the list
      starts over empty. */
  method SimulatedListClearedByLive(now: string, sheet: seq<Cells.Row>, loading: bool)
    returns (before: seq<Reading>, after: seq<Reading>)
    ensures |before| == 1 && after == []
  {
    var view := new View();
    view.SimulationTick(now, 0.5, 0.5, 0.5);
    before := view.Data(sheet, now);
    view.Toggle(loading);
    view.Toggle(loading);
    after := view.Data(sheet, now);
  }

  /** Entering live while a load is running shows the loader, and it stays
      up until the load finishes. */
  method LoaderOnEnteringLive()
    returns (during: bool, afterLoad: bool)
    ensures during && !afterLoad
  {
    var view := new View();
    view.Toggle(true);
    during := view.LoaderShown(true);
    view.ReloadTick();
    view.LoadingChanged(false);
    afterLoad := view.LoaderShown(false);
  }
}
