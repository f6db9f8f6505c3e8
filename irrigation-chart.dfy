/** The irrigation page's trend chart (src/components/SensorChartIrigasi.jsx):
    the last twenty readings as points with a clock label and six metrics
    coerced with `Number(x) || 0`, and a summary tile per metric. */
module IrrigationChart {
  import Js
  import Series

  datatype Point = Point(
    time: string,
    suhuTanah: real,
    suhuUdara: real,
    kelembabanUdara: real,
    kelembapanTanah: real,
    ph: real,
    flowRate: real)

  /** The reading fields plotted, in the order of the point's metrics. */
  const Fields := ["temperature", "temperatureAir", "humidity", "soilMoisture", "ph", "flowRate"]

  /** One chart point. `clock(v)` stands for
      `new Date(v).toLocaleTimeString("id-ID", …)`, applied to every
      timestamp, present or not. */
  function ToPoint(item: Js.Record, clock: Js.Value -> string): (p: Point)
    ensures p.time == clock(Js.Get(item, "timestamp"))
    ensures |Metrics(p)| == 6
    ensures forall k :: 0 <= k < 6 ==> Metrics(p)[k] == Js.NumberOrZero(Js.Get(item, Fields[k]))
  {
    Point(
      clock(Js.Get(item, "timestamp")),
      Js.NumberOrZero(Js.Get(item, "temperature")),
      Js.NumberOrZero(Js.Get(item, "temperatureAir")),
      Js.NumberOrZero(Js.Get(item, "humidity")),
      Js.NumberOrZero(Js.Get(item, "soilMoisture")),
      Js.NumberOrZero(Js.Get(item, "ph")),
      Js.NumberOrZero(Js.Get(item, "flowRate")))
  }

  /** The six metrics of a point, in field order. */
  function Metrics(p: Point): (m: seq<real>)
    ensures |m| == 6
  {
    [p.suhuTanah, p.suhuUdara, p.kelembabanUdara, p.kelembapanTanah, p.ph, p.flowRate]
  }

  /** The point builder the chart maps over its window. */
  function PointOf(clock: Js.Value -> string): Js.Record -> Point
  {
    item => ToPoint(item, clock)
  }

  /** `chartData` of this chart (its contract is `Series.Chart`'s). */
  function ChartData(data: seq<Js.Record>, clock: Js.Value -> string): seq<Point>
  {
    Series.Chart(data, PointOf(clock))
  }

  /** A missing or non-numeric field plots as 0. */
  lemma NonNumericIsZero(item: Js.Record, clock: Js.Value -> string, k: nat)
    requires k < 6
    requires Js.ToNumber(Js.Get(item, Fields[k])).None?
    ensures Metrics(ToPoint(item, clock))[k] == 0.0
  {
  }

  /** Column `k` of a series of points. */
  function MetricColumn(points: seq<Point>, k: nat): (xs: seq<real>)
    requires k < 6
    ensures |xs| == |points|
    ensures forall i :: 0 <= i < |points| ==> xs[i] == Metrics(points[i])[k]
  {
    Series.Column(points, (p: Point) => Metrics(p)[k])
  }

  /** The unit each summary tile appends to its mean, in metric order. */
  const Units := ["°C", "°C", "%", "%", "", " L/min"]

  /** The six summary tiles, in metric order, each a mean followed by its
      unit ("--" each when there is no data); `fixed(x, n)` stands for
      `x.toFixed(n)`: one decimal for the temperatures and humidities, two
      for pH and flow. */
  function Summaries(points: seq<Point>, fixed: (real, nat) -> string): (tiles: seq<string>)
    ensures |tiles| == 6
    ensures points == [] ==> forall k :: 0 <= k < 6 ==> tiles[k] == "--"
    ensures points != [] ==> forall k :: 0 <= k < 6 ==>
      tiles[k] == fixed(Series.Avg(MetricColumn(points, k)), if k < 4 then 1 else 2) + Units[k]
  {
    seq(6, k requires 0 <= k < 6 =>
      Series.Summary(MetricColumn(points, k), x => fixed(x, if k < 4 then 1 else 2) + Units[k]))
  }
}
