/** The trend chart used by the hydroponic page and the general dashboard
    (src/components/SensorChart.jsx): the last twenty readings as points with
    a clock label and three metrics coerced with `Number(x) || 0`, and a
    summary tile per metric. */
module HydroChart {
  import Js
  import Series

  datatype Point = Point(time: string, suhu: real, pH: real, flow: real)

  /** One chart point. `clock(v)` stands for
      `new Date(v).toLocaleTimeString("id-ID", …)`; a falsy timestamp is
      labelled "--" instead. */
  function ToPoint(item: Js.Record, clock: Js.Value -> string): (p: Point)
    ensures !Js.Truthy(Js.Get(item, "timestamp")) ==> p.time == "--"
    ensures Js.Truthy(Js.Get(item, "timestamp")) ==> p.time == clock(Js.Get(item, "timestamp"))
    ensures p.suhu == Js.NumberOrZero(Js.Get(item, "suhu"))
    ensures p.pH == Js.NumberOrZero(Js.Get(item, "pH"))
    ensures p.flow == Js.NumberOrZero(Js.Get(item, "flowRate"))
    ensures Js.ToNumber(Js.Get(item, "suhu")).None? ==> p.suhu == 0.0
    ensures Js.ToNumber(Js.Get(item, "pH")).None? ==> p.pH == 0.0
    ensures Js.ToNumber(Js.Get(item, "flowRate")).None? ==> p.flow == 0.0
  {
    Point(
      if Js.Truthy(Js.Get(item, "timestamp")) then clock(Js.Get(item, "timestamp")) else "--",
      Js.NumberOrZero(Js.Get(item, "suhu")),
      Js.NumberOrZero(Js.Get(item, "pH")),
      Js.NumberOrZero(Js.Get(item, "flowRate")))
  }

  /** The point builder the chart maps over its window. */
  function PointOf(clock: Js.Value -> string): Js.Record -> Point
  {
    item => ToPoint(item, clock)
  }

  /** `chartData` of this chart (its contract is `Series.Chart`'s). */
  function ChartData(data: seq<Js.Record>, clock: Js.Value -> string): seq<Point>
  {
    Series.Chart(data, PointOf(clock))
  }

  /** The three summary tiles, each a mean followed by its unit ("--" each
      when there is no data); `fixed(x, n)` stands for `x.toFixed(n)`. */
  function Summaries(points: seq<Point>, fixed: (real, nat) -> string): (tiles: seq<string>)
    ensures |tiles| == 3
    ensures points == [] ==> tiles == ["--", "--", "--"]
    ensures points != [] ==>
      && tiles[0] == fixed(Series.Avg(Series.Column(points, (p: Point) => p.suhu)), 1) + "°C"
      && tiles[1] == fixed(Series.Avg(Series.Column(points, (p: Point) => p.pH)), 2)
      && tiles[2] == fixed(Series.Avg(Series.Column(points, (p: Point) => p.flow)), 2) + " L/min"
  {
    [ Series.Summary(Series.Column(points, (p: Point) => p.suhu), x => fixed(x, 1) + "°C"),
      Series.Summary(Series.Column(points, (p: Point) => p.pH), x => fixed(x, 2)),
      Series.Summary(Series.Column(points, (p: Point) => p.flow), x => fixed(x, 2) + " L/min") ]
  }

  /** Readings that carry none of the three metrics plot flat at zero, and
      all three averages are zero too. */
  lemma MissingMetricsPlotZero(data: seq<Js.Record>, clock: Js.Value -> string)
    requires forall i :: 0 <= i < |data| ==>
      "suhu" !in data[i] && "pH" !in data[i] && "flowRate" !in data[i]
    ensures var points := ChartData(data, clock);
      forall i :: 0 <= i < |points| ==> points[i].suhu == 0.0 && points[i].pH == 0.0 && points[i].flow == 0.0
    ensures var points := ChartData(data, clock);
      && Series.Avg(Series.Column(points, (p: Point) => p.suhu)) == 0.0
      && Series.Avg(Series.Column(points, (p: Point) => p.pH)) == 0.0
      && Series.Avg(Series.Column(points, (p: Point) => p.flow)) == 0.0
  {
    var points := ChartData(data, clock);
    forall i | 0 <= i < |points|
      ensures points[i].suhu == 0.0 && points[i].pH == 0.0 && points[i].flow == 0.0
    {
      Series.ChartAt(data, PointOf(clock), i);
    }
    if points != [] {
      Series.AvgConstant(Series.Column(points, (p: Point) => p.suhu), 0.0);
      Series.AvgConstant(Series.Column(points, (p: Point) => p.pH), 0.0);
      Series.AvgConstant(Series.Column(points, (p: Point) => p.flow), 0.0);
    }
  }
}
